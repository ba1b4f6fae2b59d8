/** Request/reply over a publish/subscribe broker, as a protocol between any number of concurrent
    requesters and responders on a network that reorders, duplicates and loses messages, and that
    may lose the headers of a message it delivers.
  */
module RequestReply {
  import opened Common

  const REPLY_TO := "Reply-To"
  const CORRELATION_ID := "Correlation-ID"
  const REPLY_PREFIX := "kratos.reply."

  datatype Message = Message(id: string, headers: map<string, string>, body: string)
  {
    function GetHeader(key: string): string {
      if key in headers then headers[key] else ""
    }
  }

  /** One `GenericRequest` call: its arguments and the two identifiers it would generate. */
  datatype Call = Call(topic: string, msg: Message, replyOption: string, topicUuid: string, idUuid: string)
  {
    function ReplyTopic(): string {
      if replyOption == "" then REPLY_PREFIX + topicUuid else replyOption
    }

    function Id(): string {
      if msg.id == "" then idUuid else msg.id
    }

    /** The request as published. */
    function Prepared(): Message {
      msg.(id := Id(), headers := msg.headers[REPLY_TO := ReplyTopic()][CORRELATION_ID := Id()])
    }
  }

  function NewReply(request: Message, body: string): (r: Message)
  {
    var cid := request.GetHeader(CORRELATION_ID);
    Message("", if cid != "" then map[CORRELATION_ID := cid] else map[], body)
  }

  /** What `ReplyTo` publishes, and where; nothing when the request names no reply topic. */
  function ReplyTo(request: Message, body: string): Option<(string, Message)>
  {
    var topic := request.GetHeader(REPLY_TO);
    if topic == "" then None else Some((topic, NewReply(request, body)))
  }

  /** What a request carries when it is published: a generated id only where the caller gave none, the
      reply topic it will listen on, its id as correlation id, and everything else as it was. */
  lemma RequestStamped(call: Call)
    ensures var m := call.Prepared();
            && m.id == (if call.msg.id != "" then call.msg.id else call.idUuid)
            && m.GetHeader("Reply-To") == (if call.replyOption != "" then call.replyOption else "kratos.reply." + call.topicUuid)
            && m.GetHeader("Correlation-ID") == m.id && m.body == call.msg.body
            && forall h :: h != "Reply-To" && h != "Correlation-ID" ==> m.GetHeader(h) == call.msg.GetHeader(h)
  {
  }

  /** What a responder publishes: its own body to the request's reply topic, with the request's
      correlation id if it has one, and nothing when the request names no reply topic. */
  lemma ReplyCarries(request: Message, body: string)
    ensures request.GetHeader("Reply-To") == "" <==> ReplyTo(request, body) == None
    ensures request.GetHeader("Reply-To") != "" ==>
              && ReplyTo(request, body).value.0 == request.GetHeader("Reply-To")
              && (var m := ReplyTo(request, body).value.1;
                  && m.body == body && m.id == ""
                  && m.GetHeader("Correlation-ID") == request.GetHeader("Correlation-ID")
                  && forall h :: h != "Correlation-ID" ==> m.GetHeader(h) == "")
  {
  }

  /** The reply filter: a correlation id, when present, must be the request's own. */
  predicate Matches(m: Message, id: string)
  {
    var cid := m.GetHeader(CORRELATION_ID);
    cid == "" || cid == id
  }

  /** The reply handler's effect on the one-slot reply channel. */
  function Handled(slot: Option<Message>, id: string, m: Message): Option<Message>
  {
    if Matches(m, id) && slot.None? then Some(m) else slot
  }

  // ------------------------------------------------------------------------
  // One requester in place
  // ------------------------------------------------------------------------

  class MessageObject {
    var id: string
    var headers: map<string, string>
    var body: string

    ghost function Value(): Message
      reads this
    {
      Message(id, headers, body)
    }
  }

  class ReplyChannel {
    const id: string
    var slot: Option<Message>

    constructor (id: string)
      ensures this.id == id && slot == None
    {
      this.id, slot := id, None;
    }

    method Handle(m: Message)
      modifies this
      ensures slot == Handled(old(slot), id, m)
    {
      var cid := m.GetHeader(CORRELATION_ID);
      if cid != "" && cid != id {
        return;
      }
      if slot.None? {
        slot := Some(m);
      }
    }
  }

  datatype Outcome = Reply(m: Message) | BrokerNil | MessageNil | SubscribeFailed | PublishFailed | TimedOut

  /** Position of the first message of the inbox that passes the filter, or its length. */
  function FirstMatch(inbox: seq<Message>, id: string): (k: nat)
    ensures k <= |inbox|
    ensures forall i :: 0 <= i < k ==> !Matches(inbox[i], id)
    ensures k < |inbox| ==> Matches(inbox[k], id)
  {
    if |inbox| == 0 then 0
    else
      var k := FirstMatch(inbox[..|inbox| - 1], id);
      assert k < |inbox| - 1 ==> inbox[..|inbox| - 1][k] == inbox[k];
      assert forall i :: 0 <= i < k ==> inbox[..|inbox| - 1][i] == inbox[i];
      if k < |inbox| - 1 then k
      else if Matches(inbox[|inbox| - 1], id) then |inbox| - 1
      else |inbox|
  }

  lemma {:induction false} FirstMatchNext(inbox: seq<Message>, i: nat, id: string)
    requires i < |inbox|
    ensures var k := FirstMatch(inbox[..i], id);
            FirstMatch(inbox[..i + 1], id) == if k < i then k else if Matches(inbox[i], id) then i else i + 1
  {
    assert inbox[..i + 1][..i] == inbox[..i];
  }

  /** The subscription hands the channel's handler one message after the other. */
  method DeliverAll(ch: ReplyChannel, inbox: seq<Message>)
    requires ch.slot == None
    modifies ch
    ensures var k := FirstMatch(inbox, ch.id); ch.slot == if k < |inbox| then Some(inbox[k]) else None
  {
    for i := 0 to |inbox|
      invariant var k := FirstMatch(inbox[..i], ch.id);
                ch.slot == if k < i then Some(inbox[k]) else None
    {
      FirstMatchNext(inbox, i, ch.id);
      ch.Handle(inbox[i]);
    }
    assert inbox[..|inbox|] == inbox;
  }

  /** `GenericRequest` as one caller sees it. `inbox` is what its handler is given before the
      select, `ready` whether the select takes a filled reply channel rather than the timeout. */
  method GenericRequest(hasBroker: bool, msg: MessageObject?, call: Call, subscribeOk: bool, publishOk: bool,
                        inbox: seq<Message>, ready: bool) returns (r: Outcome)
    requires msg != null ==> msg.Value() == call.msg
    modifies msg
    ensures msg != null ==> msg.Value() == if hasBroker then call.Prepared() else call.msg
    ensures r.BrokerNil? <==> !hasBroker
    ensures r.MessageNil? <==> hasBroker && msg == null
    ensures r.SubscribeFailed? <==> hasBroker && msg != null && !subscribeOk
    ensures r.PublishFailed? <==> hasBroker && msg != null && subscribeOk && !publishOk
    ensures r.Reply? <==>
            && hasBroker && msg != null && subscribeOk && publishOk
            && ready && FirstMatch(inbox, call.Id()) < |inbox|
    ensures r.Reply? ==> r.m == inbox[FirstMatch(inbox, call.Id())]
  {
    if !hasBroker {
      return BrokerNil;
    }
    if msg == null {
      return MessageNil;
    }
    var replyTopic := call.replyOption;
    if replyTopic == "" {
      replyTopic := REPLY_PREFIX + call.topicUuid;
    }
    if msg.id == "" {
      msg.id := call.idUuid;
    }
    msg.headers := msg.headers[REPLY_TO := replyTopic];
    msg.headers := msg.headers[CORRELATION_ID := msg.id];
    if !subscribeOk {
      return SubscribeFailed;
    }
    if !publishOk {
      return PublishFailed;
    }
    var ch := new ReplyChannel(msg.id);
    DeliverAll(ch, inbox);
    if ready && ch.slot.Some? {
      return Reply(ch.slot.value);
    }
    return TimedOut;
  }

  // ------------------------------------------------------------------------
  // The system: requesters, responders and the network
  // ------------------------------------------------------------------------

  /** Why a message is on the network: requester `r` published it, or it answers entry `to`. */
  datatype Origin = Request(r: nat) | Answer(to: nat)

  datatype Entry = Entry(topic: string, msg: Message, origin: Origin)

  datatype Delivery = Delivery(index: nat, msg: Message)

  datatype Phase = Subscribed | Waiting | Returned(reply: Message) | Failed

  /** `seen` is the sequence of handler invocations, each with the log entry it came from. */
  datatype Requester = Requester(call: Call, phase: Phase, slot: Option<Message>, seen: seq<Delivery>)

  /** The network is the log of everything ever published: delivering any entry any number of times,
      in any order or never, gives reordering, duplication and loss. */
  datatype System = System(calls: seq<Requester>, log: seq<Entry>)

  datatype Action =
    | Start(call: Call)
    | Publish(r: nat, sent: bool, ok: bool)
    | Respond(i: nat, stripped: bool, body: string)
    | Deliver(i: nat, r: nat, stripped: bool)
    | Receive(r: nat)
    | GiveUp(r: nat)

  function Carried(m: Message, stripped: bool): Message
  {
    if stripped then m.(headers := map[]) else m
  }

  /** One step; an action that is not enabled changes nothing. */
  function Apply(s: System, a: Action): System
  {
    match a
    case Start(call) =>
      s.(calls := s.calls + [Requester(call, Subscribed, None, [])])
    case Publish(r, sent, ok) =>
      if r < |s.calls| && s.calls[r].phase.Subscribed? then
        var q := s.calls[r];
        System(s.calls[r := q.(phase := if ok then Waiting else Failed)],
               if sent then s.log + [Entry(q.call.topic, q.call.Prepared(), Request(r))] else s.log)
      else s
    case Respond(i, stripped, body) =>
      if i < |s.log| then
        match ReplyTo(Carried(s.log[i].msg, stripped), body)
        case None => s
        case Some((topic, m)) => s.(log := s.log + [Entry(topic, m, Answer(i))])
      else s
    case Deliver(i, r, stripped) =>
      if i < |s.log| && r < |s.calls| && s.log[i].topic == s.calls[r].call.ReplyTopic() then
        var q, m := s.calls[r], Carried(s.log[i].msg, stripped);
        s.(calls := s.calls[r := q.(slot := Handled(q.slot, q.call.Id(), m), seen := q.seen + [Delivery(i, m)])])
      else s
    case Receive(r) =>
      if r < |s.calls| && s.calls[r].phase.Waiting? && s.calls[r].slot.Some? then
        var q := s.calls[r];
        s.(calls := s.calls[r := q.(phase := Returned(q.slot.value), slot := None)])
      else s
    case GiveUp(r) =>
      if r < |s.calls| && s.calls[r].phase.Waiting? then
        s.(calls := s.calls[r := s.calls[r].(phase := Failed)])
      else s
  }

  function Run(actions: seq<Action>): System
  {
    if |actions| == 0 then System([], []) else Apply(Run(actions[..|actions| - 1]), actions[|actions| - 1])
  }

  // ------------------------------------------------------------------------
  // Invariants
  // ------------------------------------------------------------------------

  /** Every entry is some call's request, or an answer to some call's request on its reply topic. */
  ghost predicate EntryOk(calls: seq<Requester>, log: seq<Entry>, i: nat)
    requires i < |log|
  {
    match log[i].origin
    case Request(r) =>
      r < |calls| && log[i].topic == calls[r].call.topic && log[i].msg == calls[r].call.Prepared()
    case Answer(to) =>
      && to < i && log[to].origin.Request? && log[to].origin.r < |calls|
      && (var call := calls[log[to].origin.r].call;
          && log[i].topic == call.ReplyTopic()
          && log[i].msg == Message("", map["Correlation-ID" := call.Id()], log[i].msg.body))
  }

  ghost predicate LogOk(s: System)
  {
    forall i :: 0 <= i < |s.log| ==> EntryOk(s.calls, s.log, i)
  }

  ghost function Messages(seen: seq<Delivery>): (ms: seq<Message>)
    ensures |ms| == |seen|
  {
    seq(|seen|, i requires 0 <= i < |seen| => seen[i].msg)
  }

  /** What a requester holds or returned is the first delivery that passed its filter. */
  ghost predicate CallOk(q: Requester, log: seq<Entry>)
  {
    && (forall k :: 0 <= k < |q.seen| ==>
          && q.seen[k].index < |log|
          && log[q.seen[k].index].topic == q.call.ReplyTopic()
          && q.seen[k].msg.body == log[q.seen[k].index].msg.body)
    && (var k := FirstMatch(Messages(q.seen), q.call.Id());
        if q.phase.Returned? then k < |q.seen| && q.phase.reply == q.seen[k].msg
        else q.slot == if k < |q.seen| then Some(q.seen[k].msg) else None)
  }

  ghost predicate Inv(s: System)
  {
    LogOk(s) && forall r :: 0 <= r < |s.calls| ==> CallOk(s.calls[r], s.log)
  }

  /** Requesters only ever gain members, and each keeps its call. */
  ghost predicate Grows(a: seq<Requester>, b: seq<Requester>)
  {
    |a| <= |b| && forall r :: 0 <= r < |a| ==> a[r].call == b[r].call
  }

  lemma {:induction false} LogOkGrows(s: System, calls: seq<Requester>)
    requires LogOk(s) && Grows(s.calls, calls)
    ensures LogOk(s.(calls := calls))
  {
    forall i | 0 <= i < |s.log|
      ensures EntryOk(calls, s.log, i)
    {
      assert EntryOk(s.calls, s.log, i);
    }
  }

  lemma {:induction false} LogOkAppend(s: System, e: Entry)
    requires LogOk(s) && EntryOk(s.calls, s.log + [e], |s.log|)
    ensures LogOk(s.(log := s.log + [e]))
  {
    forall i | 0 <= i < |s.log| + 1
      ensures EntryOk(s.calls, s.log + [e], i)
    {
      if i < |s.log| {
        assert EntryOk(s.calls, s.log, i);
      }
    }
  }

  lemma CallOkAppend(q: Requester, log: seq<Entry>, e: Entry)
    requires CallOk(q, log)
    ensures CallOk(q, log + [e])
  {
  }

  lemma {:induction false} AnswersOnlyRequests(s: System, i: nat, stripped: bool, body: string)
    requires LogOk(s) && i < |s.log|
    requires forall r :: 0 <= r < |s.calls| ==> s.calls[r].call.Id() != ""
    ensures LogOk(Apply(s, Respond(i, stripped, body)))
  {
    assert EntryOk(s.calls, s.log, i);
    var m := Carried(s.log[i].msg, stripped);
    if ReplyTo(m, body).Some? && s.log[i].origin.Request? {
      var e := Entry(ReplyTo(m, body).value.0, ReplyTo(m, body).value.1, Answer(i));
      LogOkAppend(s, e);
    }
  }

  lemma ApplyGrows(s: System, a: Action)
    ensures Grows(s.calls, Apply(s, a).calls)
  {
  }

  lemma {:induction false} DeliverKeepsCallOk(q: Requester, log: seq<Entry>, i: nat, m: Message)
    requires CallOk(q, log) && i < |log| && log[i].topic == q.call.ReplyTopic() && m.body == log[i].msg.body
    ensures CallOk(q.(slot := Handled(q.slot, q.call.Id(), m), seen := q.seen + [Delivery(i, m)]), log)
  {
    var seen := q.seen + [Delivery(i, m)];
    assert Messages(seen)[..|q.seen|] == Messages(q.seen);
  }

  ghost predicate IdsPresent(s: System)
  {
    forall r :: 0 <= r < |s.calls| ==> s.calls[r].call.Id() != ""
  }

  lemma {:induction false} StepKeepsLogOk(s: System, a: Action)
    requires LogOk(s) && IdsPresent(s)
    ensures LogOk(Apply(s, a))
  {
    var s' := Apply(s, a);
    ApplyGrows(s, a);
    if a.Respond? && a.i < |s.log| {
      AnswersOnlyRequests(s, a.i, a.stripped, a.body);
    } else {
      LogOkGrows(s, s'.calls);
      if a.Publish? && s'.log != s.log {
        LogOkAppend(s.(calls := s'.calls), s'.log[|s.log|]);
      }
    }
  }

  lemma PhaseKeepsCallOk(q: Requester, log: seq<Entry>, p: Phase)
    requires CallOk(q, log) && !q.phase.Returned? && !p.Returned?
    ensures CallOk(q.(phase := p), log)
  {
  }

  lemma ReceiveKeepsCallOk(q: Requester, log: seq<Entry>)
    requires CallOk(q, log) && q.phase.Waiting? && q.slot.Some?
    ensures CallOk(q.(phase := Returned(q.slot.value), slot := None), log)
  {
  }

  lemma {:induction false} PublishKeepsCallOk(s: System, a: Action, r: nat)
    requires Inv(s) && a.Publish? && r < |s.calls|
    ensures r < |Apply(s, a).calls| && CallOk(Apply(s, a).calls[r], Apply(s, a).log)
  {
    var s', q := Apply(s, a), s.calls[r];
    assert CallOk(q, s.log);
    if s' != s {
      if a.r == r {
        PhaseKeepsCallOk(q, s.log, s'.calls[r].phase);
      }
      if a.sent {
        CallOkAppend(s'.calls[r], s.log, s'.log[|s.log|]);
      }
    }
  }

  lemma {:induction false} RespondKeepsCallOk(s: System, a: Action, r: nat)
    requires Inv(s) && a.Respond? && r < |s.calls|
    ensures r < |Apply(s, a).calls| && CallOk(Apply(s, a).calls[r], Apply(s, a).log)
  {
    var s', q := Apply(s, a), s.calls[r];
    assert CallOk(q, s.log);
    if s' != s {
      CallOkAppend(q, s.log, s'.log[|s.log|]);
    }
  }

  lemma {:induction false} OwnStepKeepsCallOk(s: System, a: Action, r: nat)
    requires Inv(s) && (a.Deliver? || a.Receive? || a.GiveUp?) && r < |s.calls|
    ensures r < |Apply(s, a).calls| && CallOk(Apply(s, a).calls[r], Apply(s, a).log)
  {
    var q := s.calls[r];
    assert CallOk(q, s.log);
    if a.r == r && Apply(s, a) != s {
      match a
      case Deliver(i, _, stripped) => DeliverKeepsCallOk(q, s.log, i, Carried(s.log[i].msg, stripped));
      case Receive(_) => ReceiveKeepsCallOk(q, s.log);
      case GiveUp(_) => PhaseKeepsCallOk(q, s.log, Failed);
    }
  }

  lemma {:induction false} StepKeepsCallOk(s: System, a: Action, r: nat)
    requires Inv(s) && r < |Apply(s, a).calls|
    ensures CallOk(Apply(s, a).calls[r], Apply(s, a).log)
  {
    match a
    case Start(_) =>
      if r < |s.calls| {
        assert CallOk(s.calls[r], s.log);
      }
    case Publish(_, _, _) => PublishKeepsCallOk(s, a, r);
    case Respond(_, _, _) => RespondKeepsCallOk(s, a, r);
    case Deliver(_, _, _) => OwnStepKeepsCallOk(s, a, r);
    case Receive(_) => OwnStepKeepsCallOk(s, a, r);
    case GiveUp(_) => OwnStepKeepsCallOk(s, a, r);
  }

  lemma {:induction false} ReachableInv(actions: seq<Action>)
    requires IdsPresent(Run(actions))
    ensures Inv(Run(actions))
  {
    if |actions| > 0 {
      var pre, a := actions[..|actions| - 1], actions[|actions| - 1];
      var s := Run(pre);
      ApplyGrows(s, a);
      assert IdsPresent(s) by {
        forall r | 0 <= r < |s.calls|
          ensures s.calls[r].call.Id() != ""
        {
          assert s.calls[r].call == Run(actions).calls[r].call;
        }
      }
      ReachableInv(pre);
      StepKeepsLogOk(s, a);
      forall r | 0 <= r < |Apply(s, a).calls|
        ensures CallOk(Apply(s, a).calls[r], Apply(s, a).log)
      {
        StepKeepsCallOk(s, a, r);
      }
    }
  }

  // ------------------------------------------------------------------------
  // A returned reply answers the requester's own request
  // ------------------------------------------------------------------------

  /** The message ids in use are present and pairwise different. */
  ghost predicate DistinctIds(s: System)
  {
    && IdsPresent(s)
    && forall q, r :: 0 <= q < r < |s.calls| ==> s.calls[q].call.Id() != s.calls[r].call.Id()
  }

  /** The returned reply is the first delivery that passed the filter, and that delivery carries an
      answer built by a responder from this requester's own request. */
  ghost predicate OwnFirstReply(s: System, r: nat)
    requires r < |s.calls| && s.calls[r].phase.Returned?
  {
    var q := s.calls[r];
    var k := FirstMatch(Messages(q.seen), q.call.Id());
    && k < |q.seen| && q.phase.reply == q.seen[k].msg
    && q.seen[k].index < |s.log|
    && (var e := s.log[q.seen[k].index];
        && e.origin.Answer? && e.origin.to < |s.log|
        && s.log[e.origin.to].origin == Request(r)
        && e.msg == Message("", map["Correlation-ID" := q.call.Id()], e.msg.body)
        && q.phase.reply.body == e.msg.body)
  }

  /** Some responder of the run answered this requester's request, and its body is what was returned. */
  ghost predicate AnsweredBy(actions: seq<Action>, r: nat, j: nat)
    requires r < |Run(actions).calls| && Run(actions).calls[r].phase.Returned? && j < |actions|
  {
    var s := Run(actions);
    && actions[j].Respond? && actions[j].i < |s.log| && s.log[actions[j].i].origin == Request(r)
    && s.calls[r].phase.reply.body == actions[j].body
  }

  /** Action `j` of the run responded to entry `to` with this body. */
  ghost predicate Responded(actions: seq<Action>, j: nat, to: nat, body: string)
    requires j < |actions|
  {
    actions[j].Respond? && actions[j].i == to && actions[j].body == body
  }

  lemma AnswerAppears(s: System, a: Action)
    ensures s.log <= Apply(s, a).log && |Apply(s, a).log| <= |s.log| + 1
    ensures |Apply(s, a).log| > |s.log| && Apply(s, a).log[|s.log|].origin.Answer? ==>
              && a.Respond? && Apply(s, a).log[|s.log|].origin.to == a.i
              && Apply(s, a).log[|s.log|].msg.body == a.body
  {
  }

  /** Every answer on the network carries the body that a responder of the run passed for it. */
  lemma {:induction false} AnswersAreResponses(actions: seq<Action>, e: nat)
    requires e < |Run(actions).log| && Run(actions).log[e].origin.Answer?
    ensures exists j :: 0 <= j < |actions|
                        && Responded(actions, j, Run(actions).log[e].origin.to, Run(actions).log[e].msg.body)
  {
    var m := |actions| - 1;
    var pre, s := actions[..m], Run(actions[..m]);
    AnswerAppears(s, actions[m]);
    if e < |s.log| {
      AnswersAreResponses(pre, e);
      var j :| 0 <= j < m && Responded(pre, j, s.log[e].origin.to, s.log[e].msg.body);
      assert Responded(actions, j, s.log[e].origin.to, s.log[e].msg.body);
    } else {
      assert Responded(actions, m, Run(actions).log[e].origin.to, Run(actions).log[e].msg.body);
    }
  }

  lemma {:induction false} OwnReplyAnswered(actions: seq<Action>, r: nat)
    requires r < |Run(actions).calls| && Run(actions).calls[r].phase.Returned? && OwnFirstReply(Run(actions), r)
    ensures exists j :: 0 <= j < |actions| && AnsweredBy(actions, r, j)
  {
    var s := Run(actions);
    var q := s.calls[r];
    var e := q.seen[FirstMatch(Messages(q.seen), q.call.Id())].index;
    AnswersAreResponses(actions, e);
    var j :| 0 <= j < |actions| && Responded(actions, j, s.log[e].origin.to, s.log[e].msg.body);
    assert AnsweredBy(actions, r, j);
  }

  /** No delivery in the run loses its headers. */
  ghost predicate HeadersKept(actions: seq<Action>)
  {
    forall i :: 0 <= i < |actions| ==> actions[i].Deliver? ==> !actions[i].stripped
  }

  /** What the requester saw is what the log holds, headers included. */
  ghost predicate Whole(q: Requester, log: seq<Entry>)
  {
    forall k :: 0 <= k < |q.seen| ==> q.seen[k].index < |log| && q.seen[k].msg == log[q.seen[k].index].msg
  }

  ghost predicate SeenWhole(s: System)
  {
    forall r :: 0 <= r < |s.calls| ==> Whole(s.calls[r], s.log)
  }

  lemma WholeGrows(q: Requester, log: seq<Entry>, log': seq<Entry>)
    requires Whole(q, log) && log <= log'
    ensures Whole(q, log')
  {
  }

  lemma LogGrows(s: System, a: Action)
    ensures s.log <= Apply(s, a).log
  {
  }

  lemma {:induction false} StepKeepsWhole(s: System, a: Action, r: nat)
    requires SeenWhole(s) && (a.Deliver? ==> !a.stripped) && r < |Apply(s, a).calls|
    ensures Whole(Apply(s, a).calls[r], Apply(s, a).log)
  {
    if r < |s.calls| {
      LogGrows(s, a);
      WholeGrows(s.calls[r], s.log, Apply(s, a).log);
    }
  }

  lemma {:induction false} KeptMeansSeenWhole(actions: seq<Action>)
    requires HeadersKept(actions)
    ensures SeenWhole(Run(actions))
  {
    if |actions| > 0 {
      var pre, a := actions[..|actions| - 1], actions[|actions| - 1];
      KeptMeansSeenWhole(pre);
      forall r | 0 <= r < |Apply(Run(pre), a).calls|
        ensures Whole(Apply(Run(pre), a).calls[r], Apply(Run(pre), a).log)
      {
        StepKeepsWhole(Run(pre), a, r);
      }
    }
  }

  /** On any reply topic, shared or not: if headers are kept, a requester whose request topic is not
      its own reply topic returns only the first answer to its own request, with the body its responder passed. */
  lemma {:induction false} OwnReplyOnSharedTopic(actions: seq<Action>, r: nat)
    requires HeadersKept(actions) && DistinctIds(Run(actions))
    requires r < |Run(actions).calls| && Run(actions).calls[r].phase.Returned?
    requires Run(actions).calls[r].call.topic != Run(actions).calls[r].call.ReplyTopic()
    ensures OwnFirstReply(Run(actions), r)
    ensures exists j :: 0 <= j < |actions| && AnsweredBy(actions, r, j)
  {
    var s := Run(actions);
    ReachableInv(actions);
    KeptMeansSeenWhole(actions);
    var q := s.calls[r];
    assert CallOk(q, s.log);
    var k := FirstMatch(Messages(q.seen), q.call.Id());
    assert EntryOk(s.calls, s.log, q.seen[k].index);
    OwnReplyAnswered(actions, r);
  }

  /** Nobody else uses the reply topic, neither to receive replies nor to send requests. */
  ghost predicate PrivateTopic(s: System, r: nat)
    requires r < |s.calls|
  {
    forall q :: 0 <= q < |s.calls| ==>
      && s.calls[q].call.topic != s.calls[r].call.ReplyTopic()
      && (q != r ==> s.calls[q].call.ReplyTopic() != s.calls[r].call.ReplyTopic())
  }

  /** On a private reply topic the same holds however many deliveries lose their headers. */
  lemma {:induction false} OwnReplyOnPrivateTopic(actions: seq<Action>, r: nat)
    requires IdsPresent(Run(actions))
    requires r < |Run(actions).calls| && Run(actions).calls[r].phase.Returned?
    requires PrivateTopic(Run(actions), r)
    ensures OwnFirstReply(Run(actions), r)
    ensures exists j :: 0 <= j < |actions| && AnsweredBy(actions, r, j)
  {
    var s := Run(actions);
    ReachableInv(actions);
    var q := s.calls[r];
    assert CallOk(q, s.log);
    var k := FirstMatch(Messages(q.seen), q.call.Id());
    assert EntryOk(s.calls, s.log, q.seen[k].index);
    OwnReplyAnswered(actions, r);
  }

  // ------------------------------------------------------------------------
  // The conditions are needed
  // ------------------------------------------------------------------------

  lemma {:induction false} RunThen(actions: seq<Action>, a: Action)
    ensures Run(actions + [a]) == Apply(Run(actions), a)
  {
    assert (actions + [a])[..|actions|] == actions;
  }

  /** The requester returned, but not the first answer to its own request. */
  ghost predicate Misled(s: System, r: nat)
  {
    r < |s.calls| && s.calls[r].phase.Returned? && !OwnFirstReply(s, r)
  }

  lemma {:induction false} RunThenTwo(actions: seq<Action>, a: Action, b: Action)
    ensures Run(actions + [a] + [b]) == Apply(Apply(Run(actions), a), b)
  {
    RunThen(actions, a);
    RunThen(actions + [a], b);
  }

  /** A caller alone: it subscribes and publishes. */
  function Asked(call: Call): System
  {
    System([Requester(call, Waiting, None, [])], [Entry(call.topic, call.Prepared(), Request(0))])
  }

  lemma {:induction false} AfterAsking(call: Call)
    ensures Run([] + [Start(call)] + [Publish(0, true, true)]) == Asked(call)
  {
    RunThenTwo([], Start(call), Publish(0, true, true));
    var s := Apply(Run([]), Start(call));
    assert s == System([Requester(call, Subscribed, None, [])], []);
  }

  /** A request that is published, answered and delivered returns: the responder's body, under the
      request's own correlation id unless the delivery lost its headers. */
  lemma {:induction false} ReplyArrives(call: Call, body: string, stripped: bool)
    requires call.Id() != ""
    ensures var asked := [] + [Start(call)] + [Publish(0, true, true)];
            var s := Run(asked + [Respond(0, false, body)] + [Deliver(1, 0, stripped)] + [Receive(0)]);
            && |s.calls| == 1
            && s.calls[0].phase ==
               Returned(Message("", if stripped then map[] else map["Correlation-ID" := call.Id()], body))
  {
    var asked := [] + [Start(call)] + [Publish(0, true, true)];
    AfterAsking(call);
    RunThen(asked, Respond(0, false, body));
    RunThenTwo(asked + [Respond(0, false, body)], Deliver(1, 0, stripped), Receive(0));
    AnswerDelivered(call, body, stripped);
  }

  lemma {:induction false} AnswerDelivered(call: Call, body: string, stripped: bool)
    requires call.Id() != ""
    ensures var s := Apply(Apply(Apply(Asked(call), Respond(0, false, body)), Deliver(1, 0, stripped)), Receive(0));
            && |s.calls| == 1
            && s.calls[0].phase ==
               Returned(Message("", if stripped then map[] else map["Correlation-ID" := call.Id()], body))
  {
    var reply := Message("", map["Correlation-ID" := call.Id()], body);
    var s1 := Apply(Asked(call), Respond(0, false, body));
    assert s1.log == Asked(call).log + [Entry(call.ReplyTopic(), reply, Answer(0))];
    var m := Carried(reply, stripped);
    var s2 := Apply(s1, Deliver(1, 0, stripped));
    assert s2.calls == [Requester(call, Waiting, Some(m), [] + [Delivery(1, m)])];
  }

  /** A request whose publication fails, or that gives up waiting, has failed. */
  lemma FailureRecorded(s: System, r: nat, sent: bool)
    requires r < |s.calls|
    ensures s.calls[r].phase.Subscribed? ==> Apply(s, Publish(r, sent, false)).calls[r].phase == Failed
    ensures s.calls[r].phase.Waiting? ==> Apply(s, GiveUp(r)).calls[r].phase == Failed
  {
  }

  lemma OutcomeStays(s: System, a: Action, r: nat)
    requires r < |s.calls| && (s.calls[r].phase.Failed? || s.calls[r].phase.Returned?)
    ensures r < |Apply(s, a).calls| && Apply(s, a).calls[r].phase == s.calls[r].phase
  {
  }

  /** And the outcome is final: whatever is delivered later, a failed request never returns, and one that
      returned keeps its reply. */
  lemma {:induction false} OutcomeIsFinal(actions: seq<Action>, later: seq<Action>, r: nat)
    requires r < |Run(actions).calls| && (Run(actions).calls[r].phase.Failed? || Run(actions).calls[r].phase.Returned?)
    ensures r < |Run(actions + later).calls| && Run(actions + later).calls[r].phase == Run(actions).calls[r].phase
  {
    if |later| == 0 {
      assert actions + later == actions;
    } else {
      var m := |later| - 1;
      OutcomeIsFinal(actions, later[..m], r);
      assert actions + later == actions + later[..m] + [later[m]];
      RunThen(actions + later[..m], later[m]);
      OutcomeStays(Run(actions + later[..m]), later[m], r);
    }
  }

  /** The caller alone after its request came back to it as its reply. */
  function Echoed(call: Call): System
  {
    System([Requester(call, Returned(call.Prepared()), None, [Delivery(0, call.Prepared())])], Asked(call).log)
  }

  lemma {:induction false} EchoDelivered(call: Call)
    requires call.topic == call.ReplyTopic() && call.Id() != ""
    ensures Apply(Apply(Asked(call), Deliver(0, 0, false)), Receive(0)) == Echoed(call)
  {
    var seen := [Delivery(0, call.Prepared())];
    assert [] + seen == seen && Matches(call.Prepared(), call.Id());
    assert Apply(Asked(call), Deliver(0, 0, false)) ==
           System([Requester(call, Waiting, Some(call.Prepared()), seen)], Asked(call).log);
  }

  lemma {:induction false} EchoMisleads(call: Call)
    requires call.Id() != ""
    ensures DistinctIds(Echoed(call)) && Misled(Echoed(call), 0)
  {
    var s := Echoed(call);
    var k := FirstMatch(Messages(s.calls[0].seen), call.Id());
    assert k < 1 ==> s.log[s.calls[0].seen[k].index].origin == Request(0);
  }

  /** The whole run of the caller that is echoed. */
  function EchoRun(call: Call): seq<Action>
  {
    [] + [Start(call)] + [Publish(0, true, true)] + [Deliver(0, 0, false)] + [Receive(0)]
  }

  lemma {:induction false} AfterEcho(call: Call)
    requires call.topic == call.ReplyTopic() && call.Id() != ""
    ensures Run(EchoRun(call)) == Echoed(call)
  {
    AfterAsking(call);
    RunThenTwo([] + [Start(call)] + [Publish(0, true, true)], Deliver(0, 0, false), Receive(0));
    EchoDelivered(call);
  }

  lemma EchoKeepsHeaders(call: Call)
    ensures HeadersKept(EchoRun(call))
  {
  }

  /** A caller that publishes on its own reply topic can be handed its own request as the reply,
      headers and all. */
  lemma {:induction false} OwnTopicEchoes(call: Call)
    requires call.topic == call.ReplyTopic() && call.Id() != ""
    ensures exists actions :: HeadersKept(actions) && DistinctIds(Run(actions)) && Misled(Run(actions), 0)
                              && Run(actions).calls[0].phase == Returned(call.Prepared())
  {
    AfterEcho(call);
    EchoMisleads(call);
    EchoKeepsHeaders(call);
  }

  /** Two callers that share a reply topic, or one that sends requests to the other's reply topic,
      can be crossed as soon as one delivery loses its headers. */
  lemma {:induction false} PrivateTopicNeeded(a: Call, b: Call, body: string)
    requires a.ReplyTopic() == b.ReplyTopic() || a.ReplyTopic() == b.topic
    requires a.Id() != b.Id() && a.Id() != "" && b.Id() != ""
    ensures exists actions :: DistinctIds(Run(actions)) && Misled(Run(actions), 0)
                              && |Run(actions).calls| == 2
                              && Run(actions).calls[0].call == a && Run(actions).calls[1].call == b
  {
    var p0 := [Start(a)];
    var p1 := p0 + [Start(b)];
    var p2 := p1 + [Publish(0, false, true)];
    var p3 := p2 + [Publish(1, true, true)];
    RunThen([], Start(a));
    assert [] + [Start(a)] == p0;
    RunThen(p0, Start(b));
    RunThen(p1, Publish(0, false, true));
    RunThen(p2, Publish(1, true, true));
    var qa, qb := Requester(a, Waiting, None, []), Requester(b, Waiting, None, []);
    var e := Entry(b.topic, b.Prepared(), Request(1));
    assert Run(p3) == System([qa, qb], [e]);
    if a.ReplyTopic() == b.topic {
      CrossFrom(p3, a, b, [e], 0);
    } else {
      var p4 := p3 + [Respond(0, false, body)];
      RunThen(p3, Respond(0, false, body));
      var f := Entry(b.ReplyTopic(), NewReply(b.Prepared(), body), Answer(0));
      assert Run(p4) == System([qa, qb], [e, f]);
      CrossFrom(p4, a, b, [e, f], 1);
    }
  }

  /** Two waiting callers, and the first after it was handed entry `i` without its headers. */
  function Paired(a: Call, b: Call, log: seq<Entry>): System
  {
    System([Requester(a, Waiting, None, []), Requester(b, Waiting, None, [])], log)
  }

  function Crossed(a: Call, b: Call, log: seq<Entry>, i: nat): System
    requires i < |log|
  {
    var m := Carried(log[i].msg, true);
    System([Requester(a, Returned(m), None, [Delivery(i, m)]), Requester(b, Waiting, None, [])], log)
  }

  lemma {:induction false} CrossDelivered(a: Call, b: Call, log: seq<Entry>, i: nat)
    requires i < |log| && log[i].topic == a.ReplyTopic()
    ensures Apply(Apply(Paired(a, b, log), Deliver(i, 0, true)), Receive(0)) == Crossed(a, b, log, i)
  {
    var m := Carried(log[i].msg, true);
    var seen := [Delivery(i, m)];
    assert [] + seen == seen && Matches(m, a.Id());
    assert Apply(Paired(a, b, log), Deliver(i, 0, true)) ==
           System([Requester(a, Waiting, Some(m), seen), Requester(b, Waiting, None, [])], log);
  }

  lemma {:induction false} CrossMisleads(a: Call, b: Call, log: seq<Entry>, i: nat)
    requires i < |log| && log[0].origin == Request(1) && (i == 0 || log[i].origin == Answer(0))
    requires a.Id() != b.Id() && a.Id() != "" && b.Id() != ""
    ensures DistinctIds(Crossed(a, b, log, i)) && Misled(Crossed(a, b, log, i), 0)
  {
    var s := Crossed(a, b, log, i);
    assert FirstMatch(Messages(s.calls[0].seen), a.Id()) <= 1;
  }

  lemma {:induction false} CrossFrom(p: seq<Action>, a: Call, b: Call, log: seq<Entry>, i: nat)
    requires Run(p) == Paired(a, b, log)
    requires i < |log| && log[i].topic == a.ReplyTopic()
    requires log[0].origin == Request(1) && (i == 0 || log[i].origin == Answer(0))
    requires a.Id() != b.Id() && a.Id() != "" && b.Id() != ""
    ensures exists actions :: DistinctIds(Run(actions)) && Misled(Run(actions), 0)
                              && |Run(actions).calls| == 2
                              && Run(actions).calls[0].call == a && Run(actions).calls[1].call == b
  {
    RunThenTwo(p, Deliver(i, 0, true), Receive(0));
    CrossDelivered(a, b, log, i);
    CrossMisleads(a, b, log, i);
    var actions := p + [Deliver(i, 0, true)] + [Receive(0)];
    assert Run(actions) == Crossed(a, b, log, i);
  }
}
