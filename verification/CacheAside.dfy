/** Cache-aside loading under every interleaving of callers, shared flights, expiries, evictions and
    changes of the source of truth. Single-flight is taken at its contract: at most one execution per
    key at a time, its result shared by everyone who joined it.
  */
module CacheAside {
  import opened Common
  import opened Cache

  /** What a loader returned: the value of `key` in the source at time `at`. `loaded` is false for the
      empty result of a flight whose leader passed a nil loader. */
  datatype Production = Production(key: string, val: Option<Value>, at: nat, loaded: bool)

  /** The result of a flight or a direct load, with the production it came from. */
  datatype Loaded = Good(p: nat) | Bad

  datatype Stage =
    | Running
    | Ready(load: Loaded)
    | Kept(load: Loaded, storedAt: nat)
    | Landed(load: Loaded, storedAt: nat, ended: nat)

  /** `opts` are those of the caller that started the flight. */
  datatype Flight = Flight(key: string, opts: Options, started: nat, stage: Stage)

  /** How a caller got its value. */
  datatype Via = Cached(f: nat, ttl: nat) | Shared(f: nat) | Direct(started: nat)

  datatype Phase =
    | Called
    | Missed
    | Joined(f: nat)
    | Calling(started: nat)
    | Loading(started: nat, load: Loaded)
    | Returned(val: Option<Value>, p: nat, at: nat, via: Via)
    | Errored

  datatype Caller = Caller(key: string, opts: Options, phase: Phase)

  /** `origin` remembers which flight wrote each Redis key, and with which TTL. */
  datatype System = System(
    clock: nat,
    source: map<string, Value>,
    store: Store,
    origin: map<string, (nat, nat)>,
    productions: seq<Production>,
    flights: seq<Flight>,
    active: map<string, nat>,
    callers: seq<Caller>)

  const START := System(0, map[], map[], map[], [], [], map[], [])

  datatype Action =
    | Tick(d: nat)
    | Change(source: map<string, Value>)
    | Evict(key: string)
    | Invoke(key: string, opts: Options)
    | Lookup(c: nat, up: bool)
    | BeginDirect(c: nat)
    | LoadDirectly(c: nat, fails: bool)
    | ReturnDirect(c: nat)
    | Join(c: nat)
    | LoadFor(f: nat, fails: bool)
    | Keep(f: nat, up: bool)
    | Land(f: nat)
    | Wake(c: nat)

  function Truth(s: System, key: string): Option<Value>
  {
    if key in s.source then Some(s.source[key]) else None
  }

  function WithPhase(s: System, c: nat, p: Phase): System
    requires c < |s.callers|
  {
    s.(callers := s.callers[c := s.callers[c].(phase := p)])
  }

  function WithStage(s: System, f: nat, g: Stage): System
    requires f < |s.flights|
  {
    s.(flights := s.flights[f := s.flights[f].(stage := g)])
  }

  function DoLookup(cd: Codec, s: System, c: nat, up: bool): System
  {
    if !(c < |s.callers| && s.callers[c].phase.Called?) then s
    else
      var q := s.callers[c];
      if q.opts.noCache && q.opts.loader then s
      else
        match GetSpec(cd, s.store, q.key, s.clock, up)
        case Failed => WithPhase(s, c, Errored)
        case Miss => WithPhase(s, c, Missed)
        case Hit(val) =>
          if !(q.key in s.origin && s.origin[q.key].0 < |s.flights|) then s
          else
            var (f, ttl) := s.origin[q.key];
            var g := s.flights[f].stage;
            if (g.Kept? || g.Landed?) && g.load.Good?
            then WithPhase(s, c, Returned(val, g.load.p, s.clock, Cached(f, ttl))) else s
  }

  function DoBeginDirect(s: System, c: nat): System
  {
    if c < |s.callers| && s.callers[c].phase.Called? && s.callers[c].opts.noCache && s.callers[c].opts.loader
    then WithPhase(s, c, Calling(s.clock)) else s
  }

  function DoLoadDirectly(s: System, c: nat, fails: bool): System
  {
    if !(c < |s.callers| && s.callers[c].phase.Calling?) then s
    else
      var key, started := s.callers[c].key, s.callers[c].phase.started;
      if fails then WithPhase(s, c, Loading(started, Bad))
      else
        var t := WithPhase(s, c, Loading(started, Good(|s.productions|)));
        t.(productions := s.productions + [Production(key, Truth(s, key), s.clock, true)])
  }

  function DoReturnDirect(s: System, c: nat): System
  {
    if !(c < |s.callers| && s.callers[c].phase.Loading?) then s
    else
      match s.callers[c].phase.load
      case Bad => WithPhase(s, c, Errored)
      case Good(p) =>
        if p < |s.productions|
        then WithPhase(s, c, Returned(s.productions[p].val, p, s.clock, Direct(s.callers[c].phase.started))) else s
  }

  function DoJoin(s: System, c: nat): System
  {
    if !(c < |s.callers| && s.callers[c].phase.Missed?) then s
    else
      var key := s.callers[c].key;
      if key in s.active then WithPhase(s, c, Joined(s.active[key]))
      else
        var t := WithPhase(s, c, Joined(|s.flights|));
        t.(flights := s.flights + [Flight(key, s.callers[c].opts, s.clock, Running)],
           active := s.active[key := |s.flights|])
  }

  function DoLoadFor(s: System, f: nat, fails: bool): System
  {
    if !(f < |s.flights| && s.flights[f].stage.Running?) then s
    else
      var fl := s.flights[f];
      if fl.opts.loader && fails then WithStage(s, f, Ready(Bad))
      else
        var t := WithStage(s, f, Ready(Good(|s.productions|)));
        var val := if fl.opts.loader then Truth(s, fl.key) else None;
        t.(productions := s.productions + [Production(fl.key, val, s.clock, fl.opts.loader)])
  }

  function DoKeep(cd: Codec, s: System, f: nat, up: bool): System
  {
    if !(f < |s.flights| && s.flights[f].stage.Ready?) then s
    else
      var fl := s.flights[f];
      var t := WithStage(s, f, Kept(fl.stage.load, s.clock));
      if fl.stage.load.Bad? || fl.stage.load.p >= |s.productions| then t
      else
        var val := s.productions[fl.stage.load.p].val;
        var ttl := StoreTTL(fl.opts, val);
        if ttl.None? || !up then t
        else t.(store := SetSpec(cd, s.store, fl.key, val, ttl.value, s.clock, true),
                origin := s.origin[fl.key := (f, ttl.value)])
  }

  function DoLand(s: System, f: nat): System
  {
    if !(f < |s.flights| && s.flights[f].stage.Kept?) then s
    else
      var g := s.flights[f].stage;
      WithStage(s, f, Landed(g.load, g.storedAt, s.clock)).(active := s.active - {s.flights[f].key})
  }

  function DoWake(s: System, c: nat): System
  {
    if !(c < |s.callers| && s.callers[c].phase.Joined? && s.callers[c].phase.f < |s.flights|) then s
    else
      var f := s.callers[c].phase.f;
      var g := s.flights[f].stage;
      if !g.Landed? then s
      else if g.load.Bad? then WithPhase(s, c, Errored)
      else if g.load.p < |s.productions|
      then WithPhase(s, c, Returned(s.productions[g.load.p].val, g.load.p, s.clock, Shared(f))) else s
  }

  /** One step; an action that is not enabled changes nothing. */
  function Apply(cd: Codec, s: System, a: Action): System
  {
    match a
    case Tick(d) => s.(clock := s.clock + d)
    case Change(source) => s.(source := source)
    case Evict(key) => s.(store := s.store - {key})
    case Invoke(key, opts) =>
      s.(callers := s.callers + [Caller(key, opts, if |key| > MAX_KEY_LEN then Errored else Called)])
    case Lookup(c, up) => DoLookup(cd, s, c, up)
    case BeginDirect(c) => DoBeginDirect(s, c)
    case LoadDirectly(c, fails) => DoLoadDirectly(s, c, fails)
    case ReturnDirect(c) => DoReturnDirect(s, c)
    case Join(c) => DoJoin(s, c)
    case LoadFor(f, fails) => DoLoadFor(s, f, fails)
    case Keep(f, up) => DoKeep(cd, s, f, up)
    case Land(f) => DoLand(s, f)
    case Wake(c) => DoWake(s, c)
  }

  function Run(cd: Codec, actions: seq<Action>): System
  {
    if |actions| == 0 then START else Apply(cd, Run(cd, actions[..|actions| - 1]), actions[|actions| - 1])
  }

  // ------------------------------------------------------------------------
  // Invariants
  // ------------------------------------------------------------------------

  ghost predicate LoadOk(s: System, key: string, load: Loaded, started: nat)
  {
    load.Good? ==> load.p < |s.productions| && s.productions[load.p].key == key && started <= s.productions[load.p].at
  }

  ghost predicate FlightOk(s: System, fl: Flight)
  {
    && fl.started <= s.clock
    && (!fl.stage.Running? ==>
          && LoadOk(s, fl.key, fl.stage.load, fl.started)
          && (fl.stage.load.Good? ==> s.productions[fl.stage.load.p].loaded == fl.opts.loader))
    && (fl.stage.Kept? || fl.stage.Landed? ==>
          && fl.stage.storedAt <= s.clock
          && (fl.stage.load.Good? ==> s.productions[fl.stage.load.p].at <= fl.stage.storedAt))
    && (fl.stage.Landed? ==> fl.stage.storedAt <= fl.stage.ended <= s.clock)
  }

  /** Flight `f` for `key` produced `p` and got as far as storing it. */
  ghost predicate Carries(s: System, f: nat, key: string, p: nat)
  {
    && f < |s.flights| && s.flights[f].key == key
    && (s.flights[f].stage.Kept? || s.flights[f].stage.Landed?)
    && s.flights[f].stage.load == Good(p)
  }

  /** What Redis holds for a key is the encoding of a production, with that flight's deadline. */
  ghost predicate CellOk(cd: Codec, s: System, key: string)
    requires key in s.store
  {
    && key in s.origin && s.origin[key].0 < |s.flights|
    && (var (f, ttl) := s.origin[key];
        var g := s.flights[f].stage;
        && (g.Kept? || g.Landed?) && g.load.Good? && g.load.p < |s.productions|
        && Carries(s, f, key, g.load.p)
        && s.store[key].payload == Encoded(cd, s.productions[g.load.p].val)
        && StoreTTL(s.flights[f].opts, s.productions[g.load.p].val) == Some(ttl)
        && s.store[key].expires == if ttl == 0 then None else Some(g.storedAt + ttl))
  }

  ghost predicate ReturnOk(s: System, key: string, r: Phase)
    requires r.Returned?
  {
    && r.p < |s.productions| && s.productions[r.p].key == key && s.productions[r.p].val == r.val
    && s.productions[r.p].at <= r.at <= s.clock
    && match r.via
       case Cached(f, ttl) =>
         && Carries(s, f, key, r.p)
         && StoreTTL(s.flights[f].opts, r.val) == Some(ttl)
         && (ttl > 0 ==> r.at < s.flights[f].stage.storedAt + ttl)
         && s.productions[r.p].loaded == s.flights[f].opts.loader
       case Shared(f) =>
         && Carries(s, f, key, r.p) && s.flights[f].stage.Landed? && s.flights[f].stage.ended <= r.at
         && s.productions[r.p].loaded == s.flights[f].opts.loader
       case Direct(started) => started <= s.productions[r.p].at && s.productions[r.p].loaded
  }

  ghost predicate CallerOk(s: System, c: Caller)
  {
    && (c.phase.Missed? ==> !(c.opts.noCache && c.opts.loader))
    && (c.phase.Joined? ==> c.phase.f < |s.flights| && s.flights[c.phase.f].key == c.key)
    && (c.phase.Calling? ==> c.phase.started <= s.clock)
    && (c.phase.Loading? ==>
          && LoadOk(s, c.key, c.phase.load, c.phase.started)
          && (c.phase.load.Good? ==> s.productions[c.phase.load.p].loaded))
    && (c.phase.Returned? ==> ReturnOk(s, c.key, c.phase))
  }

  ghost predicate Inv(cd: Codec, s: System)
  {
    && (forall p :: 0 <= p < |s.productions| ==> s.productions[p].at <= s.clock)
    && (forall f :: 0 <= f < |s.flights| ==> FlightOk(s, s.flights[f]))
    && (forall key :: key in s.store ==> CellOk(cd, s, key))
    && (forall key :: key in s.active ==> s.active[key] < |s.flights| && s.flights[s.active[key]].key == key)
    && (forall c :: 0 <= c < |s.callers| ==> CallerOk(s, s.callers[c]))
  }

  predicate StageLe(g: Stage, g': Stage)
  {
    || g == g'
    || g.Running?
    || (g.Ready? && (g'.Kept? || g'.Landed?) && g.load == g'.load)
    || (g.Kept? && g'.Landed? && g.load == g'.load && g.storedAt == g'.storedAt)
  }

  /** Time, productions and flights only move forward. */
  ghost predicate Extends(s: System, t: System)
  {
    && s.clock <= t.clock
    && s.productions <= t.productions
    && |s.flights| <= |t.flights|
    && forall f :: 0 <= f < |s.flights| ==>
         && t.flights[f].key == s.flights[f].key && t.flights[f].opts == s.flights[f].opts
         && t.flights[f].started == s.flights[f].started && StageLe(s.flights[f].stage, t.flights[f].stage)
  }

  lemma CallerOkExtends(s: System, t: System, c: Caller)
    requires CallerOk(s, c) && Extends(s, t)
    ensures CallerOk(t, c)
  {
  }

  lemma FlightOkExtends(s: System, t: System, fl: Flight)
    requires FlightOk(s, fl) && Extends(s, t)
    ensures FlightOk(t, fl)
  {
  }

  predicate SameCell(s: System, t: System, key: string)
  {
    && key in s.store && key in t.store && t.store[key] == s.store[key]
    && key in s.origin && key in t.origin && t.origin[key] == s.origin[key]
  }

  lemma CellOkExtends(cd: Codec, s: System, t: System, key: string)
    requires key in s.store && CellOk(cd, s, key) && Extends(s, t) && SameCell(s, t, key)
    ensures CellOk(cd, t, key)
  {
  }

  /** Everything a step leaves alone stays well-formed in the extended system. */
  lemma {:induction false} Carry(cd: Codec, s: System, t: System)
    requires Inv(cd, s) && Extends(s, t)
    ensures forall c :: 0 <= c < |s.callers| ==> CallerOk(t, s.callers[c])
    ensures forall f :: 0 <= f < |s.flights| ==> FlightOk(t, s.flights[f])
    ensures forall key :: key in s.store && SameCell(s, t, key) ==> CellOk(cd, t, key)
  {
    forall c | 0 <= c < |s.callers|
      ensures CallerOk(t, s.callers[c])
    {
      CallerOkExtends(s, t, s.callers[c]);
    }
    forall f | 0 <= f < |s.flights|
      ensures FlightOk(t, s.flights[f])
    {
      FlightOkExtends(s, t, s.flights[f]);
    }
    forall key | key in s.store && SameCell(s, t, key)
      ensures CellOk(cd, t, key)
    {
      CellOkExtends(cd, s, t, key);
    }
  }

  lemma {:induction false} HitReturnsProduction(cd: Codec, s: System, c: nat, up: bool)
    requires Faithful(cd) && Inv(cd, s) && c < |s.callers| && s.callers[c].phase.Called?
    requires !(s.callers[c].opts.noCache && s.callers[c].opts.loader)
    requires GetSpec(cd, s.store, s.callers[c].key, s.clock, up).Hit?
    ensures var r := DoLookup(cd, s, c, up).callers[c].phase;
            r.Returned? && ReturnOk(s, s.callers[c].key, r)
  {
    var key := s.callers[c].key;
    assert CellOk(cd, s, key);
    var (f, ttl) := s.origin[key];
    assert FlightOk(s, s.flights[f]);
    var val := s.productions[s.flights[f].stage.load.p].val;
    if val.Some? {
      assert cd.enc(val.value) != "" && cd.dec(cd.enc(val.value)) == val;
    }
  }

  lemma {:induction false} PhaseKeepsInv(cd: Codec, s: System, c: nat, p: Phase)
    requires Inv(cd, s) && c < |s.callers| && CallerOk(s, s.callers[c].(phase := p))
    ensures Inv(cd, WithPhase(s, c, p))
  {
    var t := WithPhase(s, c, p);
    Carry(cd, s, t);
    CallerOkExtends(s, t, t.callers[c]);
  }

  lemma {:induction false} ProduceKeepsInv(cd: Codec, s: System, pr: Production)
    requires Inv(cd, s) && pr.at == s.clock
    ensures Inv(cd, s.(productions := s.productions + [pr]))
  {
    Carry(cd, s, s.(productions := s.productions + [pr]));
  }

  lemma {:induction false} StageKeepsInv(cd: Codec, s: System, f: nat, g: Stage)
    requires Inv(cd, s) && f < |s.flights| && StageLe(s.flights[f].stage, g)
    requires FlightOk(s, s.flights[f].(stage := g))
    ensures Inv(cd, WithStage(s, f, g))
  {
    var t := WithStage(s, f, g);
    Carry(cd, s, t);
    FlightOkExtends(s, t, t.flights[f]);
  }

  lemma {:induction false} TakeOffKeepsInv(cd: Codec, s: System, fl: Flight)
    requires Inv(cd, s) && fl.started == s.clock && fl.stage == Running
    ensures Inv(cd, s.(flights := s.flights + [fl], active := s.active[fl.key := |s.flights|]))
  {
    Carry(cd, s, s.(flights := s.flights + [fl], active := s.active[fl.key := |s.flights|]));
  }

  lemma {:induction false} WriteKeepsInv(cd: Codec, s: System, f: nat, p: nat, ttl: nat)
    requires Inv(cd, s) && f < |s.flights| && s.flights[f].stage == Kept(Good(p), s.clock) && p < |s.productions|
    requires StoreTTL(s.flights[f].opts, s.productions[p].val) == Some(ttl)
    ensures Inv(cd, s.(store := SetSpec(cd, s.store, s.flights[f].key, s.productions[p].val, ttl, s.clock, true),
                       origin := s.origin[s.flights[f].key := (f, ttl)]))
  {
    var key := s.flights[f].key;
    var t := s.(store := SetSpec(cd, s.store, key, s.productions[p].val, ttl, s.clock, true),
                origin := s.origin[key := (f, ttl)]);
    Carry(cd, s, t);
    assert CellOk(cd, t, key);
  }

  lemma {:induction false} LookupKeepsInv(cd: Codec, s: System, c: nat, up: bool)
    requires Faithful(cd) && Inv(cd, s)
    ensures Inv(cd, DoLookup(cd, s, c, up))
  {
    if c < |s.callers| && s.callers[c].phase.Called? && !(s.callers[c].opts.noCache && s.callers[c].opts.loader) {
      match GetSpec(cd, s.store, s.callers[c].key, s.clock, up)
      case Failed => PhaseKeepsInv(cd, s, c, Errored);
      case Miss => PhaseKeepsInv(cd, s, c, Missed);
      case Hit(val) =>
        HitReturnsProduction(cd, s, c, up);
        PhaseKeepsInv(cd, s, c, DoLookup(cd, s, c, up).callers[c].phase);
    }
  }

  lemma {:induction false} DirectKeepsInv(cd: Codec, s: System, c: nat, fails: bool)
    requires Inv(cd, s)
    ensures Inv(cd, DoBeginDirect(s, c))
    ensures Inv(cd, DoLoadDirectly(s, c, fails))
    ensures Inv(cd, DoReturnDirect(s, c))
  {
    if c < |s.callers| {
      var q := s.callers[c];
      assert CallerOk(s, q);
      if q.phase.Called? {
        PhaseKeepsInv(cd, s, c, Calling(s.clock));
      } else if q.phase.Calling? {
        if fails {
          PhaseKeepsInv(cd, s, c, Loading(q.phase.started, Bad));
        } else {
          var pr := Production(q.key, Truth(s, q.key), s.clock, true);
          ProduceKeepsInv(cd, s, pr);
          PhaseKeepsInv(cd, s.(productions := s.productions + [pr]), c, Loading(q.phase.started, Good(|s.productions|)));
        }
      } else if q.phase.Loading? {
        if q.phase.load.Bad? {
          PhaseKeepsInv(cd, s, c, Errored);
        } else {
          PhaseKeepsInv(cd, s, c, DoReturnDirect(s, c).callers[c].phase);
        }
      }
    }
  }

  lemma {:induction false} JoinKeepsInv(cd: Codec, s: System, c: nat)
    requires Inv(cd, s)
    ensures Inv(cd, DoJoin(s, c))
  {
    if c < |s.callers| && s.callers[c].phase.Missed? {
      var key := s.callers[c].key;
      if key in s.active {
        PhaseKeepsInv(cd, s, c, Joined(s.active[key]));
      } else {
        var fl := Flight(key, s.callers[c].opts, s.clock, Running);
        TakeOffKeepsInv(cd, s, fl);
        PhaseKeepsInv(cd, s.(flights := s.flights + [fl], active := s.active[key := |s.flights|]), c, Joined(|s.flights|));
      }
    }
  }

  lemma {:induction false} LoadKeepsInv(cd: Codec, s: System, f: nat, fails: bool)
    requires Inv(cd, s)
    ensures Inv(cd, DoLoadFor(s, f, fails))
  {
    if f < |s.flights| && s.flights[f].stage.Running? {
      var fl := s.flights[f];
      assert FlightOk(s, fl);
      if fl.opts.loader && fails {
        StageKeepsInv(cd, s, f, Ready(Bad));
      } else {
        var pr := Production(fl.key, if fl.opts.loader then Truth(s, fl.key) else None, s.clock, fl.opts.loader);
        ProduceKeepsInv(cd, s, pr);
        StageKeepsInv(cd, s.(productions := s.productions + [pr]), f, Ready(Good(|s.productions|)));
      }
    }
  }

  lemma {:induction false} KeepKeepsInv(cd: Codec, s: System, f: nat, up: bool)
    requires Inv(cd, s)
    ensures Inv(cd, DoKeep(cd, s, f, up))
  {
    if f < |s.flights| && s.flights[f].stage.Ready? {
      var fl := s.flights[f];
      assert FlightOk(s, fl);
      StageKeepsInv(cd, s, f, Kept(fl.stage.load, s.clock));
      if fl.stage.load.Good? && up {
        var ttl := StoreTTL(fl.opts, s.productions[fl.stage.load.p].val);
        if ttl.Some? {
          WriteKeepsInv(cd, WithStage(s, f, Kept(fl.stage.load, s.clock)), f, fl.stage.load.p, ttl.value);
        }
      }
    }
  }

  lemma {:induction false} LandKeepsInv(cd: Codec, s: System, f: nat)
    requires Inv(cd, s)
    ensures Inv(cd, DoLand(s, f))
  {
    if f < |s.flights| && s.flights[f].stage.Kept? {
      var fl := s.flights[f];
      assert FlightOk(s, fl);
      var t := WithStage(s, f, Landed(fl.stage.load, fl.stage.storedAt, s.clock));
      StageKeepsInv(cd, s, f, t.flights[f].stage);
      Carry(cd, t, DoLand(s, f));
    }
  }

  lemma {:induction false} WakeKeepsInv(cd: Codec, s: System, c: nat)
    requires Inv(cd, s)
    ensures Inv(cd, DoWake(s, c))
  {
    if DoWake(s, c) != s {
      assert CallerOk(s, s.callers[c]);
      assert FlightOk(s, s.flights[s.callers[c].phase.f]);
      PhaseKeepsInv(cd, s, c, DoWake(s, c).callers[c].phase);
    }
  }

  lemma {:induction false} EnvironmentKeepsInv(cd: Codec, s: System, a: Action)
    requires Inv(cd, s) && (a.Tick? || a.Change? || a.Evict?)
    ensures Inv(cd, Apply(cd, s, a))
  {
    Carry(cd, s, Apply(cd, s, a));
  }

  lemma {:induction false} InvokeKeepsInv(cd: Codec, s: System, key: string, opts: Options)
    requires Inv(cd, s)
    ensures Inv(cd, Apply(cd, s, Invoke(key, opts)))
  {
    Carry(cd, s, Apply(cd, s, Invoke(key, opts)));
  }

  lemma {:induction false} StepKeepsInv(cd: Codec, s: System, a: Action)
    requires Faithful(cd) && Inv(cd, s)
    ensures Inv(cd, Apply(cd, s, a))
  {
    match a
    case Tick(d) => EnvironmentKeepsInv(cd, s, a);
    case Change(source) => EnvironmentKeepsInv(cd, s, a);
    case Evict(key) => EnvironmentKeepsInv(cd, s, a);
    case Invoke(key, opts) => InvokeKeepsInv(cd, s, key, opts);
    case Lookup(c, up) => LookupKeepsInv(cd, s, c, up);
    case BeginDirect(c) => DirectKeepsInv(cd, s, c, false);
    case LoadDirectly(c, fails) => DirectKeepsInv(cd, s, c, fails);
    case ReturnDirect(c) => DirectKeepsInv(cd, s, c, false);
    case Join(c) => JoinKeepsInv(cd, s, c);
    case LoadFor(f, fails) => LoadKeepsInv(cd, s, f, fails);
    case Keep(f, up) => KeepKeepsInv(cd, s, f, up);
    case Land(f) => LandKeepsInv(cd, s, f);
    case Wake(c) => WakeKeepsInv(cd, s, c);
  }

  lemma {:induction false} ReachableInv(cd: Codec, actions: seq<Action>)
    requires Faithful(cd)
    ensures Inv(cd, Run(cd, actions))
  {
    if |actions| > 0 {
      ReachableInv(cd, actions[..|actions| - 1]);
      StepKeepsInv(cd, Run(cd, actions[..|actions| - 1]), actions[|actions| - 1]);
    }
  }

  // ------------------------------------------------------------------------
  // Returned values are true, and not too old
  // ------------------------------------------------------------------------

  /** `t` adds to the productions of `s` at most values the source holds now. */
  ghost predicate ProducesTruth(s: System, t: System)
  {
    && s.productions <= t.productions
    && forall p :: |s.productions| <= p < |t.productions| ==>
         var pr := t.productions[p];
         if pr.loaded then pr.val == Truth(s, pr.key) && pr.at == s.clock else pr.val == None
  }

  lemma PhaseKeepsRest(s: System, c: nat)
    ensures c < |s.callers| ==>
              forall p :: WithPhase(s, c, p).source == s.source && WithPhase(s, c, p).productions == s.productions
  {
  }

  lemma StageKeepsRest(s: System, f: nat)
    ensures f < |s.flights| ==>
              forall g :: WithStage(s, f, g).source == s.source && WithStage(s, f, g).productions == s.productions
  {
  }

  lemma {:induction false} OthersProduceNothing(cd: Codec, s: System, a: Action)
    requires !a.LoadDirectly? && !a.LoadFor?
    ensures Apply(cd, s, a).productions == s.productions
  {
    match a
    case Lookup(c, _) => PhaseKeepsRest(s, c);
    case BeginDirect(c) => PhaseKeepsRest(s, c);
    case ReturnDirect(c) => PhaseKeepsRest(s, c);
    case Join(c) => PhaseKeepsRest(s, c);
    case Wake(c) => PhaseKeepsRest(s, c);
    case Keep(f, _) => StageKeepsRest(s, f);
    case Land(f) => StageKeepsRest(s, f);
    case _ =>
  }

  lemma {:induction false} ProductionsGrow(cd: Codec, s: System, a: Action)
    ensures ProducesTruth(s, Apply(cd, s, a))
  {
    if !a.LoadDirectly? && !a.LoadFor? {
      OthersProduceNothing(cd, s, a);
    }
  }

  /** Production `p` shows what the source held at position `k` of the run. */
  ghost predicate ReadAt(cd: Codec, actions: seq<Action>, k: nat, pr: Production)
    requires k <= |actions|
  {
    var t := Run(cd, actions[..k]);
    pr.val == Truth(t, pr.key) && pr.at == t.clock
  }

  /** Every value a loader produced was the source's value at the moment it was read. */
  lemma {:induction false} ProductionsAreTrue(cd: Codec, actions: seq<Action>, p: nat)
    requires p < |Run(cd, actions).productions| && Run(cd, actions).productions[p].loaded
    ensures exists k :: 0 <= k <= |actions| && ReadAt(cd, actions, k, Run(cd, actions).productions[p])
  {
    var pr := Run(cd, actions).productions[p];
    var m := |actions| - 1;
    var pre := actions[..m];
    ProductionsGrow(cd, Run(cd, pre), actions[m]);
    if p < |Run(cd, pre).productions| {
      ProductionsAreTrue(cd, pre, p);
      var k :| 0 <= k <= m && ReadAt(cd, pre, k, pr);
      assert pre[..k] == actions[..k];
      assert ReadAt(cd, actions, k, pr);
    } else {
      assert ReadAt(cd, actions, m, pr);
    }
  }

  /** A flight without a loader produces nothing but empty results. */
  lemma {:induction false} UnloadedAreEmpty(cd: Codec, actions: seq<Action>, p: nat)
    requires p < |Run(cd, actions).productions| && !Run(cd, actions).productions[p].loaded
    ensures Run(cd, actions).productions[p].val == None
  {
    var m := |actions| - 1;
    ProductionsGrow(cd, Run(cd, actions[..m]), actions[m]);
    if p < |Run(cd, actions[..m]).productions| {
      UnloadedAreEmpty(cd, actions[..m], p);
    }
  }

  /** Options whose values have a bounded age: there is a loader, and what is cached expires. */
  predicate Bounding(o: Options)
  {
    o.loader && (o.noCache || o.ttl > 0)
  }

  /** The calls on `key` use only options that `allowed` admits. */
  ghost predicate UsesOnly(actions: seq<Action>, key: string, allowed: Options -> bool)
  {
    forall i :: 0 <= i < |actions| ==> actions[i].Invoke? && actions[i].key == key ==> allowed(actions[i].opts)
  }

  /** Callers and flights on `key` use allowed options, and no flight is led by a bypassing caller. */
  ghost predicate AllowedOn(s: System, key: string, allowed: Options -> bool)
  {
    && (forall c :: 0 <= c < |s.callers| ==> s.callers[c].key == key ==> allowed(s.callers[c].opts))
    && (forall f :: 0 <= f < |s.flights| ==> s.flights[f].key == key ==>
          allowed(s.flights[f].opts) && !(s.flights[f].opts.noCache && s.flights[f].opts.loader))
  }

  /** The callers `b` are the callers `a`, perhaps in other phases. */
  ghost predicate SameCallers(a: seq<Caller>, b: seq<Caller>)
  {
    |a| == |b| && forall c :: 0 <= c < |a| ==> b[c].opts == a[c].opts && b[c].key == a[c].key
  }

  /** The flights `b` are the flights `a`, perhaps in other stages. */
  ghost predicate SameFlights(a: seq<Flight>, b: seq<Flight>)
  {
    |a| == |b| && forall f :: 0 <= f < |a| ==> b[f].opts == a[f].opts && b[f].key == a[f].key
  }

  lemma PhaseKeepsCallers(s: System, c: nat)
    ensures SameCallers(s.callers, s.callers)
    ensures c < |s.callers| ==> forall p :: SameCallers(s.callers, WithPhase(s, c, p).callers)
  {
  }

  lemma StageKeepsFlights(s: System, f: nat)
    ensures SameFlights(s.flights, s.flights)
    ensures f < |s.flights| ==> forall g :: SameFlights(s.flights, WithStage(s, f, g).flights)
  {
  }

  lemma {:induction false} StepKeepsCallers(cd: Codec, s: System, a: Action)
    requires !a.Invoke?
    ensures SameCallers(s.callers, Apply(cd, s, a).callers)
  {
    match a
    case Lookup(c, _) => PhaseKeepsCallers(s, c);
    case BeginDirect(c) => PhaseKeepsCallers(s, c);
    case LoadDirectly(c, _) => PhaseKeepsCallers(s, c);
    case ReturnDirect(c) => PhaseKeepsCallers(s, c);
    case Join(c) => PhaseKeepsCallers(s, c);
    case Wake(c) => PhaseKeepsCallers(s, c);
    case _ =>
  }

  lemma {:induction false} StepKeepsFlights(cd: Codec, s: System, a: Action)
    requires !a.Join?
    ensures SameFlights(s.flights, Apply(cd, s, a).flights)
  {
    match a
    case LoadFor(f, _) => StageKeepsFlights(s, f);
    case Keep(f, _) => StageKeepsFlights(s, f);
    case Land(f) => StageKeepsFlights(s, f);
    case _ =>
  }

  lemma JoinKeepsAllowed(s: System, c: nat, key: string, allowed: Options -> bool)
    requires AllowedOn(s, key, allowed) && (c < |s.callers| ==> CallerOk(s, s.callers[c]))
    ensures AllowedOn(DoJoin(s, c), key, allowed)
  {
  }

  lemma {:induction false} StepKeepsAllowed(cd: Codec, s: System, a: Action, key: string, allowed: Options -> bool)
    requires Inv(cd, s) && AllowedOn(s, key, allowed) && (a.Invoke? && a.key == key ==> allowed(a.opts))
    ensures AllowedOn(Apply(cd, s, a), key, allowed)
  {
    if a.Join? {
      JoinKeepsAllowed(s, a.c, key, allowed);
    } else {
      StepKeepsFlights(cd, s, a);
      if !a.Invoke? {
        StepKeepsCallers(cd, s, a);
      }
    }
  }

  lemma {:induction false} FlightsAreAllowed(cd: Codec, actions: seq<Action>, key: string, allowed: Options -> bool)
    requires Faithful(cd) && UsesOnly(actions, key, allowed)
    ensures AllowedOn(Run(cd, actions), key, allowed)
  {
    if |actions| > 0 {
      var pre := actions[..|actions| - 1];
      FlightsAreAllowed(cd, pre, key, allowed);
      ReachableInv(cd, pre);
      StepKeepsAllowed(cd, Run(cd, pre), actions[|actions| - 1], key, allowed);
    }
  }

  predicate KeepsNoEmpty(o: Options)
  {
    !o.cacheEmpty
  }

  /** If no call on a key caches empty results, no caller is ever told "absent" by the cache. */
  lemma {:induction false} NoCachedAbsence(cd: Codec, actions: seq<Action>, c: nat)
    requires Faithful(cd) && Returns(cd, actions, c)
    requires UsesOnly(actions, Run(cd, actions).callers[c].key, KeepsNoEmpty)
    ensures var r := Run(cd, actions).callers[c].phase; r.via.Cached? ==> r.val.Some?
  {
    var s := Run(cd, actions);
    ReachableInv(cd, actions);
    assert CallerOk(s, s.callers[c]);
    FlightsAreAllowed(cd, actions, s.callers[c].key, KeepsNoEmpty);
  }

  // ------------------------------------------------------------------------
  // One flight per key
  // ------------------------------------------------------------------------

  /** Every flight in the air is the active one of its key. */
  ghost predicate Exclusive(s: System)
  {
    forall f :: 0 <= f < |s.flights| && !s.flights[f].stage.Landed? ==>
      s.flights[f].key in s.active && s.active[s.flights[f].key] == f
  }

  lemma PhaseKeepsAir(s: System, c: nat)
    ensures c < |s.callers| ==>
              forall p :: WithPhase(s, c, p).flights == s.flights && WithPhase(s, c, p).active == s.active
  {
  }

  /** Only a join, a load, a store and a landing touch the flights. */
  lemma {:induction false} OthersKeepAir(cd: Codec, s: System, a: Action)
    requires !a.Join? && !a.LoadFor? && !a.Keep? && !a.Land?
    ensures Apply(cd, s, a).flights == s.flights && Apply(cd, s, a).active == s.active
  {
    match a
    case Lookup(c, _) => PhaseKeepsAir(s, c);
    case BeginDirect(c) => PhaseKeepsAir(s, c);
    case LoadDirectly(c, _) => PhaseKeepsAir(s, c);
    case ReturnDirect(c) => PhaseKeepsAir(s, c);
    case Wake(c) => PhaseKeepsAir(s, c);
    case _ =>
  }

  lemma JoinKeepsExclusive(s: System, c: nat)
    requires Exclusive(s)
    ensures Exclusive(DoJoin(s, c))
  {
  }

  lemma LoadKeepsExclusive(s: System, f: nat, fails: bool)
    requires Exclusive(s)
    ensures Exclusive(DoLoadFor(s, f, fails))
  {
  }

  lemma KeepKeepsExclusive(cd: Codec, s: System, f: nat, up: bool)
    requires Exclusive(s)
    ensures Exclusive(DoKeep(cd, s, f, up))
  {
  }

  lemma LandKeepsExclusive(s: System, f: nat)
    requires Exclusive(s)
    ensures Exclusive(DoLand(s, f))
  {
  }

  lemma {:induction false} ReachableExclusive(cd: Codec, actions: seq<Action>)
    ensures Exclusive(Run(cd, actions))
  {
    if |actions| > 0 {
      var pre, a := actions[..|actions| - 1], actions[|actions| - 1];
      ReachableExclusive(cd, pre);
      var s := Run(cd, pre);
      match a
      case Join(c) => JoinKeepsExclusive(s, c);
      case LoadFor(f, fails) => LoadKeepsExclusive(s, f, fails);
      case Keep(f, up) => KeepKeepsExclusive(cd, s, f, up);
      case Land(f) => LandKeepsExclusive(s, f);
      case _ => OthersKeepAir(cd, s, a);
    }
  }

  /** At no moment of any run are two flights in the air for the same key. */
  lemma {:induction false} OneFlightPerKey(cd: Codec, actions: seq<Action>, f: nat, g: nat)
    requires var s := Run(cd, actions);
             && f < |s.flights| && g < |s.flights| && s.flights[f].key == s.flights[g].key
             && !s.flights[f].stage.Landed? && !s.flights[g].stage.Landed?
    ensures f == g
  {
    ReachableExclusive(cd, actions);
  }

  /** All callers that were handed the result of one flight were handed the same. */
  lemma {:induction false} SharersAgree(cd: Codec, actions: seq<Action>, b: nat, c: nat, f: nat)
    requires Faithful(cd) && Returns(cd, actions, b) && Returns(cd, actions, c)
    requires var s := Run(cd, actions); s.callers[b].phase.via == Shared(f) && s.callers[c].phase.via == Shared(f)
    ensures var s := Run(cd, actions); s.callers[b].phase.val == s.callers[c].phase.val && s.callers[b].key == s.callers[c].key
  {
    var s := Run(cd, actions);
    ReachableInv(cd, actions);
    assert CallerOk(s, s.callers[b]) && CallerOk(s, s.callers[c]);
  }

  /** The age `r.at - readAt` of a returned value is within its bound: the TTL it was stored under
      (5 s for an empty result) plus the part of its flight before the store; the duration of the
      flight that was shared plus the time the caller took to wake; or the duration of the caller's
      own load. */
  ghost predicate FreshEnough(s: System, r: Phase, readAt: nat)
    requires r.Returned?
  {
    && readAt <= r.at
    && match r.via
       case Cached(f, ttl) =>
         && f < |s.flights| && (s.flights[f].stage.Kept? || s.flights[f].stage.Landed?)
         && ttl == (if r.val.None? then EMPTY_TTL else s.flights[f].opts.ttl)
         && r.at - readAt < ttl + (s.flights[f].stage.storedAt - s.flights[f].started)
       case Shared(f) =>
         && f < |s.flights| && s.flights[f].stage.Landed?
         && s.flights[f].stage.ended <= r.at
         && r.at - readAt <= (s.flights[f].stage.ended - s.flights[f].started) + (r.at - s.flights[f].stage.ended)
       case Direct(started) => r.at - readAt <= r.at - started
  }

  /** Position `k` of the run is where caller `c`'s returned value was read from the source. */
  ghost predicate ReadWithinBound(cd: Codec, actions: seq<Action>, c: nat, k: nat)
    requires k <= |actions| && c < |Run(cd, actions).callers| && Run(cd, actions).callers[c].phase.Returned?
  {
    var s, t := Run(cd, actions), Run(cd, actions[..k]);
    var q := s.callers[c];
    Truth(t, q.key) == q.phase.val && FreshEnough(s, q.phase, t.clock)
  }

  lemma {:induction false} ReturnIsFresh(s: System, key: string, r: Phase)
    requires r.Returned? && ReturnOk(s, key, r) && (r.via.Cached? ==> r.via.ttl > 0)
    requires forall f :: 0 <= f < |s.flights| ==> FlightOk(s, s.flights[f])
    ensures FreshEnough(s, r, s.productions[r.p].at)
  {
    if r.via.Cached? || r.via.Shared? {
      assert FlightOk(s, s.flights[r.via.f]);
    }
  }

  /** The returned value goes back to a loader: the caller's own, or that of the flight's leader. */
  ghost predicate Backed(s: System, r: Phase)
    requires r.Returned?
  {
    match r.via
    case Cached(f, _) => f < |s.flights| && s.flights[f].opts.loader
    case Shared(f) => f < |s.flights| && s.flights[f].opts.loader
    case Direct(_) => true
  }

  /** It was served from a cell without an expiry, which is what a zero TTL means to Redis. */
  predicate Everlasting(r: Phase)
  {
    r.Returned? && r.via.Cached? && r.via.ttl == 0
  }

  /** Caller `c` got a value without error. */
  ghost predicate Returns(cd: Codec, actions: seq<Action>, c: nat)
  {
    c < |Run(cd, actions).callers| && Run(cd, actions).callers[c].phase.Returned?
  }

  /** What caller `c` got is what the source held at an earlier moment of the run, and not too old. */
  ghost predicate WithinBound(cd: Codec, actions: seq<Action>, c: nat)
    requires Returns(cd, actions, c)
  {
    exists k :: 0 <= k <= |actions| && ReadWithinBound(cd, actions, c, k)
  }

  /** What caller `c` got is what the source held at position `k` of the run. */
  ghost predicate HeldAt(cd: Codec, actions: seq<Action>, c: nat, k: nat)
    requires k <= |actions| && Returns(cd, actions, c)
  {
    var q, t := Run(cd, actions).callers[c], Run(cd, actions[..k]);
    Truth(t, q.key) == q.phase.val && t.clock <= q.phase.at
  }

  /** In every interleaving, a value returned without error (in particular "absent") that goes back to
      a loader is one the source of truth really held for that key at an earlier moment of the run,
      read by a loader that succeeded; and unless it came from a cell without an expiry, its age is
      within the bound. A failed load is never seen as a value. A value that goes back to a nil loader
      can only be "absent". */
  lemma {:induction false} BoundedStaleness(cd: Codec, actions: seq<Action>, c: nat)
    requires Faithful(cd) && Returns(cd, actions, c)
    ensures var s := Run(cd, actions);
            var r := s.callers[c].phase;
            if !Backed(s, r) then r.val == None
            else if Everlasting(r) then exists k :: 0 <= k <= |actions| && HeldAt(cd, actions, c, k)
            else WithinBound(cd, actions, c)
  {
    var s := Run(cd, actions);
    var q := s.callers[c];
    ReachableInv(cd, actions);
    assert CallerOk(s, q);
    if Backed(s, q.phase) {
      ProductionsAreTrue(cd, actions, q.phase.p);
      var k :| 0 <= k <= |actions| && ReadAt(cd, actions, k, s.productions[q.phase.p]);
      assert HeldAt(cd, actions, c, k);
      if !Everlasting(q.phase) {
        ReturnIsFresh(s, q.key, q.phase);
        assert ReadWithinBound(cd, actions, c, k);
      }
    } else {
      UnloadedAreEmpty(cd, actions, q.phase.p);
    }
  }

  /** So conditions are needed only of the calls on the same key. */
  lemma {:induction false} BoundedForKey(cd: Codec, actions: seq<Action>, c: nat)
    requires Faithful(cd) && Returns(cd, actions, c)
    requires UsesOnly(actions, Run(cd, actions).callers[c].key, Bounding)
    ensures WithinBound(cd, actions, c)
  {
    var s := Run(cd, actions);
    ReachableInv(cd, actions);
    assert CallerOk(s, s.callers[c]);
    FlightsAreAllowed(cd, actions, s.callers[c].key, Bounding);
    BoundedStaleness(cd, actions, c);
  }

  // ------------------------------------------------------------------------
  // Loaders and expiries are needed
  // ------------------------------------------------------------------------

  lemma {:induction false} RunThen(cd: Codec, actions: seq<Action>, a: Action)
    ensures Run(cd, actions + [a]) == Apply(cd, Run(cd, actions), a)
  {
    assert (actions + [a])[..|actions|] == actions;
  }

  lemma {:induction false} RunThenTwo(cd: Codec, p: seq<Action>, a: Action, b: Action)
    ensures Run(cd, p + [a] + [b]) == Apply(cd, Apply(cd, Run(cd, p), a), b)
  {
    RunThen(cd, p, a);
    RunThen(cd, p + [a], b);
  }

  lemma {:induction false} RunThenThree(cd: Codec, p: seq<Action>, a: Action, b: Action, c: Action)
    ensures Run(cd, p + [a] + [b] + [c]) == Apply(cd, Apply(cd, Apply(cd, Run(cd, p), a), b), c)
  {
    RunThenTwo(cd, p, a, b);
    RunThen(cd, p + [a] + [b], c);
  }

  lemma {:induction false} SourceStays(cd: Codec, s: System, a: Action)
    requires !a.Change?
    ensures Apply(cd, s, a).source == s.source
  {
    match a
    case Lookup(c, _) => PhaseKeepsRest(s, c);
    case BeginDirect(c) => PhaseKeepsRest(s, c);
    case LoadDirectly(c, _) => PhaseKeepsRest(s, c);
    case ReturnDirect(c) => PhaseKeepsRest(s, c);
    case Join(c) => PhaseKeepsRest(s, c);
    case Wake(c) => PhaseKeepsRest(s, c);
    case LoadFor(f, _) => StageKeepsRest(s, f);
    case Keep(f, _) => StageKeepsRest(s, f);
    case Land(f) => StageKeepsRest(s, f);
    case _ =>
  }

  /** Between changes the source is constant. */
  lemma {:induction false} SourceConstant(cd: Codec, actions: seq<Action>, m: nat, k: nat)
    requires m <= k <= |actions| && forall i :: m <= i < |actions| ==> !actions[i].Change?
    ensures Run(cd, actions[..k]).source == Run(cd, actions[..m]).source
    decreases k
  {
    if m < k {
      SourceConstant(cd, actions, m, k - 1);
      assert actions[..k] == actions[..k - 1] + [actions[k - 1]];
      RunThen(cd, actions[..k - 1], actions[k - 1]);
      SourceStays(cd, Run(cd, actions[..k - 1]), actions[k - 1]);
    }
  }

  /** Redis may evict a key at any time; the next lookup then misses, and no other key is affected. */
  lemma EvictionMisses(cd: Codec, s: System, key: string, other: string)
    ensures var t := Apply(cd, s, Evict(key));
            && GetSpec(cd, t.store, key, t.clock, true) == Miss
            && (other != key ==> GetSpec(cd, t.store, other, t.clock, true) == GetSpec(cd, s.store, other, s.clock, true))
  {
  }

  /** The source gains `v` at time zero; at time `d` a first caller misses the cache. */
  function FirstMiss(key: string, v: Value, d: nat, o: Options): seq<Action>
  {
    [Change(map[key := v])] + [Tick(d)] + [Invoke(key, o)] + [Lookup(0, true)]
  }

  /** Its flight then stores what there is to store. */
  function FirstCall(key: string, v: Value, d: nat, o: Options): seq<Action>
  {
    FirstMiss(key, v, d, o) + [Join(0)] + [LoadFor(0, false)] + [Keep(0, true)]
  }

  lemma Misses(cd: Codec, s: System, key: string, d: nat, o: Options)
    requires |key| <= MAX_KEY_LEN && !(o.noCache && o.loader) && s.callers == [] && s.store == map[]
    ensures Apply(cd, Apply(cd, Apply(cd, s, Tick(d)), Invoke(key, o)), Lookup(0, true)) ==
            s.(clock := s.clock + d, callers := [Caller(key, o, Missed)])
  {
  }

  lemma {:induction false} AfterFirstMiss(cd: Codec, key: string, v: Value, d: nat, o: Options)
    requires |key| <= MAX_KEY_LEN && !(o.noCache && o.loader)
    ensures Run(cd, FirstMiss(key, v, d, o)) ==
            START.(source := map[key := v], clock := d, callers := [Caller(key, o, Missed)])
  {
    var p := [Change(map[key := v])];
    assert [] + p == p;
    RunThen(cd, [], Change(map[key := v]));
    RunThenThree(cd, p, Tick(d), Invoke(key, o), Lookup(0, true));
    Misses(cd, START.(source := map[key := v]), key, d, o);
  }

  /** The state after the first call's flight has kept `val`, read at time `d`. */
  ghost predicate Primed(cd: Codec, s: System, key: string, d: nat, o: Options, val: Option<Value>)
  {
    && s.clock == d && s.callers == [Caller(key, o, Joined(0))]
    && s.productions == [Production(key, val, d, o.loader)]
    && s.flights == [Flight(key, o, d, Kept(Good(0), d))]
    && match StoreTTL(o, val)
       case None => true
       case Some(ttl) =>
         && s.origin == map[key := (0, ttl)]
         && s.store == map[key := Stored(Encoded(cd, val), if ttl == 0 then None else Some(d + ttl))]
  }

  lemma {:induction false} FirstFlight(cd: Codec, s: System, key: string, v: Value, o: Options)
    requires s.callers == [Caller(key, o, Missed)] && s.flights == [] && s.productions == [] && s.active == map[]
    requires s.store == map[] && s.origin == map[] && s.source == map[key := v]
    ensures var t := DoKeep(cd, DoLoadFor(DoJoin(s, 0), 0, false), 0, true);
            Primed(cd, t, key, s.clock, o, if o.loader then Some(v) else None) && t.source == s.source
  {
    var t1 := DoJoin(s, 0);
    assert t1.flights == [Flight(key, o, s.clock, Running)];
    var t2 := DoLoadFor(t1, 0, false);
    assert t2.flights == [Flight(key, o, s.clock, Ready(Good(0)))];
    assert t2.productions == [Production(key, if o.loader then Some(v) else None, s.clock, o.loader)];
  }

  /** The system after the first call's flight has kept its load. */
  function Prime(cd: Codec, key: string, v: Value, d: nat, o: Options): System
  {
    var s := START.(source := map[key := v], clock := d, callers := [Caller(key, o, Missed)]);
    DoKeep(cd, DoLoadFor(DoJoin(s, 0), 0, false), 0, true)
  }

  lemma {:induction false} PrimeIsPrimed(cd: Codec, key: string, v: Value, d: nat, o: Options)
    ensures Primed(cd, Prime(cd, key, v, d, o), key, d, o, if o.loader then Some(v) else None)
  {
    FirstFlight(cd, START.(source := map[key := v], clock := d, callers := [Caller(key, o, Missed)]), key, v, o);
  }

  lemma {:induction false} AfterFirstCall(cd: Codec, key: string, v: Value, d: nat, o: Options)
    requires |key| <= MAX_KEY_LEN && !(o.noCache && o.loader)
    ensures Run(cd, FirstCall(key, v, d, o)) == Prime(cd, key, v, d, o)
  {
    AfterFirstMiss(cd, key, v, d, o);
    RunThenThree(cd, FirstMiss(key, v, d, o), Join(0), LoadFor(0, false), Keep(0, true));
  }

  lemma {:induction false} AlwaysPresent(cd: Codec, actions: seq<Action>, k: nat, key: string, v: Value)
    requires 1 <= k <= |actions| && SetOnce(actions, key, v)
    ensures Truth(Run(cd, actions[..k]), key) == Some(v)
  {
    SourceConstant(cd, actions, 1, k);
    assert actions[..1] == [] + [actions[0]];
    RunThen(cd, [], actions[0]);
  }

  /** No moment of a run that starts by giving `key` a value explains an "absent" returned long after. */
  lemma {:induction false} NeverAbsent(cd: Codec, actions: seq<Action>, c: nat, key: string, v: Value)
    requires SetOnce(actions, key, v) && Returns(cd, actions, c)
    requires var q := Run(cd, actions).callers[c];
             q.key == key && q.phase.val == None && !FreshEnough(Run(cd, actions), q.phase, 0)
    ensures !WithinBound(cd, actions, c)
  {
    forall k | 0 <= k <= |actions|
      ensures !ReadWithinBound(cd, actions, c, k)
    {
      if k > 0 {
        AlwaysPresent(cd, actions, k, key, v);
      }
    }
  }

  /** The whole call of a caller without a loader, long after the source gained `v`. */
  function NilReturn(key: string, v: Value, nil: Options): seq<Action>
  {
    FirstCall(key, v, EMPTY_TTL, nil) + [Land(0)] + [Wake(0)]
  }

  lemma {:induction false} PrimedReturns(cd: Codec, s: System, key: string, d: nat, o: Options, val: Option<Value>)
    requires Primed(cd, s, key, d, o, val)
    ensures var t := DoWake(DoLand(s, 0), 0);
            && t.callers == [Caller(key, o, Returned(val, 0, d, Shared(0)))]
            && t.flights == [Flight(key, o, d, Landed(Good(0), d, d))]
  {
    assert DoLand(s, 0).flights == [Flight(key, o, d, Landed(Good(0), d, d))];
  }

  /** The first action gives `key` the value `v`, and no later one changes the source. */
  ghost predicate SetOnce(actions: seq<Action>, key: string, v: Value)
  {
    && |actions| > 0 && actions[0] == Change(map[key := v])
    && forall i :: 1 <= i < |actions| ==> !actions[i].Change?
  }

  lemma {:induction false} FirstCallSetsOnce(key: string, v: Value, d: nat, o: Options)
    ensures SetOnce(FirstCall(key, v, d, o), key, v)
  {
  }

  lemma {:induction false} AfterNilReturn(cd: Codec, key: string, v: Value, nil: Options)
    requires |key| <= MAX_KEY_LEN && !nil.loader
    ensures Run(cd, NilReturn(key, v, nil)) == DoWake(DoLand(Prime(cd, key, v, EMPTY_TTL, nil), 0), 0)
  {
    var pre := FirstCall(key, v, EMPTY_TTL, nil);
    AfterFirstCall(cd, key, v, EMPTY_TTL, nil);
    RunThenTwo(cd, pre, Land(0), Wake(0));
  }

  lemma {:induction false} NilReturnSetsOnce(key: string, v: Value, nil: Options)
    ensures SetOnce(NilReturn(key, v, nil), key, v)
  {
    FirstCallSetsOnce(key, v, EMPTY_TTL, nil);
  }

  /** Without a loader the promise fails: the caller itself is told "absent" although the source has
      held the value for longer than any bound allows, whatever its other options. */
  lemma {:induction false} NilCallerMisled(cd: Codec, key: string, v: Value, nil: Options)
    requires |key| <= MAX_KEY_LEN && !nil.loader
    ensures var actions := NilReturn(key, v, nil);
            Returns(cd, actions, 0) && Run(cd, actions).callers[0].key == key && !WithinBound(cd, actions, 0)
  {
    AfterNilReturn(cd, key, v, nil);
    PrimeIsPrimed(cd, key, v, EMPTY_TTL, nil);
    PrimedReturns(cd, Prime(cd, key, v, EMPTY_TTL, nil), key, EMPTY_TTL, nil, None);
    NilReturnSetsOnce(key, v, nil);
    NeverAbsent(cd, NilReturn(key, v, nil), 0, key, v);
  }

  lemma {:induction false} PrimedServes(cd: Codec, s: System, key: string, d: nat, o: Options, val: Option<Value>, o': Options, ttl: nat)
    requires Faithful(cd) && Primed(cd, s.(clock := d, source := map[]), key, d, o, val) && |key| <= MAX_KEY_LEN
    requires !(o'.noCache && o'.loader) && StoreTTL(o, val) == Some(ttl) && d <= s.clock && (ttl > 0 ==> s.clock < d + ttl)
    ensures var t := DoLookup(cd, Apply(cd, s, Invoke(key, o')), 1, true);
            && |t.callers| == 2 && t.callers[1] == Caller(key, o', Returned(val, 0, s.clock, Cached(0, ttl)))
            && t.flights == s.flights
  {
    if val.Some? {
      assert cd.enc(val.value) != "" && cd.dec(cd.enc(val.value)) == val;
    }
  }

  /** And if empty results are cached, so is the next caller, which does have a loader. */
  lemma {:induction false} NilLoaderHides(cd: Codec, key: string, v: Value, nil: Options, o: Options)
    requires Faithful(cd) && |key| <= MAX_KEY_LEN && !nil.loader && nil.cacheEmpty && o.loader && !o.noCache
    ensures var actions := FirstCall(key, v, EMPTY_TTL, nil) + [Invoke(key, o)] + [Lookup(1, true)];
            && Returns(cd, actions, 1) && Run(cd, actions).callers[1].opts == o
            && Run(cd, actions).callers[1].phase.val == None && !WithinBound(cd, actions, 1)
  {
    var pre := FirstCall(key, v, EMPTY_TTL, nil);
    AfterFirstCall(cd, key, v, EMPTY_TTL, nil);
    PrimeIsPrimed(cd, key, v, EMPTY_TTL, nil);
    PrimedServes(cd, Prime(cd, key, v, EMPTY_TTL, nil), key, EMPTY_TTL, nil, None, o, EMPTY_TTL);
    RunThenTwo(cd, pre, Invoke(key, o), Lookup(1, true));
    FirstCallSetsOnce(key, v, EMPTY_TTL, nil);
    NeverAbsent(cd, pre + [Invoke(key, o)] + [Lookup(1, true)], 1, key, v);
  }

  /** The source drops the value right after it was cached; a second call follows `age` later. */
  function Dropped(key: string, v: Value, o: Options): seq<Action>
  {
    FirstCall(key, v, 0, o) + [Change(map[])]
  }

  function ServedLate(key: string, v: Value, o: Options, age: nat): seq<Action>
  {
    Dropped(key, v, o) + [Tick(age)] + [Invoke(key, o)] + [Lookup(1, true)]
  }

  /** With a zero TTL the promise fails too: loaders or not, a caller is served a value of any age after
      the source dropped it. */
  lemma {:induction false} ZeroTTLServesForever(cd: Codec, key: string, v: Value, o: Options, age: nat)
    requires Faithful(cd) && |key| <= MAX_KEY_LEN && o.loader && !o.noCache && o.ttl == 0
    ensures var pre, actions := Dropped(key, v, o), ServedLate(key, v, o, age);
            && Run(cd, pre).clock == 0 && Run(cd, pre).source == map[] && Run(cd, actions).source == map[]
            && Returns(cd, actions, 1) && Run(cd, actions).callers[1].key == key
            && Run(cd, actions).callers[1].phase.val == Some(v) && Run(cd, actions).callers[1].phase.at == age
            && !WithinBound(cd, actions, 1)
  {
    var first, pre := FirstCall(key, v, 0, o), Dropped(key, v, o);
    AfterFirstCall(cd, key, v, 0, o);
    RunThen(cd, first, Change(map[]));
    RunThenThree(cd, pre, Tick(age), Invoke(key, o), Lookup(1, true));
    PrimeIsPrimed(cd, key, v, 0, o);
    var s := Prime(cd, key, v, 0, o).(source := map[], clock := age);
    PrimedServes(cd, s, key, 0, o, Some(v), o, 0);
    SourceStays(cd, Apply(cd, s, Invoke(key, o)), Lookup(1, true));
  }

  /** Every value returned on `key`, in every run that uses only allowed options there, is in bounds. */
  ghost predicate AlwaysBounded(cd: Codec, key: string, allowed: Options -> bool)
  {
    forall actions, c: nat ::
      UsesOnly(actions, key, allowed) && Returns(cd, actions, c) && Run(cd, actions).callers[c].key == key ==>
        WithinBound(cd, actions, c)
  }

  lemma {:induction false} NilUses(key: string, v: Value, o: Options, allowed: Options -> bool)
    requires allowed(o)
    ensures UsesOnly(NilReturn(key, v, o), key, allowed)
  {
  }

  lemma {:induction false} LateUses(key: string, v: Value, o: Options, age: nat, allowed: Options -> bool)
    requires allowed(o)
    ensures UsesOnly(ServedLate(key, v, o, age), key, allowed)
  {
  }

  lemma {:induction false} BoundingSuffices(cd: Codec, key: string, allowed: Options -> bool)
    requires Faithful(cd) && forall o :: allowed(o) ==> Bounding(o)
    ensures AlwaysBounded(cd, key, allowed)
  {
    forall actions, c: nat |
      UsesOnly(actions, key, allowed) && Returns(cd, actions, c) && Run(cd, actions).callers[c].key == key
      ensures WithinBound(cd, actions, c)
    {
      BoundedForKey(cd, actions, c);
    }
  }

  /** The exact condition: for any key and any set of options, all runs whose calls on the key use
      these options return only values within the bound if and only if each of them has a loader and
      either bypasses the cache or has a positive TTL. */
  lemma {:induction false} BoundedIff(cd: Codec, key: string, v: Value, allowed: Options -> bool)
    requires Faithful(cd) && |key| <= MAX_KEY_LEN
    ensures AlwaysBounded(cd, key, allowed) <==> forall o :: allowed(o) ==> Bounding(o)
  {
    if forall o :: allowed(o) ==> Bounding(o) {
      BoundingSuffices(cd, key, allowed);
    } else {
      var o :| allowed(o) && !Bounding(o);
      if o.loader {
        ZeroTTLServesForever(cd, key, v, o, 1);
        LateUses(key, v, o, 1, allowed);
      } else {
        NilCallerMisled(cd, key, v, o);
        NilUses(key, v, o, allowed);
      }
    }
  }
}
