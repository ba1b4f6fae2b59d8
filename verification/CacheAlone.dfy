/** One call of `GetOrLoad` stepped through the interleaved model with nobody in between: it does what the
    single-caller view says. */
module CacheAlone {
  import opened Common
  import opened Cache
  import opened CacheAside

  /** A schedule of actions, first to last. */
  datatype Script = End | Then(a: Action, rest: Script)

  function Play(cd: Codec, s: System, q: Script): System
    decreases q
  {
    match q
    case End => s
    case Then(a, rest) => Play(cd, Apply(cd, s, a), rest)
  }

  function Listed(q: Script): seq<Action>
  {
    match q
    case End => []
    case Then(a, rest) => [a] + Listed(rest)
  }

  /** Playing a script after a run is a longer run. */
  lemma {:induction false} PlayIsRun(cd: Codec, p: seq<Action>, q: Script)
    ensures Play(cd, Run(cd, p), q) == Run(cd, p + Listed(q))
    decreases q
  {
    match q
    case End => assert p + Listed(q) == p;
    case Then(a, rest) =>
      RunThen(cd, p, a);
      PlayIsRun(cd, p + [a], rest);
      assert p + Listed(q) == (p + [a]) + Listed(rest);
  }

  lemma {:induction false} PlayThen(cd: Codec, s: System, a: Action, rest: Script)
    ensures Play(cd, s, Then(a, rest)) == Play(cd, Apply(cd, s, a), rest)
  {
  }

  /** The steps of a flight that takes time `d` to load; they change nothing for a call that ended. */
  function Aboard(c: nat, f: nat, fails: bool, d: nat, setUp: bool): Script
  {
    Then(Join(c), Then(LoadFor(f, fails), Then(Tick(d), Then(Keep(f, setUp), Then(Land(f), Then(Wake(c), End))))))
  }

  /** The steps of an uncached load, which change nothing for other calls, and then those of `next`. */
  function Directly(c: nat, fails: bool, next: Script): Script
  {
    Then(BeginDirect(c), Then(LoadDirectly(c, fails), Then(ReturnDirect(c), next)))
  }

  /** All steps of one call, the flight being the next one if it comes to that. */
  function Alone(key: string, o: Options, c: nat, f: nat, fails: bool, d: nat, getUp: bool, setUp: bool): Script
  {
    Then(Invoke(key, o), Then(Lookup(c, getUp), Directly(c, fails, Aboard(c, f, fails, d, setUp))))
  }

  /** The store and the result when caller `c` has ended. */
  function Ending(s: System, c: nat): Option<(Store, Result)>
  {
    if c >= |s.callers| then None
    else
      match s.callers[c].phase
      case Returned(val, _, _, _) => Some((s.store, Value(val)))
      case Errored => Some((s.store, Error))
      case _ => None
  }

  /** An action that concerns only caller `c` and flights not yet started, or only passes time. */
  predicate Idle(a: Action, c: nat, f: nat)
  {
    match a
    case Tick(_) => true
    case Lookup(x, _) => x == c
    case BeginDirect(x) => x == c
    case LoadDirectly(x, _) => x == c
    case ReturnDirect(x) => x == c
    case Join(x) => x == c
    case Wake(x) => x == c
    case LoadFor(x, _) => x >= f
    case Keep(x, _) => x >= f
    case Land(x) => x >= f
    case _ => false
  }

  predicate AllIdle(q: Script, c: nat, f: nat)
  {
    q.Then? ==> Idle(q.a, c, f) && AllIdle(q.rest, c, f)
  }

  lemma {:induction false} AboardIdle(c: nat, f: nat, fails: bool, d: nat, setUp: bool)
    ensures AllIdle(Aboard(c, f, fails, d, setUp), c, f)
    ensures AllIdle(Directly(c, fails, Aboard(c, f, fails, d, setUp)), c, f)
  {
    var landing := Then(Keep(f, setUp), Then(Land(f), Then(Wake(c), End)));
    assert AllIdle(Then(Land(f), Then(Wake(c), End)), c, f);
    assert AllIdle(landing, c, f);
    assert AllIdle(Then(LoadFor(f, fails), Then(Tick(d), landing)), c, f);
    var flight := Aboard(c, f, fails, d, setUp);
    assert AllIdle(flight, c, f);
    assert AllIdle(Then(ReturnDirect(c), flight), c, f);
  }

  lemma {:induction false} IdleStep(cd: Codec, s: System, a: Action, c: nat)
    requires Ending(s, c).Some? && Idle(a, c, |s.flights|)
    ensures Ending(Apply(cd, s, a), c) == Ending(s, c) && |Apply(cd, s, a).flights| == |s.flights|
  {
  }

  lemma {:induction false} EndedStays(cd: Codec, s: System, q: Script, c: nat)
    requires Ending(s, c).Some? && AllIdle(q, c, |s.flights|)
    ensures Ending(Play(cd, s, q), c) == Ending(s, c)
    decreases q
  {
    if q.Then? {
      IdleStep(cd, s, q.a, c);
      EndedStays(cd, Apply(cd, s, q.a), q.rest, c);
    }
  }

  /** What the loader returns in state `s`. */
  function LoaderResult(s: System, key: string, fails: bool): Load
  {
    if fails then LoadError else Produced(Truth(s, key))
  }

  /** What a call that missed the cache ends with, its flight having loaded `l` by time `at`. */
  function Flown(cd: Codec, store: Store, key: string, o: Options, l: Load, at: nat, setUp: bool): (Store, Result)
  {
    (StoreLoad(cd, store, key, o, l, at, setUp), if l.Produced? then Value(l.val) else Error)
  }

  lemma {:induction false} DirectSteps(s: System, c: nat, key: string, o: Options, fails: bool)
    requires c < |s.callers| && s.callers[c] == Caller(key, o, Called) && o.noCache && o.loader
    ensures var t := DoReturnDirect(DoLoadDirectly(DoBeginDirect(s, c), c, fails), c);
            && Ending(t, c) == Some((s.store, if fails then Error else Value(Truth(s, key))))
            && |t.flights| == |s.flights|
  {
    var s1 := DoBeginDirect(s, c);
    assert s1.callers[c] == Caller(key, o, Calling(s.clock));
    var s2 := DoLoadDirectly(s1, c, fails);
    assert s2.callers[c].phase.Loading?;
  }

  lemma {:induction false} DirectPlays(cd: Codec, s: System, c: nat, fails: bool, next: Script)
    ensures Play(cd, s, Directly(c, fails, next)) ==
            Play(cd, DoReturnDirect(DoLoadDirectly(DoBeginDirect(s, c), c, fails), c), next)
  {
    var s1 := DoBeginDirect(s, c);
    PlayThen(cd, s, BeginDirect(c), Then(LoadDirectly(c, fails), Then(ReturnDirect(c), next)));
    PlayThen(cd, s1, LoadDirectly(c, fails), Then(ReturnDirect(c), next));
    PlayThen(cd, DoLoadDirectly(s1, c, fails), ReturnDirect(c), next);
  }

  lemma {:induction false} DirectEnds(cd: Codec, s: System, c: nat, key: string, o: Options, fails: bool, next: Script)
    requires c < |s.callers| && s.callers[c] == Caller(key, o, Called) && o.noCache && o.loader
    requires AllIdle(next, c, |s.flights|)
    ensures Ending(Play(cd, s, Directly(c, fails, next)), c) == Some((s.store, if fails then Error else Value(Truth(s, key))))
  {
    DirectSteps(s, c, key, o, fails);
    DirectPlays(cd, s, c, fails, next);
    EndedStays(cd, DoReturnDirect(DoLoadDirectly(DoBeginDirect(s, c), c, fails), c), next, c);
  }

  lemma {:induction false} DirectIdle(cd: Codec, s: System, c: nat, fails: bool, next: Script)
    requires c < |s.callers| && s.callers[c].phase.Missed?
    ensures Play(cd, s, Directly(c, fails, next)) == Play(cd, s, next)
  {
    DirectPlays(cd, s, c, fails, next);
  }

  lemma {:induction false} LookupEnds(cd: Codec, s: System, c: nat, key: string, o: Options, getUp: bool)
    requires Faithful(cd) && Inv(cd, s) && c < |s.callers| && s.callers[c] == Caller(key, o, Called)
    requires !(o.noCache && o.loader)
    ensures var t := Apply(cd, s, Lookup(c, getUp));
            && |t.flights| == |s.flights|
            && match GetSpec(cd, s.store, key, s.clock, getUp)
               case Hit(val) => Ending(t, c) == Some((s.store, Value(val)))
               case Failed => Ending(t, c) == Some((s.store, Error))
               case Miss => t == WithPhase(s, c, Missed)
  {
    if GetSpec(cd, s.store, key, s.clock, getUp).Hit? {
      HitReturnsProduction(cd, s, c, getUp);
    }
  }

  /** Caller `c` waits on its own flight `f`, which is at stage `g`. */
  predicate Waits(s: System, c: nat, f: nat, key: string, o: Options, started: nat, g: Stage)
  {
    && c < |s.callers| && s.callers[c] == Caller(key, o, Joined(f))
    && f < |s.flights| && s.flights[f] == Flight(key, o, started, g)
  }

  lemma {:induction false} TakesOff(s: System, c: nat, key: string, o: Options)
    requires key !in s.active && c < |s.callers| && s.callers[c] == Caller(key, o, Missed)
    ensures var t := DoJoin(s, c);
            && Waits(t, c, |s.flights|, key, o, s.clock, Running)
            && t.store == s.store && t.clock == s.clock && t.source == s.source
  {
  }

  /** What the flight's load leaves behind. */
  predicate Holds(s: System, load: Loaded, l: Load)
  {
    if l.Produced? then load.Good? && load.p < |s.productions| && s.productions[load.p].val == l.val else load == Bad
  }

  lemma {:induction false} Loads(s: System, c: nat, f: nat, key: string, o: Options, fails: bool)
    requires Waits(s, c, f, key, o, s.clock, Running)
    ensures var t := DoLoadFor(s, f, fails);
            && t.flights[f].stage.Ready? && Waits(t, c, f, key, o, s.clock, t.flights[f].stage)
            && Holds(t, t.flights[f].stage.load, EffectiveLoad(o, LoaderResult(s, key, fails)))
            && t.store == s.store && t.clock == s.clock
  {
  }

  lemma {:induction false} Keeps(cd: Codec, s: System, c: nat, f: nat, key: string, o: Options, started: nat, load: Loaded, l: Load, up: bool)
    requires Waits(s, c, f, key, o, started, Ready(load)) && Holds(s, load, l)
    ensures var t := DoKeep(cd, s, f, up);
            && Waits(t, c, f, key, o, started, Kept(load, s.clock)) && Holds(t, load, l)
            && t.store == StoreLoad(cd, s.store, key, o, l, s.clock, up)
  {
  }

  lemma {:induction false} Lands(s: System, c: nat, f: nat, key: string, o: Options, started: nat, load: Loaded, storedAt: nat, l: Load)
    requires Waits(s, c, f, key, o, started, Kept(load, storedAt)) && Holds(s, load, l)
    ensures Ending(DoWake(DoLand(s, f), c), c) == Some((s.store, if l.Produced? then Value(l.val) else Error))
  {
    assert Waits(DoLand(s, f), c, f, key, o, started, Landed(load, storedAt, s.clock));
  }

  lemma {:induction false} FlightLands(cd: Codec, s: System, c: nat, f: nat, key: string, o: Options, started: nat, load: Loaded,
                    l: Load, setUp: bool)
    requires Waits(s, c, f, key, o, started, Ready(load)) && Holds(s, load, l)
    ensures Ending(Play(cd, s, Then(Keep(f, setUp), Then(Land(f), Then(Wake(c), End)))), c) ==
            Some(Flown(cd, s.store, key, o, l, s.clock, setUp))
  {
    var s1 := DoKeep(cd, s, f, setUp);
    Keeps(cd, s, c, f, key, o, started, load, l, setUp);
    Lands(s1, c, f, key, o, started, load, s.clock, l);
    PlayThen(cd, s, Keep(f, setUp), Then(Land(f), Then(Wake(c), End)));
    PlayThen(cd, s1, Land(f), Then(Wake(c), End));
    PlayThen(cd, DoLand(s1, f), Wake(c), End);
  }

  lemma {:induction false} FlightLoads(s: System, c: nat, key: string, o: Options, fails: bool) returns (load: Loaded)
    requires key !in s.active && c < |s.callers| && s.callers[c] == Caller(key, o, Missed)
    ensures var t := DoLoadFor(DoJoin(s, c), |s.flights|, fails);
            && Waits(t, c, |s.flights|, key, o, s.clock, Ready(load)) && t.store == s.store && t.clock == s.clock
            && Holds(t, load, EffectiveLoad(o, LoaderResult(s, key, fails)))
  {
    TakesOff(s, c, key, o);
    Loads(DoJoin(s, c), c, |s.flights|, key, o, fails);
    load := DoLoadFor(DoJoin(s, c), |s.flights|, fails).flights[|s.flights|].stage.load;
  }

  lemma {:induction false} FlightPlays(cd: Codec, s: System, c: nat, f: nat, fails: bool, d: nat, setUp: bool)
    ensures var t := DoLoadFor(DoJoin(s, c), f, fails);
            Play(cd, s, Aboard(c, f, fails, d, setUp)) ==
            Play(cd, t.(clock := t.clock + d), Then(Keep(f, setUp), Then(Land(f), Then(Wake(c), End))))
  {
    var tail := Then(Keep(f, setUp), Then(Land(f), Then(Wake(c), End)));
    PlayThen(cd, s, Join(c), Then(LoadFor(f, fails), Then(Tick(d), tail)));
    PlayThen(cd, DoJoin(s, c), LoadFor(f, fails), Then(Tick(d), tail));
    PlayThen(cd, DoLoadFor(DoJoin(s, c), f, fails), Tick(d), tail);
  }

  lemma {:induction false} FlightEnds(cd: Codec, s: System, c: nat, key: string, o: Options, fails: bool, d: nat, setUp: bool)
    requires key !in s.active && c < |s.callers| && s.callers[c] == Caller(key, o, Missed)
    ensures Ending(Play(cd, s, Aboard(c, |s.flights|, fails, d, setUp)), c) ==
            Some(Flown(cd, s.store, key, o, EffectiveLoad(o, LoaderResult(s, key, fails)), s.clock + d, setUp))
  {
    var f := |s.flights|;
    var load := FlightLoads(s, c, key, o, fails);
    var t := DoLoadFor(DoJoin(s, c), f, fails);
    FlightPlays(cd, s, c, f, fails, d, setUp);
    FlightLands(cd, t.(clock := t.clock + d), c, f, key, o, s.clock, load,
                EffectiveLoad(o, LoaderResult(s, key, fails)), setUp);
  }

  lemma {:induction false} MissEnds(cd: Codec, s: System, c: nat, key: string, o: Options, fails: bool, d: nat, setUp: bool)
    requires key !in s.active && c < |s.callers| && s.callers[c] == Caller(key, o, Called)
    ensures var rest := Directly(c, fails, Aboard(c, |s.flights|, fails, d, setUp));
            Ending(Play(cd, WithPhase(s, c, Missed), rest), c) ==
            Some(Flown(cd, s.store, key, o, EffectiveLoad(o, LoaderResult(s, key, fails)), s.clock + d, setUp))
  {
    var s1 := WithPhase(s, c, Missed);
    DirectIdle(cd, s1, c, fails, Aboard(c, |s.flights|, fails, d, setUp));
    FlightEnds(cd, s1, c, key, o, fails, d, setUp);
    assert LoaderResult(s1, key, fails) == LoaderResult(s, key, fails);
  }

  lemma {:induction false} LookupAgrees(cd: Codec, s: System, c: nat, key: string, o: Options, fails: bool, d: nat, getUp: bool, setUp: bool)
    requires Faithful(cd) && |key| <= MAX_KEY_LEN && !(o.noCache && o.loader) && Inv(cd, s) && key !in s.active
    requires c < |s.callers| && s.callers[c] == Caller(key, o, Called)
    ensures var rest := Directly(c, fails, Aboard(c, |s.flights|, fails, d, setUp));
            Ending(Play(cd, s, Then(Lookup(c, getUp), rest)), c) ==
            Some(GetOrLoadSpec(cd, s.store, key, o, LoaderResult(s, key, fails), s.clock, s.clock + d, getUp, setUp))
  {
    var flight := Aboard(c, |s.flights|, fails, d, setUp);
    AboardIdle(c, |s.flights|, fails, d, setUp);
    var s1 := DoLookup(cd, s, c, getUp);
    LookupEnds(cd, s, c, key, o, getUp);
    PlayThen(cd, s, Lookup(c, getUp), Directly(c, fails, flight));
    if GetSpec(cd, s.store, key, s.clock, getUp).Miss? {
      MissEnds(cd, s, c, key, o, fails, d, setUp);
    } else {
      EndedStays(cd, s1, Directly(c, fails, flight), c);
    }
  }

  lemma {:induction false} PlayAgrees(cd: Codec, s: System, key: string, o: Options, fails: bool, d: nat, getUp: bool, setUp: bool)
    requires Faithful(cd) && Inv(cd, s) && key !in s.active
    ensures Ending(Play(cd, s, Alone(key, o, |s.callers|, |s.flights|, fails, d, getUp, setUp)), |s.callers|) ==
            Some(GetOrLoadSpec(cd, s.store, key, o, LoaderResult(s, key, fails), s.clock, s.clock + d, getUp, setUp))
  {
    var c, flight := |s.callers|, Aboard(|s.callers|, |s.flights|, fails, d, setUp);
    var s1, rest := Apply(cd, s, Invoke(key, o)), Then(Lookup(c, getUp), Directly(c, fails, flight));
    PlayThen(cd, s, Invoke(key, o), rest);
    AboardIdle(c, |s.flights|, fails, d, setUp);
    if |key| > MAX_KEY_LEN {
      EndedStays(cd, s1, rest, c);
    } else if o.noCache && o.loader {
      PlayThen(cd, s1, Lookup(c, getUp), Directly(c, fails, flight));
      DirectEnds(cd, s1, c, key, o, fails, flight);
    } else {
      InvokeKeepsInv(cd, s, key, o);
      LookupAgrees(cd, s1, c, key, o, fails, d, getUp, setUp);
    }
  }

  /** From every reachable state, a call that meets no other flight on its key ends with the result and
      the store of the single-caller view, in every branch. */
  lemma {:induction false} LoneCaller(cd: Codec, p: seq<Action>, key: string, o: Options, fails: bool, d: nat, getUp: bool, setUp: bool)
    requires Faithful(cd) && key !in Run(cd, p).active
    ensures var s := Run(cd, p);
            Ending(Play(cd, s, Alone(key, o, |s.callers|, |s.flights|, fails, d, getUp, setUp)), |s.callers|) ==
            Some(GetOrLoadSpec(cd, s.store, key, o, LoaderResult(s, key, fails), s.clock, s.clock + d, getUp, setUp))
  {
    ReachableInv(cd, p);
    PlayAgrees(cd, Run(cd, p), key, o, fails, d, getUp, setUp);
  }
}
