/** The Redis-backed cache and the single-caller view of cache-aside loading. Times are nanoseconds.
    The JSON codec is a parameter that is assumed to round-trip and never to emit the empty string,
    because the empty string is the stored form of a cached nil.
  */
module Cache {
  import opened Common

  type Value(==, !new)

  datatype Codec = Codec(enc: Value -> string, dec: string -> Option<Value>)

  ghost predicate Faithful(c: Codec)
  {
    forall v :: c.enc(v) != "" && c.dec(c.enc(v)) == Some(v)
  }

  /** A Redis string; `expires` is None for a key stored with a zero TTL. */
  datatype Stored = Stored(payload: string, expires: Option<nat>)

  type Store = map<string, Stored>

  datatype Fetched = Hit(val: Option<Value>) | Miss | Failed

  predicate Live(s: Store, key: string, now: nat)
  {
    key in s && (s[key].expires.None? || now < s[key].expires.value)
  }

  /** `up` is false when the client reports an error other than a missing key. */
  function GetSpec(c: Codec, s: Store, key: string, now: nat, up: bool): Fetched
  {
    if !up then Failed
    else if !Live(s, key, now) then Miss
    else if s[key].payload == "" then Hit(None)
    else
      match c.dec(s[key].payload)
      case None => Failed
      case Some(v) => Hit(Some(v))
  }

  function Encoded(c: Codec, val: Option<Value>): string
  {
    if val.None? then "" else c.enc(val.value)
  }

  function SetSpec(c: Codec, s: Store, key: string, val: Option<Value>, ttl: nat, now: nat, up: bool): Store
  {
    if up then s[key := Stored(Encoded(c, val), if ttl == 0 then None else Some(now + ttl))] else s
  }

  class RedisCache {
    const codec: Codec
    const ttl: nat
    var store: Store

    constructor (codec: Codec, ttl: nat)
      ensures this.codec == codec && this.ttl == ttl && store == map[]
    {
      this.codec, this.ttl, store := codec, ttl, map[];
    }

    method Get(key: string, now: nat, up: bool) returns (r: Fetched)
      ensures r == GetSpec(codec, store, key, now, up)
    {
      if !up {
        return Failed;
      }
      if !(key in store) || (store[key].expires.Some? && now >= store[key].expires.value) {
        return Miss;
      }
      var str := store[key].payload;
      if str == "" {
        return Hit(None);
      }
      match codec.dec(str) {
        case None => return Failed;
        case Some(v) => return Hit(Some(v));
      }
    }

    method SetWithTTL(key: string, val: Option<Value>, ttl: nat, now: nat, up: bool)
      modifies this
      ensures store == SetSpec(codec, old(store), key, val, ttl, now, up)
    {
      if !up {
        return;
      }
      var deadline := if ttl == 0 then None else Some(now + ttl);
      if val.None? {
        store := store[key := Stored("", deadline)];
      } else {
        store := store[key := Stored(codec.enc(val.value), deadline)];
      }
    }
  }

  /** What is set is what is read until it expires and nothing afterwards, including a cached nil;
      no other key is touched. */
  lemma {:induction false} GetAfterSet(c: Codec, s: Store, key: string, val: Option<Value>, ttl: nat, now: nat, later: nat)
    requires Faithful(c)
    ensures GetSpec(c, SetSpec(c, s, key, val, ttl, now, true), key, later, true) ==
            if ttl == 0 || later < now + ttl then Hit(val) else Miss
    ensures forall k, up :: k != key ==>
              GetSpec(c, SetSpec(c, s, key, val, ttl, now, true), k, later, up) == GetSpec(c, s, k, later, up)
  {
    if val.Some? {
      assert c.enc(val.value) != "" && c.dec(c.enc(val.value)) == val;
    }
  }

  // ------------------------------------------------------------------------
  // GetOrLoad
  // ------------------------------------------------------------------------

  const EMPTY_TTL: nat := 5_000_000_000
  const MAX_KEY_LEN: nat := 512

  /** The effective options of a call; `loader` is false when the caller passed a nil loader. */
  datatype Options = Options(ttl: nat, noCache: bool, cacheEmpty: bool, loader: bool)

  datatype Load = Produced(val: Option<Value>) | LoadError

  datatype Result = Value(val: Option<Value>) | Error

  /** A nil loader behaves as one that finds nothing. */
  function EffectiveLoad(o: Options, load: Load): Load
  {
    if o.loader then load else Produced(None)
  }

  /** The TTL under which a produced value is stored, None when it is not stored at all. */
  function StoreTTL(o: Options, val: Option<Value>): Option<nat>
  {
    if val.Some? then Some(o.ttl) else if o.cacheEmpty then Some(EMPTY_TTL) else None
  }

  function StoreLoad(c: Codec, s: Store, key: string, o: Options, load: Load, now: nat, up: bool): Store
  {
    match load
    case LoadError => s
    case Produced(val) =>
      match StoreTTL(o, val)
      case None => s
      case Some(ttl) => SetSpec(c, s, key, val, ttl, now, up)
  }

  /** A call that meets no other: `load` is what the loader would return, `t0` the time of the
      lookup and `t1` the time of the store. */
  function GetOrLoadSpec(c: Codec, s: Store, key: string, o: Options, load: Load,
                         t0: nat, t1: nat, getUp: bool, setUp: bool): (Store, Result)
  {
    if |key| > MAX_KEY_LEN then (s, Error)
    else if o.noCache && o.loader then (s, if load.Produced? then Value(load.val) else Error)
    else
      match GetSpec(c, s, key, t0, getUp)
      case Hit(val) => (s, Value(val))
      case Failed => (s, Error)
      case Miss =>
        var l := EffectiveLoad(o, load);
        (StoreLoad(c, s, key, o, l, t1, setUp), if l.Produced? then Value(l.val) else Error)
  }

  class CacheSupport {
    const cache: RedisCache

    constructor (cache: RedisCache)
      ensures this.cache == cache
    {
      this.cache := cache;
    }

    method GetOrLoad(key: string, o: Options, load: Load, t0: nat, t1: nat, getUp: bool, setUp: bool)
      returns (r: Result)
      modifies cache
      ensures (cache.store, r) == GetOrLoadSpec(cache.codec, old(cache.store), key, o, load, t0, t1, getUp, setUp)
    {
      if |key| > MAX_KEY_LEN {
        return Error;
      }
      if o.noCache && o.loader {
        match load {
          case Produced(v) => return Value(v);
          case LoadError => return Error;
        }
      }
      var got := cache.Get(key, t0, getUp);
      match got {
        case Hit(v) => return Value(v);
        case Failed => return Error;
        case Miss =>
      }
      var data: Option<Value> := None;
      if o.loader {
        if load.LoadError? {
          return Error;
        }
        data := load.val;
      }
      if data.None? {
        if o.cacheEmpty {
          cache.SetWithTTL(key, None, EMPTY_TTL, t1, setUp);
        }
        return Value(None);
      }
      cache.SetWithTTL(key, data, o.ttl, t1, setUp);
      return Value(data);
    }
  }

  /** What a lookup finds: an error when the client reports one or the payload does not decode, nothing
      when the key is absent or its deadline has come, a cached nil for the empty payload, and otherwise
      the decoded value. */
  lemma GetAnswers(c: Codec, s: Store, key: string, now: nat, up: bool)
    ensures !up ==> GetSpec(c, s, key, now, up) == Failed
    ensures up && key !in s ==> GetSpec(c, s, key, now, up) == Miss
    ensures up && key in s && s[key].expires.Some? && s[key].expires.value <= now ==> GetSpec(c, s, key, now, up) == Miss
    ensures up && key in s && (s[key].expires.None? || now < s[key].expires.value) ==>
              GetSpec(c, s, key, now, up) == if s[key].payload == "" then Hit(None)
                                             else if c.dec(s[key].payload).None? then Failed
                                             else Hit(c.dec(s[key].payload))
  {
  }

  /** Calls that do not load: an over-long key and a failing lookup are errors, a hit is answered from
      the cache, and a bypassing call with a loader gets the loader's answer; the store is untouched. */
  lemma AnswersWithoutLoading(c: Codec, s: Store, key: string, o: Options, load: Load, t0: nat, t1: nat,
                              getUp: bool, setUp: bool)
    ensures var (s', r) := GetOrLoadSpec(c, s, key, o, load, t0, t1, getUp, setUp);
            && (|key| > 512 ==> s' == s && r == Error)
            && (|key| <= 512 && o.noCache && o.loader ==>
                  s' == s && (r == Error <==> load.LoadError?) && (load.Produced? ==> r == Value(load.val)))
            && (|key| <= 512 && !(o.noCache && o.loader) ==>
                  && (GetSpec(c, s, key, t0, getUp) == Failed ==> s' == s && r == Error)
                  && forall val :: GetSpec(c, s, key, t0, getUp) == Hit(val) ==> s' == s && r == Value(val))
  {
  }

  /** A call that misses the cache with a working lookup. */
  predicate Misses(c: Codec, s: Store, key: string, o: Options, t0: nat)
  {
    |key| <= 512 && !(o.noCache && o.loader) && GetSpec(c, s, key, t0, true) == Miss
  }

  /** An empty result, of a loader or for want of one, is answered with "absent". It leaves the store
      unchanged if and only if caching empty results is off or the write fails; otherwise it is found
      again for exactly five seconds. */
  lemma {:induction false} EmptyLoadKeptIff(c: Codec, s: Store, key: string, o: Options, load: Load, t0: nat, t1: nat, setUp: bool, later: nat)
    requires Misses(c, s, key, o, t0) && t0 <= t1 && (o.loader ==> load == Produced(None))
    ensures var (s', r) := GetOrLoadSpec(c, s, key, o, load, t0, t1, true, setUp);
            && r == Value(None)
            && (s' == s <==> !o.cacheEmpty || !setUp)
            && (o.cacheEmpty && setUp ==>
                  GetSpec(c, s', key, later, true) == if later < t1 + 5_000_000_000 then Hit(None) else Miss)
            && forall k :: k != key ==> (k in s' <==> k in s) && (k in s ==> s'[k] == s[k])
  {
    var s' := GetOrLoadSpec(c, s, key, o, load, t0, t1, true, setUp).0;
    if o.cacheEmpty && setUp {
      assert s'[key] == Stored("", Some(t1 + 5_000_000_000));
      assert key in s ==> s[key] != s'[key];
    }
  }

  /** A value that was loaded is answered and, if the write works, found again until its own TTL has run
      out, or for ever if that is zero; a failed load is an error and stores nothing. */
  lemma {:induction false} ValueLoadKept(c: Codec, s: Store, key: string, o: Options, load: Load, t0: nat, t1: nat, setUp: bool, later: nat)
    requires Faithful(c) && Misses(c, s, key, o, t0) && o.loader && t0 <= t1
    ensures var (s', r) := GetOrLoadSpec(c, s, key, o, load, t0, t1, true, setUp);
            && (load.LoadError? ==> s' == s && r == Error)
            && (load.Produced? && load.val.Some? ==>
                  && r == Value(load.val)
                  && (!setUp ==> s' == s)
                  && (setUp ==>
                        GetSpec(c, s', key, later, true) == if o.ttl == 0 || later < t1 + o.ttl then Hit(load.val) else Miss)
                  && forall k :: k != key ==> (k in s' <==> k in s) && (k in s ==> s'[k] == s[k]))
  {
    if load.Produced? && load.val.Some? {
      GetAfterSet(c, s, key, load.val, o.ttl, t1, later);
    }
  }

  /** A failed load stores nothing; a successful one is served from the cache to every caller until
      its TTL runs out, whatever their own loaders would say, and then loaded again. */
  lemma {:induction false} LoadThenServe(c: Codec, s: Store, key: string, o: Options, load: Load, t0: nat, t1: nat,
                      o': Options, load': Load, t2: nat, t3: nat)
    requires Faithful(c) && |key| <= MAX_KEY_LEN && !o.noCache && o.loader && !o'.noCache
    requires t0 <= t1 <= t2 && GetSpec(c, s, key, t0, true) == Miss
    ensures load.LoadError? ==> GetOrLoadSpec(c, s, key, o, load, t0, t1, true, true) == (s, Error)
    ensures load.Produced? && StoreTTL(o, load.val).Some? ==>
              var s' := GetOrLoadSpec(c, s, key, o, load, t0, t1, true, true).0;
              var ttl := StoreTTL(o, load.val).value;
              GetOrLoadSpec(c, s', key, o', load', t2, t3, true, true) ==
              if ttl == 0 || t2 < t1 + ttl then (s', Value(load.val))
              else var l := EffectiveLoad(o', load');
                   (StoreLoad(c, s', key, o', l, t3, true), if l.Produced? then Value(l.val) else Error)
  {
    if load.Produced? && StoreTTL(o, load.val).Some? {
      GetAfterSet(c, s, key, load.val, StoreTTL(o, load.val).value, t1, t2);
    }
  }
}
