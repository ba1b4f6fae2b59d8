/** Unflattening dotted configuration keys into nested maps. */
module Apollo {
  import opened Common

  type Scalar(==, !new)

  /** A configuration value: a scalar or a nested map. */
  datatype Tree = Leaf(v: Scalar) | Node(kids: Dir)

  type Dir = map<string, Tree>

  type Path = p: seq<string> | |p| > 0 witness [""]

  // ------------------------------------------------------------------------
  // Splitting and joining on dots
  // ------------------------------------------------------------------------

  /** The segments of `c` followed by a text with segments `p`. */
  function Cons(c: char, p: Path): Path
  {
    if c == '.' then [""] + p else [[c] + p[0]] + p[1..]
  }

  function Split(s: string): Path
  {
    if |s| == 0 then [""] else Cons(s[0], Split(s[1..]))
  }

  function Join(p: Path): string
  {
    if |p| == 1 then p[0] else p[0] + "." + Join(p[1..])
  }

  lemma {:induction false} JoinOfCons(c: char, p: Path)
    ensures Join(Cons(c, p)) == [c] + Join(p)
  {
    var q := Cons(c, p);
    if c == '.' {
      assert q[1..] == p;
    } else {
      assert q[1..] == p[1..];
    }
  }

  lemma {:induction false} JoinOfSplit(s: string)
    ensures Join(Split(s)) == s
  {
    if |s| > 0 {
      JoinOfSplit(s[1..]);
      JoinOfCons(s[0], Split(s[1..]));
    }
  }

  lemma {:induction false} ConsConcat(c: char, p: Path, q: Path)
    ensures Cons(c, p + q) == Cons(c, p) + q
  {
    assert (p + q)[1..] == p[1..] + q;
  }

  /** A dot between two keys splits between their segments. */
  lemma {:induction false} SplitOfDotted(a: string, b: string)
    ensures Split(a + "." + b) == Split(a) + Split(b)
  {
    var s := a + "." + b;
    if |a| == 0 {
      assert s[1..] == b;
    } else {
      assert s[1..] == a[1..] + "." + b;
      SplitOfDotted(a[1..], b);
      ConsConcat(a[0], Split(a[1..]), Split(b));
    }
  }

  lemma {:induction false} SplitInjective(a: string, b: string)
    requires Split(a) == Split(b)
    ensures a == b
  {
    JoinOfSplit(a);
    JoinOfSplit(b);
  }

  // ------------------------------------------------------------------------
  // Resolving one key
  // ------------------------------------------------------------------------

  /** The map after writing `v` at `path`. The walk creates missing maps, overwrites whatever sits at
      the last segment, and gives up when a scalar sits at an earlier one. */
  function Insert(d: Dir, path: Path, v: Tree): Dir
    decreases |path|
  {
    var k := path[0];
    if |path| == 1 then d[k := v]
    else if k !in d then d[k := Node(Insert(map[], path[1..], v))]
    else
      match d[k]
      case Leaf(_) => d
      case Node(kids) => d[k := Node(Insert(kids, path[1..], v))]
  }

  function Lookup(d: Dir, path: Path): Option<Tree>
    decreases |path|
  {
    if path[0] !in d then None
    else if |path| == 1 then Some(d[path[0]])
    else
      match d[path[0]]
      case Leaf(_) => None
      case Node(kids) => Lookup(kids, path[1..])
  }

  predicate Prefix(p: Path, q: Path)
  {
    p <= q
  }

  /** Some scalar sits at a proper prefix of the path. */
  ghost predicate Blocked(d: Dir, path: Path)
  {
    exists i :: 0 < i < |path| && LeafAt(d, path[..i])
  }

  ghost predicate LeafAt(d: Dir, path: Path)
  {
    Lookup(d, path).Some? && Lookup(d, path).value.Leaf?
  }

  lemma {:induction false} BlockedUnfolds(d: Dir, path: Path)
    ensures Blocked(d, path) <==>
            |path| > 1 && path[0] in d && (d[path[0]].Leaf? || Blocked(d[path[0]].kids, path[1..]))
  {
    if |path| > 1 {
      assert path[..1] == [path[0]];
      if path[0] in d && d[path[0]].Leaf? {
        assert LeafAt(d, path[..1]);
      } else if path[0] in d {
        var kids, rest := d[path[0]].kids, path[1..];
        forall i | 1 < i < |path|
          ensures LeafAt(d, path[..i]) <==> LeafAt(kids, rest[..i - 1])
        {
          assert path[..i][1..] == rest[..i - 1];
        }
        if Blocked(d, path) {
          var i :| 0 < i < |path| && LeafAt(d, path[..i]);
          assert i > 1;
          assert LeafAt(kids, rest[..i - 1]);
        }
        if Blocked(kids, rest) {
          var j :| 0 < j < |rest| && LeafAt(kids, rest[..j]);
          assert LeafAt(d, path[..j + 1]);
        }
      }
    }
  }

  /** One call either makes the key's lookup the value, or, exactly when a scalar sits at a proper
      prefix, leaves the whole map unchanged. */
  lemma {:induction false} ResolveSetsOrKeeps(d: Dir, path: Path, v: Tree)
    ensures Blocked(d, path) ==> Insert(d, path, v) == d
    ensures !Blocked(d, path) ==> Lookup(Insert(d, path, v), path) == Some(v)
    decreases |path|
  {
    BlockedUnfolds(d, path);
    if |path| > 1 {
      if path[0] !in d {
        BlockedUnfolds(map[], path[1..]);
        ResolveSetsOrKeeps(map[], path[1..], v);
      } else if d[path[0]].Node? {
        ResolveSetsOrKeeps(d[path[0]].kids, path[1..], v);
      }
    }
  }

  /** Every key not prefix-comparable with the resolved one keeps its lookup. */
  lemma {:induction false} ResolveFrame(d: Dir, path: Path, v: Tree, q: Path)
    requires !Prefix(path, q) && !Prefix(q, path)
    ensures Lookup(Insert(d, path, v), q) == Lookup(d, q)
    decreases |path|
  {
    if |path| > 1 && |q| > 1 && path[0] == q[0] {
      assert path == [path[0]] + path[1..] && q == [q[0]] + q[1..];
      if path[0] !in d {
        ResolveFrame(map[], path[1..], v, q[1..]);
      } else if d[path[0]].Node? {
        ResolveFrame(d[path[0]].kids, path[1..], v, q[1..]);
      }
    }
  }

  // ------------------------------------------------------------------------
  // Order does not matter
  // ------------------------------------------------------------------------

  lemma {:induction false} InsertsCommute(d: Dir, p: Path, x: Scalar, q: Path, y: Scalar)
    requires p != q
    ensures Insert(Insert(d, p, Leaf(x)), q, Leaf(y)) == Insert(Insert(d, q, Leaf(y)), p, Leaf(x))
    decreases |p|
  {
    if p[0] == q[0] {
      var k := p[0];
      assert p == [k] + p[1..] && q == [k] + q[1..];
      if |p| > 1 && |q| > 1 {
        var kids := if k !in d then map[] else if d[k].Node? then d[k].kids else map[];
        InsertsCommute(kids, p[1..], x, q[1..], y);
      }
    }
  }

  datatype Entry = Entry(path: Path, v: Scalar)

  function InsertAll(d: Dir, es: seq<Entry>): Dir
    decreases |es|
  {
    if |es| == 0 then d else InsertAll(Insert(d, es[0].path, Leaf(es[0].v)), es[1..])
  }

  ghost predicate DistinctPaths(es: seq<Entry>)
  {
    forall i, j :: 0 <= i < j < |es| ==> es[i].path != es[j].path
  }

  /** An entry whose path differs from all before it can be inserted first instead of last. */
  lemma {:induction false} InsertFirst(d: Dir, es: seq<Entry>, e: Entry)
    requires forall i :: 0 <= i < |es| ==> es[i].path != e.path
    ensures InsertAll(d, es + [e]) == InsertAll(Insert(d, e.path, Leaf(e.v)), es)
    decreases |es|
  {
    if |es| == 0 {
      assert (es + [e])[1..] == [];
    } else {
      assert (es + [e])[1..] == es[1..] + [e];
      InsertFirst(Insert(d, es[0].path, Leaf(es[0].v)), es[1..], e);
      InsertsCommute(d, es[0].path, es[0].v, e.path, e.v);
    }
  }

  lemma {:induction false} InsertAllSplit(d: Dir, a: seq<Entry>, b: seq<Entry>)
    ensures InsertAll(d, a + b) == InsertAll(InsertAll(d, a), b)
    decreases |a|
  {
    if |a| == 0 {
      assert a + b == b;
    } else {
      assert (a + b)[1..] == a[1..] + b;
      InsertAllSplit(Insert(d, a[0].path, Leaf(a[0].v)), a[1..], b);
    }
  }

  lemma {:induction false} RemoveMember<T>(es: seq<T>, fs: seq<T>, i: nat)
    requires |es| > 0 && i < |fs| && fs[i] == es[0] && multiset(es) == multiset(fs)
    ensures multiset(es[1..]) == multiset(fs[..i] + fs[i + 1..])
  {
    assert es == [es[0]] + es[1..];
    assert fs == fs[..i] + [fs[i]] + fs[i + 1..];
    var one, a, b := multiset([es[0]]), multiset(es[1..]), multiset(fs[..i] + fs[i + 1..]);
    assert one + a == one + b;
    assert a == one + a - one && b == one + b - one;
  }

  /** Resolving any set of entries with distinct keys gives the same map in every order; the keys
      need not even be prefix-free. */
  lemma {:induction false} OrderIrrelevant(d: Dir, es: seq<Entry>, fs: seq<Entry>)
    requires multiset(es) == multiset(fs) && DistinctPaths(es)
    ensures InsertAll(d, es) == InsertAll(d, fs)
    decreases |es|
  {
    if |es| == 0 {
      assert |multiset(fs)| == 0;
    } else {
      var e := es[0];
      assert e in multiset(fs);
      var i :| 0 <= i < |fs| && fs[i] == e;
      RemoveMember(es, fs, i);
      OrderIrrelevant(Insert(d, e.path, Leaf(e.v)), es[1..], fs[..i] + fs[i + 1..]);
      forall j | 0 <= j < i
        ensures fs[j].path != e.path
      {
        assert (fs[..i] + fs[i + 1..])[j] == fs[j];
        assert fs[j] in multiset(es[1..]);
      }
      MoveFirst(d, fs, i);
    }
  }

  lemma {:induction false} MoveFirst(d: Dir, fs: seq<Entry>, i: nat)
    requires i < |fs| && forall j :: 0 <= j < i ==> fs[j].path != fs[i].path
    ensures InsertAll(d, fs) == InsertAll(Insert(d, fs[i].path, Leaf(fs[i].v)), fs[..i] + fs[i + 1..])
  {
    var e := fs[i];
    InsertFirst(d, fs[..i], e);
    InsertAllSplit(d, fs[..i] + [e], fs[i + 1..]);
    InsertAllSplit(Insert(d, e.path, Leaf(e.v)), fs[..i], fs[i + 1..]);
    assert fs == fs[..i] + [e] + fs[i + 1..];
  }

  // ------------------------------------------------------------------------
  // Flattening the result
  // ------------------------------------------------------------------------

  predicate ProperPrefix(p: Path, q: Path)
  {
    p < q
  }

  /** No entry sits at a proper prefix of the path. */
  ghost predicate Uncovered(es: seq<Entry>, p: Path)
  {
    forall i :: 0 <= i < |es| ==> !ProperPrefix(es[i].path, p)
  }

  lemma {:induction false} UncoveredAncestor(es: seq<Entry>, i: nat, p: Path) returns (j: nat)
    requires i < |es| && ProperPrefix(es[i].path, p)
    ensures j < |es| && ProperPrefix(es[j].path, p) && Uncovered(es, es[j].path)
    decreases |es[i].path|
  {
    if k :| 0 <= k < |es| && ProperPrefix(es[k].path, es[i].path) {
      j := UncoveredAncestor(es, k, p);
    } else {
      j := i;
    }
  }

  /** What the map built so far holds: a leaf at each uncovered entry, and no other leaf. */
  ghost predicate Holds(d: Dir, es: seq<Entry>)
  {
    forall q: Path, v :: Lookup(d, q) == Some(Leaf(v)) <==> Entry(q, v) in es && Uncovered(es, q)
  }

  lemma {:induction false} LookupBelow(d: Dir, p: Path, q: Path)
    requires ProperPrefix(p, q) && LeafAt(d, p)
    ensures Lookup(d, q) == None
    decreases |p|
  {
    if |p| > 1 {
      assert p[1..] < q[1..];
      LookupBelow(d[p[0]].kids, p[1..], q[1..]);
    }
  }

  lemma {:induction false} LookupAbove(d: Dir, p: Path, q: Path)
    requires ProperPrefix(p, q) && Lookup(d, q).Some?
    ensures Lookup(d, p).Some? && Lookup(d, p).value.Node?
    decreases |p|
  {
    if |p| > 1 {
      assert p[1..] < q[1..];
      LookupAbove(d[p[0]].kids, p[1..], q[1..]);
    }
  }

  lemma {:induction false} BlockedMeansCovered(d: Dir, es: seq<Entry>, p: Path)
    requires Holds(d, es)
    ensures Blocked(d, p) <==> !Uncovered(es, p)
  {
    if Blocked(d, p) {
      var i :| 0 < i < |p| && LeafAt(d, p[..i]);
      var v := Lookup(d, p[..i]).value.v;
      assert Lookup(d, p[..i]) == Some(Leaf(v));
      assert Entry(p[..i], v) in es;
      var j :| 0 <= j < |es| && es[j] == Entry(p[..i], v);
      assert ProperPrefix(es[j].path, p);
    }
    if !Uncovered(es, p) {
      var i :| 0 <= i < |es| && ProperPrefix(es[i].path, p);
      var j := UncoveredAncestor(es, i, p);
      var q := es[j].path;
      assert Entry(q, es[j].v) in es;
      assert Lookup(d, q) == Some(Leaf(es[j].v));
      assert p[..|q|] == q && LeafAt(d, p[..|q|]);
    }
  }

  lemma {:induction false} UncoveredOfAppend(es: seq<Entry>, e: Entry, q: Path)
    ensures Uncovered(es + [e], q) <==> Uncovered(es, q) && !ProperPrefix(e.path, q)
  {
    assert (es + [e])[|es|] == e;
    assert forall i :: 0 <= i < |es| ==> (es + [e])[i] == es[i];
  }

  lemma {:induction false} AppendKeepsHolds(d: Dir, es: seq<Entry>, e: Entry)
    requires Holds(d, es) && forall i :: 0 <= i < |es| ==> es[i].path != e.path
    ensures Holds(Insert(d, e.path, Leaf(e.v)), es + [e])
  {
    var d' := Insert(d, e.path, Leaf(e.v));
    BlockedMeansCovered(d, es, e.path);
    ResolveSetsOrKeeps(d, e.path, Leaf(e.v));
    forall q: Path, v
      ensures Lookup(d', q) == Some(Leaf(v)) <==> Entry(q, v) in es + [e] && Uncovered(es + [e], q)
    {
      UncoveredOfAppend(es, e, q);
      HoldsAt(d, es, e, q, v);
    }
  }

  lemma {:induction false} HoldsAt(d: Dir, es: seq<Entry>, e: Entry, q: Path, v: Scalar)
    requires Holds(d, es) && forall i :: 0 <= i < |es| ==> es[i].path != e.path
    requires Blocked(d, e.path) <==> !Uncovered(es, e.path)
    requires Blocked(d, e.path) ==> Insert(d, e.path, Leaf(e.v)) == d
    requires !Blocked(d, e.path) ==> Lookup(Insert(d, e.path, Leaf(e.v)), e.path) == Some(Leaf(e.v))
    ensures Lookup(Insert(d, e.path, Leaf(e.v)), q) == Some(Leaf(v)) <==>
            Entry(q, v) in es + [e] && Uncovered(es, q) && !ProperPrefix(e.path, q)
  {
    var d' := Insert(d, e.path, Leaf(e.v));
    assert Lookup(d, q) == Some(Leaf(v)) <==> Entry(q, v) in es && Uncovered(es, q);
    if q == e.path {
    } else if ProperPrefix(e.path, q) {
      if Blocked(d, e.path) {
        var i :| 0 <= i < |es| && ProperPrefix(es[i].path, e.path);
        assert ProperPrefix(es[i].path, q);
      } else {
        LookupBelow(d', e.path, q);
      }
    } else if ProperPrefix(q, e.path) {
      if !Blocked(d, e.path) {
        LookupAbove(d', q, e.path);
        assert q == e.path[..|q|];
      }
    } else {
      ResolveFrame(d, e.path, Leaf(e.v), q);
    }
  }

  lemma {:induction false} InsertAllLast(d: Dir, es: seq<Entry>, e: Entry)
    ensures InsertAll(d, es + [e]) == Insert(InsertAll(d, es), e.path, Leaf(e.v))
  {
    InsertAllSplit(d, es, [e]);
    assert [e][1..] == [];
  }

  lemma {:induction false} ResolvedThen(es: seq<Entry>, e: Entry)
    requires Holds(InsertAll(map[], es), es) && forall i :: 0 <= i < |es| ==> es[i].path != e.path
    ensures Holds(InsertAll(map[], es + [e]), es + [e])
  {
    InsertAllLast(map[], es, e);
    AppendKeepsHolds(InsertAll(map[], es), es, e);
  }

  /** Resolving entries with distinct keys into an empty map gives a map whose leaves are exactly the
      entries that have no other entry at a proper prefix of their key. */
  lemma {:induction false} ResolvedLeaves(es: seq<Entry>)
    requires DistinctPaths(es)
    ensures Holds(InsertAll(map[], es), es)
  {
    if |es| > 0 {
      var pre, e := es[..|es| - 1], es[|es| - 1];
      assert pre + [e] == es;
      ResolvedLeaves(pre);
      ResolvedThen(pre, e);
    }
  }

  ghost function FlattenTree(t: Tree): set<(seq<string>, Scalar)>
    decreases t
  {
    match t
    case Leaf(v) => {([], v)}
    case Node(kids) => set k, x | k in kids && x in FlattenTree(kids[k]) :: ([k] + x.0, x.1)
  }

  ghost function Flatten(d: Dir): set<(seq<string>, Scalar)>
  {
    FlattenTree(Node(d))
  }

  lemma {:induction false} FlattenIsLookup(d: Dir, p: seq<string>, v: Scalar)
    ensures (p, v) in Flatten(d) <==> |p| > 0 && Lookup(d, p) == Some(Leaf(v))
    decreases |p|
  {
    if (p, v) in Flatten(d) {
      var k, x :| k in d && x in FlattenTree(d[k]) && (p, v) == ([k] + x.0, x.1);
      assert p[1..] == x.0;
      if d[k].Node? {
        assert x in Flatten(d[k].kids);
        FlattenIsLookup(d[k].kids, x.0, v);
      }
    }
    if |p| > 0 && Lookup(d, p) == Some(Leaf(v)) {
      var k := p[0];
      assert p == [k] + p[1..];
      if |p| > 1 {
        FlattenIsLookup(d[k].kids, p[1..], v);
      }
      var x := (p[1..], v);
      assert x in FlattenTree(d[k]);
    }
  }

  function Pairs(es: seq<Entry>): set<(seq<string>, Scalar)>
  {
    set i | 0 <= i < |es| :: (es[i].path, es[i].v)
  }

  ghost predicate PrefixFree(es: seq<Entry>)
  {
    forall i :: 0 <= i < |es| ==> Uncovered(es, es[i].path)
  }

  /** Flattening the resolved map returns exactly the original pairs if and only if the keys are
      prefix-free. */
  lemma {:induction false} FlattenRoundTrip(es: seq<Entry>)
    requires DistinctPaths(es)
    ensures Flatten(InsertAll(map[], es)) == Pairs(es) <==> PrefixFree(es)
    ensures Flatten(InsertAll(map[], es)) <= Pairs(es)
  {
    var d := InsertAll(map[], es);
    ResolvedLeaves(es);
    forall p: seq<string>, v
      ensures (p, v) in Flatten(d) <==> |p| > 0 && Entry(p, v) in es && Uncovered(es, p)
    {
      FlattenIsLookup(d, p, v);
      if |p| > 0 {
        assert Lookup(d, p) == Some(Leaf(v)) <==> Entry(p, v) in es && Uncovered(es, p);
      }
    }
    if PrefixFree(es) {
      assert Flatten(d) == Pairs(es);
    } else {
      var i :| 0 <= i < |es| && !Uncovered(es, es[i].path);
      assert (es[i].path, es[i].v) in Pairs(es);
      assert (es[i].path, es[i].v) !in Flatten(d);
    }
  }

  // ------------------------------------------------------------------------
  // Namespace prefixes
  // ------------------------------------------------------------------------

  const FORMATS := {"yaml", "yml", "json", "properties"}

  function GenKey(ns: string, sub: string): string
  {
    var arr := Split(ns);
    if |arr| == 1 then
      if ns == "" then sub else ns + "." + sub
    else if arr[|arr| - 1] in FORMATS then Join(arr[..|arr| - 1]) + "." + sub
    else ns + "." + sub
  }

  /** The segments a namespace contributes: all of it, less a known format suffix. */
  function NamespacePath(ns: string): seq<string>
  {
    var arr := Split(ns);
    if ns == "" then []
    else if |arr| > 1 && arr[|arr| - 1] in FORMATS then arr[..|arr| - 1]
    else arr
  }

  predicate DotFree(s: string)
  {
    '.' !in s
  }

  lemma {:induction false} SegmentsAreDotFree(s: string)
    ensures forall i :: 0 <= i < |Split(s)| ==> DotFree(Split(s)[i])
  {
    if |s| > 0 {
      SegmentsAreDotFree(s[1..]);
    }
  }

  lemma {:induction false} SplitOfDotFree(s: string)
    requires DotFree(s)
    ensures Split(s) == [s]
  {
    if |s| > 0 {
      SplitOfDotFree(s[1..]);
      assert s == [s[0]] + s[1..];
    }
  }

  lemma {:induction false} SplitOfJoin(p: Path)
    requires forall i :: 0 <= i < |p| ==> DotFree(p[i])
    ensures Split(Join(p)) == p
  {
    SplitOfDotFree(p[0]);
    if |p| > 1 {
      SplitOfJoin(p[1..]);
      SplitOfDotted(p[0], Join(p[1..]));
      assert p == [p[0]] + p[1..];
    }
  }

  /** A generated key is the namespace's segments followed by the sub-key's. */
  lemma {:induction false} GenKeyPath(ns: string, sub: string)
    ensures Split(GenKey(ns, sub)) == NamespacePath(ns) + Split(sub)
  {
    var arr := Split(ns);
    SplitOfDotted(ns, sub);
    if |arr| > 1 && arr[|arr| - 1] in FORMATS {
      var head := arr[..|arr| - 1];
      SegmentsAreDotFree(ns);
      SplitOfJoin(head);
      SplitOfDotted(Join(head), sub);
    }
    if ns == "" {
      assert NamespacePath(ns) + Split(sub) == Split(sub);
    }
  }

  /** The extension of a namespace is dropped exactly when it is a known configuration format. */
  lemma {:induction false} FormatDropped(name: string, ext: string, sub: string)
    requires DotFree(ext)
    ensures GenKey(name + "." + ext, sub) ==
            if ext in {"yaml", "yml", "json", "properties"} then name + "." + sub else name + "." + ext + "." + sub
  {
    SplitOfDotted(name, ext);
    SplitOfDotFree(ext);
    JoinOfSplit(name);
    var arr := Split(name + "." + ext);
    assert arr == Split(name) + [ext] && arr[..|arr| - 1] == Split(name);
  }

  /** A namespace without an extension is kept whole, and an empty one adds nothing. */
  lemma {:induction false} PlainNamespaceKept(ns: string, sub: string)
    requires DotFree(ns)
    ensures GenKey(ns, sub) == if ns == "" then sub else ns + "." + sub
  {
    SplitOfDotFree(ns);
  }

  /** Prefixing with a namespace preserves distinctness of keys and both directions of the proper
      prefix relation between them. */
  lemma {:induction false} GenKeyPreserves(ns: string, a: string, b: string)
    ensures GenKey(ns, a) == GenKey(ns, b) <==> a == b
    ensures ProperPrefix(Split(GenKey(ns, a)), Split(GenKey(ns, b))) <==> ProperPrefix(Split(a), Split(b))
  {
    GenKeyPath(ns, a);
    GenKeyPath(ns, b);
    var n, x, y := NamespacePath(ns), Split(a), Split(b);
    assert (n + x)[|n|..] == x && (n + y)[|n|..] == y;
    if Split(GenKey(ns, a)) == Split(GenKey(ns, b)) {
      SplitInjective(a, b);
    }
    if n + x < n + y {
      assert forall i :: 0 <= i < |x| ==> x[i] == (n + x)[|n| + i] == (n + y)[|n| + i] == y[i];
    }
  }

  // ------------------------------------------------------------------------
  // A whole namespace
  // ------------------------------------------------------------------------

  datatype KeyValue = KeyValue(key: string, v: Scalar)

  function EntryOf(ns: string, kv: KeyValue): Entry
  {
    Entry(Split(GenKey(ns, kv.key)), kv.v)
  }

  function Entries(ns: string, kvs: seq<KeyValue>): (es: seq<Entry>)
    ensures |es| == |kvs|
  {
    seq(|kvs|, i requires 0 <= i < |kvs| => EntryOf(ns, kvs[i]))
  }

  /** The nested map built from a namespace's cache, visited in the order `kvs`. */
  function Config(ns: string, kvs: seq<KeyValue>): Dir
  {
    InsertAll(map[], Entries(ns, kvs))
  }

  ghost predicate DistinctKeys(kvs: seq<KeyValue>)
  {
    forall i, j :: 0 <= i < j < |kvs| ==> kvs[i].key != kvs[j].key
  }

  /** No key of the namespace is a proper dotted prefix of another. */
  ghost predicate PrefixFreeKeys(kvs: seq<KeyValue>)
  {
    forall i, j :: 0 <= i < |kvs| && 0 <= j < |kvs| ==> !ProperPrefix(Split(kvs[i].key), Split(kvs[j].key))
  }

  /** The cache is a map, so its keys are distinct: the configuration does not depend on the order in
      which the cache is visited, and it flattens back to exactly the namespaced pairs if and only if
      the namespace's keys are prefix-free. */
  lemma {:induction false} ConfigRoundTrip(ns: string, kvs: seq<KeyValue>, kws: seq<KeyValue>)
    requires DistinctKeys(kvs) && multiset(kvs) == multiset(kws)
    ensures Config(ns, kvs) == Config(ns, kws)
    ensures Flatten(Config(ns, kvs)) == Pairs(Entries(ns, kvs)) <==> PrefixFreeKeys(kvs)
  {
    var es, fs := Entries(ns, kvs), Entries(ns, kws);
    forall i, j | 0 <= i < |kvs| && 0 <= j < |kvs|
      ensures es[i].path == es[j].path <==> kvs[i].key == kvs[j].key
      ensures ProperPrefix(es[i].path, es[j].path) <==> ProperPrefix(Split(kvs[i].key), Split(kvs[j].key))
    {
      GenKeyPreserves(ns, kvs[i].key, kvs[j].key);
      if es[i].path == es[j].path {
        SplitInjective(GenKey(ns, kvs[i].key), GenKey(ns, kvs[j].key));
      }
    }
    EntriesPermute(ns, kvs, kws);
    OrderIrrelevant(map[], es, fs);
    FlattenRoundTrip(es);
    assert PrefixFree(es) <==> PrefixFreeKeys(kvs);
  }

  lemma {:induction false} EntriesWithout(ns: string, kvs: seq<KeyValue>, i: nat)
    requires i < |kvs|
    ensures multiset(Entries(ns, kvs)) == multiset{EntryOf(ns, kvs[i])} + multiset(Entries(ns, kvs[..i] + kvs[i + 1..]))
  {
    var es := Entries(ns, kvs);
    assert Entries(ns, kvs[..i] + kvs[i + 1..]) == es[..i] + es[i + 1..];
    assert es == es[..i] + [es[i]] + es[i + 1..];
  }

  lemma {:induction false} EntriesTail(ns: string, kvs: seq<KeyValue>)
    requires |kvs| > 0
    ensures multiset(Entries(ns, kvs)) == multiset{EntryOf(ns, kvs[0])} + multiset(Entries(ns, kvs[1..]))
  {
    var e, rest := EntryOf(ns, kvs[0]), Entries(ns, kvs[1..]);
    assert Entries(ns, kvs) == [e] + rest;
  }

  lemma {:induction false} FindHead<T>(es: seq<T>, fs: seq<T>) returns (i: nat)
    requires |es| > 0 && multiset(es) == multiset(fs)
    ensures i < |fs| && fs[i] == es[0]
    ensures multiset(es[1..]) == multiset(fs[..i] + fs[i + 1..])
  {
    assert es[0] in multiset(fs);
    i :| 0 <= i < |fs| && fs[i] == es[0];
    RemoveMember(es, fs, i);
  }

  lemma {:induction false} EntriesPermute(ns: string, kvs: seq<KeyValue>, kws: seq<KeyValue>)
    requires multiset(kvs) == multiset(kws)
    ensures multiset(Entries(ns, kvs)) == multiset(Entries(ns, kws))
    decreases |kvs|
  {
    if |kvs| == 0 {
      assert |multiset(kws)| == 0;
      assert kvs == kws;
    } else {
      var i := FindHead(kvs, kws);
      EntriesTail(ns, kvs);
      EntriesWithout(ns, kws, i);
      EntriesPermute(ns, kvs[1..], kws[..i] + kws[i + 1..]);
    }
  }
}
