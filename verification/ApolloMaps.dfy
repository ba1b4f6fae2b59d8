/** `resolve` on nested maps in the heap, updated in place. The cursor of the source is the receiver
    of the next call. */
module ApolloMaps {
  import opened Apollo

  /** What a `map[string]any` holds under a key. */
  datatype Slot = Plain(v: Scalar) | Nested(m: MapObject)

  class MapObject {
    var entries: map<string, Slot>
    ghost var tree: Dir
    ghost var repr: set<MapObject>

    /** The object and everything below it is a tree of maps whose value is `tree`. */
    ghost predicate Valid()
      reads this, repr
      ensures Valid() ==> this in repr
      decreases repr, 1
    {
      && this in repr
      && tree.Keys == entries.Keys
      && (forall k :: k in entries ==> SlotOk(k))
      && (forall k, k' :: k in entries && k' in entries && k != k' ==> Apart(k, k'))
    }

    ghost predicate SlotOk(k: string)
      requires this in repr && k in entries
      reads this, repr
      decreases repr, 0
    {
      && k in tree
      && match entries[k]
         case Plain(v) => tree[k] == Leaf(v)
         case Nested(m) =>
           && m in repr && m.repr <= repr && this !in m.repr
           && m.Valid() && tree[k] == Node(m.tree)
    }

    /** The maps nested under two keys share nothing. */
    ghost predicate Apart(k: string, k': string)
      requires k in entries && k' in entries
      reads this, repr
    {
      entries[k].Nested? && entries[k'].Nested? && entries[k].m in repr && entries[k'].m in repr ==>
        entries[k].m.repr !! entries[k'].m.repr
    }

    constructor ()
      ensures Valid() && fresh(repr) && tree == map[]
    {
      entries, tree, repr := map[], map[], {this};
    }

    method PutPlain(k: string, value: Scalar)
      requires Valid()
      modifies this
      ensures Valid() && repr == old(repr) && tree == old(tree)[k := Leaf(value)]
    {
      entries := entries[k := Plain(value)];
      tree := tree[k := Leaf(value)];
      forall j | j in entries
        ensures SlotOk(j)
      {
        if j != k {
          assert old(SlotOk(j));
        }
      }
      forall j, j' | j in entries && j' in entries && j != j'
        ensures Apart(j, j')
      {
        if j != k && j' != k {
          assert old(Apart(j, j'));
        }
      }
    }

    /** Hangs `m` under `k`, or takes note of a change below the map that already hangs there. */
    method PutNested(k: string, m: MapObject)
      requires this in repr && tree.Keys == entries.Keys
      requires forall j :: j in entries && j != k ==> SlotOk(j)
      requires forall j, j' :: j in entries && j' in entries && j != j' && j != k && j' != k ==> Apart(j, j')
      requires m.Valid() && this !in m.repr
      requires forall j :: j in entries && j != k && entries[j].Nested? ==> entries[j].m.repr !! m.repr
      modifies this
      ensures Valid() && repr == old(repr) + m.repr && tree == old(tree)[k := Node(m.tree)]
    {
      entries := entries[k := Nested(m)];
      tree := tree[k := Node(m.tree)];
      repr := repr + m.repr;
      forall j | j in entries
        ensures SlotOk(j)
      {
        if j != k {
          assert old(SlotOk(j));
        }
      }
      forall j, j' | j in entries && j' in entries && j != j'
        ensures Apart(j, j')
      {
        if j != k && j' != k {
          assert old(Apart(j, j'));
        }
      }
    }

    method Walk(keys: Path, value: Scalar)
      requires Valid()
      modifies repr
      ensures Valid() && fresh(repr - old(repr))
      ensures tree == Insert(old(tree), keys, Leaf(value))
      decreases |keys|, 1
    {
      var k := keys[0];
      if |keys| == 1 {
        PutPlain(k, value);
      } else if k !in entries {
        var deeper := new MapObject();
        deeper.Walk(keys[1..], value);
        PutNested(k, deeper);
      } else {
        assert SlotOk(k);
        match entries[k]
        case Plain(_) =>
        case Nested(m) =>
          Below(k, m, keys[1..], value);
          PutNested(k, m);
      }
    }

    /** Walks on below the map nested under `k`; its siblings are untouched. */
    method Below(k: string, m: MapObject, keys: Path, value: Scalar)
      requires Valid() && k in entries && entries[k] == Nested(m)
      modifies m.repr
      ensures m.Valid() && fresh(m.repr - old(m.repr)) && this !in m.repr
      ensures old(tree)[k] == Node(old(m.tree)) && m.tree == Insert(old(m.tree), keys, Leaf(value))
      ensures entries == old(entries) && tree == old(tree) && repr == old(repr)
      ensures forall j :: j in entries && j != k ==> SlotOk(j)
      ensures forall j, j' :: j in entries && j' in entries && j != j' && j != k && j' != k ==> Apart(j, j')
      ensures forall j :: j in entries && j != k && entries[j].Nested? ==> entries[j].m.repr !! m.repr
      decreases |keys| + 1, 0
    {
      assert SlotOk(k);
      forall j | j in entries && j != k && entries[j].Nested?
        ensures entries[j].m.repr !! m.repr && entries[j].m in entries[j].m.repr
      {
        assert SlotOk(j) && Apart(j, k);
      }
      m.Walk(keys, value);
      forall j | j in entries && j != k && entries[j].Nested?
        ensures entries[j].m.repr == old(entries[j].m.repr)
      {
        assert old(entries[j].m in entries[j].m.repr);
      }
      forall j | j in entries && j != k
        ensures SlotOk(j)
      {
        assert old(SlotOk(j));
      }
      forall j, j' | j in entries && j' in entries && j != j' && j != k && j' != k
        ensures Apart(j, j')
      {
        assert old(Apart(j, j'));
      }
    }
  }

  method Resolve(key: string, value: Scalar, target: MapObject)
    requires target.Valid()
    modifies target.repr
    ensures target.Valid() && fresh(target.repr - old(target.repr))
    ensures target.tree == Insert(old(target.tree), Split(key), Leaf(value))
  {
    target.Walk(Split(key), value);
  }

  /** The whole namespace, in whatever order its cache is visited. */
  method GetConfig(ns: string, kvs: seq<KeyValue>) returns (next: MapObject)
    ensures fresh(next) && next.Valid() && fresh(next.repr) && next.tree == Config(ns, kvs)
  {
    next := new MapObject();
    for i := 0 to |kvs|
      invariant fresh(next.repr) && next.Valid()
      invariant next.tree == InsertAll(map[], Entries(ns, kvs)[..i])
    {
      Resolve(GenKey(ns, kvs[i].key), kvs[i].v, next);
      var es := Entries(ns, kvs);
      assert es[..i + 1] == es[..i] + [es[i]];
      InsertAllSplit(map[], es[..i], [es[i]]);
      assert [es[i]][1..] == [];
    }
    assert Entries(ns, kvs)[..|kvs|] == Entries(ns, kvs);
  }
}
