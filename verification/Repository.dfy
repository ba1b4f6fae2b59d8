/** Tenant injection and select-then-delete on a simple-primary-key table. Conditions are abstract
    syntax whose placeholders take arguments by position, left to right. */
module Repository {
  import opened Common
  import C = Columns

  datatype Result<T> = Ok(value: T) | MissingViewer | InvalidRequest | NotFound | QueryFailed | DeleteFailed

  const TENANT := "tenant_id"

  /** A WHERE fragment: opaque caller text with `holes` placeholders, an IN list over a column, the
      injected tenant predicate, or a parenthesised fragment AND another. */
  datatype Cond =
    | Fragment(holes: nat, test: (C.Row, seq<C.Dyn>) -> bool)
    | In(column: string, holes: nat)
    | TenantEq
    | And(left: Cond, right: Cond)

  function Holes(c: Cond): nat
  {
    match c
    case Fragment(n, _) => n
    case In(_, n) => n
    case TenantEq => 1
    case And(l, r) => Holes(l) + Holes(r)
  }

  /** The server compares integers by value, whatever their width. */
  predicate SameValue(a: C.Dyn, b: C.Dyn)
  {
    a == b || (a.DInt? && b.DInt? && a.n == b.n)
  }

  predicate Listed(x: C.Dyn, args: seq<C.Dyn>)
  {
    exists i :: 0 <= i < |args| && SameValue(x, args[i])
  }

  predicate Eval(c: Cond, args: seq<C.Dyn>, row: C.Row)
    requires |args| == Holes(c)
  {
    match c
    case Fragment(_, test) => test(row, args)
    case In(col, _) => C.Lower(col) in row && Listed(row[C.Lower(col)], args)
    case TenantEq => TENANT in row && SameValue(row[TENANT], args[0])
    case And(l, r) => Eval(l, args[..Holes(l)], row) && Eval(r, args[Holes(l)..], row)
  }

  /** An absent condition holds of every row. */
  predicate Satisfies(where: Option<Cond>, args: seq<C.Dyn>, row: C.Row)
    requires where.Some? ==> |args| == Holes(where.value)
  {
    where.None? || Eval(where.value, args, row)
  }

  /** Who is asking; tenant ids are 64-bit unsigned. */
  datatype Viewer = Absent | Unrestricted | Tenant(id: nat)

  const TWO32 := 0x1_0000_0000
  const TWO63 := 0x8000_0000_0000_0000
  const TWO64 := 0x1_0000_0000_0000_0000

  /** Go's conversion of a uint64 to an int64. */
  function Int64(n: nat): int
  {
    var m := n % TWO64;
    if m < TWO63 then m else m - TWO64
  }

  function Int64Arg(id: nat): C.Dyn
  {
    C.DInt(C.W64, Int64(id))
  }

  function Inject(scoped: bool, viewer: Viewer, where: Option<Cond>, args: seq<C.Dyn>)
    : Result<(Option<Cond>, seq<C.Dyn>)>
  {
    if !scoped then Ok((where, args))
    else
      match viewer
      case Absent => MissingViewer
      case Unrestricted => Ok((where, args))
      case Tenant(id) =>
        var c := if where.None? then TenantEq else And(where.value, TenantEq);
        Ok((Some(c), args + [Int64Arg(id)]))
  }

  /** What the injection is for: the row belongs to the viewer's tenant, where that matters. */
  predicate Permitted(scoped: bool, viewer: Viewer, row: C.Row)
  {
    scoped && viewer.Tenant? ==> TENANT in row && SameValue(row[TENANT], Int64Arg(viewer.id))
  }

  /** An injected condition means the caller's condition and the tenant condition; each argument stays
      bound to its own placeholder. Only a missing viewer on a scoped entity is refused. */
  lemma {:induction false} InjectMeans(scoped: bool, viewer: Viewer, where: Option<Cond>, args: seq<C.Dyn>)
    requires |args| == if where.None? then 0 else Holes(where.value)
    ensures Inject(scoped, viewer, where, args).Ok? <==> !(scoped && viewer.Absent?)
    ensures var r := Inject(scoped, viewer, where, args);
            r.Ok? ==>
              && (r.value.0.Some? ==> |r.value.1| == Holes(r.value.0.value))
              && args <= r.value.1
              && forall row :: Satisfies(r.value.0, r.value.1, row) <==>
                               Satisfies(where, args, row) && Permitted(scoped, viewer, row)
  {
    if scoped && viewer.Tenant? && where.Some? {
      var all := args + [Int64Arg(viewer.id)];
      var h, c := Holes(where.value), And(where.value, TenantEq);
      assert all[..h] == args && all[h..] == [Int64Arg(viewer.id)];
      forall row
        ensures Eval(c, all, row) <==> Eval(where.value, args, row) && Permitted(scoped, viewer, row)
      {
        assert Eval(TenantEq, all[h..], row) <==> Permitted(scoped, viewer, row);
        assert Eval(c, all, row) <==> Eval(where.value, all[..h], row) && Eval(TenantEq, all[h..], row);
      }
    }
  }

  /** The conversion keeps the value modulo 2^64 and lands in the signed range. */
  lemma Int64Means(n: nat)
    requires n < 0x1_0000_0000_0000_0000
    ensures -0x8000_0000_0000_0000 <= Int64(n) < 0x8000_0000_0000_0000
    ensures Int64(n) == n || Int64(n) == n - 0x1_0000_0000_0000_0000
  {
  }

  // ------------------------------------------------------------------------
  // The table
  // ------------------------------------------------------------------------

  type Table = map<C.Dyn, C.Row>

  /** Each row carries its own primary key under the folded key column. */
  ghost predicate Keyed(t: Table, pk: string)
  {
    forall k :: k in t ==> C.Lower(pk) in t[k] && t[k][C.Lower(pk)] == k
  }

  function Matching(t: Table, where: Option<Cond>, args: seq<C.Dyn>): set<C.Dyn>
    requires where.Some? ==> |args| == Holes(where.value)
  {
    set k | k in t && Satisfies(where, args, t[k])
  }

  /** A column of a result row, under its own name or its folded one. */
  function RowColumnValue(row: C.Row, name: string): Option<C.Dyn>
  {
    if name in row then Some(row[name])
    else if C.Lower(name) in row then Some(row[C.Lower(name)])
    else None
  }

  /** A column is found under its own name first, then under its folded name, and nowhere else. */
  lemma {:induction false} ColumnFound(row: C.Row, name: string, v: C.Dyn)
    ensures RowColumnValue(row[name := v], name) == Some(v)
    ensures name !in row ==> RowColumnValue(row, name) == RowColumnValue(row, C.Lower(name))
    ensures RowColumnValue(row, name) == None <==> name !in row && C.Lower(name) !in row
  {
    C.LowerTwice(name);
  }

  function Values(rows: seq<C.Row>, pk: string): set<Option<C.Dyn>>
  {
    set i | 0 <= i < |rows| :: RowColumnValue(rows[i], pk)
  }

  function Somes(keys: set<C.Dyn>): set<Option<C.Dyn>>
  {
    set k | k in keys :: Some(k)
  }

  /** The caller's condition and the tenant condition together. */
  predicate Targeted(scoped: bool, viewer: Viewer, where: Option<Cond>, args: seq<C.Dyn>, row: C.Row)
    requires where.Some? ==> |args| == Holes(where.value)
  {
    Satisfies(where, args, row) && Permitted(scoped, viewer, row)
  }

  lemma {:induction false} InjectedMatches(t: Table, scoped: bool, viewer: Viewer, where: Option<Cond>, args: seq<C.Dyn>)
    requires |args| == if where.None? then 0 else Holes(where.value)
    ensures Inject(scoped, viewer, where, args).Ok? <==> !(scoped && viewer.Absent?)
    ensures var r := Inject(scoped, viewer, where, args);
            r.Ok? ==>
              && (r.value.0.Some? ==> |r.value.1| == Holes(r.value.0.value))
              && Matching(t, r.value.0, r.value.1) == set k | k in t && Targeted(scoped, viewer, where, args, t[k])
  {
    InjectMeans(scoped, viewer, where, args);
  }

  lemma DeletedExactly(t: Table, keys: set<C.Dyn>)
    requires keys <= t.Keys
    ensures forall k :: k in Without(t, keys) <==> k in t && k !in keys
    ensures forall k :: k in Without(t, keys) ==> Without(t, keys)[k] == t[k]
    ensures t.Keys - Without(t, keys).Keys == keys
  {
  }

  /** How a delete plan ends: the select fails, or there is something to delete and that fails, or it
      succeeds. */
  predicate Ends(r: Result<nat>, selectOk: bool, deleteOk: bool, some: bool)
  {
    && (r == QueryFailed <==> !selectOk)
    && (r == DeleteFailed <==> selectOk && !deleteOk && some)
    && (r.Ok? <==> selectOk && (deleteOk || !some))
  }

  /** What deleting in place by the same condition would leave. */
  function Without(t: Table, keys: set<C.Dyn>): Table
  {
    t - keys
  }

  class Repo {
    const pk: string
    const scoped: bool
    var table: Table

    constructor (pk: string, scoped: bool, table: Table)
      ensures this.pk == pk && this.scoped == scoped && this.table == table
    {
      this.pk, this.scoped, this.table := pk, scoped, table;
    }

    /** SELECT pk: one result row per matching row, in an order of the server's choosing. */
    method SelectKeys(where: Option<Cond>, args: seq<C.Dyn>) returns (rows: seq<C.Row>)
      requires where.Some? ==> |args| == Holes(where.value)
      ensures |rows| == |Matching(table, where, args)|
      ensures forall i :: 0 <= i < |rows| ==> rows[i].Keys == {C.Lower(pk)}
      ensures Values(rows, pk) == Somes(Matching(table, where, args))
    {
      rows := [];
      var todo := Matching(table, where, args);
      ghost var done: set<C.Dyn> := {};
      while todo != {}
        invariant done !! todo && done + todo == Matching(table, where, args)
        invariant |rows| == |done|
        invariant forall i :: 0 <= i < |rows| ==> rows[i].Keys == {C.Lower(pk)}
        invariant Values(rows, pk) == Somes(done)
      {
        var k :| k in todo;
        var row: C.Row := map[C.Lower(pk) := k];
        assert RowColumnValue(row, pk) == Some(k);
        AppendValue(rows, row, pk, done, k);
        rows := rows + [row];
        todo, done := todo - {k}, done + {k};
      }
    }

    /** The loop that reads the keys off the result rows, then DELETE ... IN. */
    method DeleteRows(rows: seq<C.Row>, deleteOk: bool) returns (r: Result<nat>)
      requires forall i :: 0 <= i < |rows| ==> RowColumnValue(rows[i], pk).Some?
      modifies this
      ensures r == if rows == [] || deleteOk then Ok(|rows|) else DeleteFailed
      ensures table == if r.Ok? then Without(old(table), set i | 0 <= i < |rows| :: RowColumnValue(rows[i], pk).value)
                       else old(table)
    {
      if |rows| == 0 {
        return Ok(0);
      }
      var deletable: seq<C.Dyn> := [];
      for i := 0 to |rows|
        invariant |deletable| == i
        invariant forall j :: 0 <= j < i ==> RowColumnValue(rows[j], pk) == Some(deletable[j])
      {
        var v := RowColumnValue(rows[i], pk);
        if v.Some? {
          deletable := deletable + [v.value];
        }
      }
      if !deleteOk {
        return DeleteFailed;
      }
      var gone := set j | 0 <= j < |deletable| :: deletable[j];
      table := Without(table, gone);
      return Ok(|deletable|);
    }

    method SelectThenDelete(where: Option<Cond>, args: seq<C.Dyn>, selectOk: bool, deleteOk: bool) returns (r: Result<nat>)
      requires where.Some? ==> |args| == Holes(where.value)
      modifies this
      ensures var m := Matching(old(table), where, args);
              && r == (if !selectOk then QueryFailed else if m == {} || deleteOk then Ok(|m|) else DeleteFailed)
              && table == if r.Ok? then Without(old(table), m) else old(table)
    {
      if !selectOk {
        return QueryFailed;
      }
      var rows := SelectKeys(where, args);
      KeysRead(rows, pk, Matching(table, where, args));
      r := DeleteRows(rows, deleteOk);
    }

    /** Removes exactly the rows that satisfy the caller's condition and the tenant condition, leaves
        every other row as it was, and returns how many it removed; on any error nothing changes. */
    method DeleteByWhere(viewer: Viewer, where: Option<Cond>, args: seq<C.Dyn>, selectOk: bool, deleteOk: bool)
      returns (r: Result<nat>)
      requires |args| == if where.None? then 0 else Holes(where.value)
      modifies this
      ensures where.None? ==> r == InvalidRequest
      ensures r == MissingViewer <==> where.Some? && scoped && viewer.Absent?
      ensures where.Some? && !(scoped && viewer.Absent?) ==>
                Ends(r, selectOk, deleteOk, exists k :: k in old(table) && Targeted(scoped, viewer, where, args, old(table)[k]))
      ensures r.Ok? ==>
                forall k :: k in table <==> k in old(table) && !Targeted(scoped, viewer, where, args, old(table)[k])
      ensures forall k :: k in table ==> k in old(table) && table[k] == old(table)[k]
      ensures r.Ok? ==> r.value == |old(table).Keys - table.Keys|
      ensures !r.Ok? ==> table == old(table)
    {
      if where.None? {
        return InvalidRequest;
      }
      InjectedMatches(table, scoped, viewer, where, args);
      var injected := Inject(scoped, viewer, where, args);
      if !injected.Ok? {
        return MissingViewer;
      }
      var (where', args') := injected.value;
      ghost var gone := Matching(table, where', args');
      r := SelectThenDelete(where', args', selectOk, deleteOk);
      DeletedExactly(old(table), gone);
    }

    /** Removes exactly the permitted rows whose key is listed; a key listed twice counts once. */
    method DeleteByPKValues(viewer: Viewer, pks: seq<C.Dyn>, selectOk: bool, deleteOk: bool) returns (r: Result<nat>)
      requires Keyed(table, pk)
      modifies this
      ensures pks == [] ==> r == Ok(0)
      ensures r == MissingViewer <==> pks != [] && scoped && viewer.Absent?
      ensures pks != [] && !(scoped && viewer.Absent?) ==>
                Ends(r, selectOk, deleteOk, exists k :: k in old(table) && Listed(k, pks) && Permitted(scoped, viewer, old(table)[k]))
      ensures r.Ok? ==>
                forall k :: k in table <==>
                  k in old(table) && !(Listed(k, pks) && Permitted(scoped, viewer, old(table)[k]))
      ensures forall k :: k in table ==> k in old(table) && table[k] == old(table)[k]
      ensures r.Ok? ==> r.value == |old(table).Keys - table.Keys|
      ensures !r.Ok? ==> table == old(table)
    {
      if |pks| == 0 {
        assert old(table).Keys - table.Keys == {};
        return Ok(0);
      }
      r := DeleteByWhere(viewer, Some(In(pk, |pks|)), pks, selectOk, deleteOk);
    }

    method DeleteByIDs(viewer: Viewer, ids: seq<nat>, selectOk: bool, deleteOk: bool) returns (r: Result<nat>)
      requires Keyed(table, pk) && forall i :: 0 <= i < |ids| ==> ids[i] < TWO64
      modifies this
      ensures ids == [] ==> r == Ok(0)
      ensures r == MissingViewer <==> ids != [] && scoped && viewer.Absent?
      ensures ids != [] && !(scoped && viewer.Absent?) ==>
                Ends(r, selectOk, deleteOk, exists k :: k in old(table) && HasID(k, ids) && Permitted(scoped, viewer, old(table)[k]))
      ensures r.Ok? ==>
                forall k :: k in table <==>
                  k in old(table) && !(HasID(k, ids) && Permitted(scoped, viewer, old(table)[k]))
      ensures forall k :: k in table ==> k in old(table) && table[k] == old(table)[k]
      ensures r.Ok? ==> r.value == |old(table).Keys - table.Keys|
      ensures !r.Ok? ==> table == old(table)
    {
      var pks: seq<C.Dyn> := [];
      for i := 0 to |ids|
        invariant |pks| == i && forall j :: 0 <= j < i ==> pks[j] == Int64Arg(ids[j])
      {
        pks := pks + [C.DInt(C.W64, Int64(ids[i]))];
      }
      ListedByID(ids, pks);
      r := DeleteByPKValues(viewer, pks, selectOk, deleteOk);
    }

    /** Reads one row by its key and checks its tenant on the client; a row of another tenant is reported
        like a missing one. */
    method GetByPK(viewer: Viewer, key: C.Dyn, selectOk: bool) returns (r: Result<C.Row>)
      ensures r.Ok? <==> selectOk && key in table && VerifyTenant(scoped, viewer, table[key]).Ok?
      ensures r.Ok? ==> r.value == table[key]
      ensures r == MissingViewer <==> selectOk && key in table && scoped && viewer.Absent?
      ensures selectOk && key !in table ==> r == NotFound
      ensures selectOk && key in table && !r.Ok? && !viewer.Absent? ==> r == NotFound
      ensures !selectOk ==> r == QueryFailed
    {
      if !selectOk {
        return QueryFailed;
      }
      if key !in table {
        return NotFound;
      }
      match VerifyTenant(scoped, viewer, table[key]) {
        case Ok(_) => return Ok(table[key]);
        case MissingViewer => return MissingViewer;
        case _ => return NotFound;
      }
    }

    method Count(viewer: Viewer, where: Option<Cond>, args: seq<C.Dyn>, selectOk: bool) returns (r: Result<nat>)
      requires |args| == if where.None? then 0 else Holes(where.value)
      ensures r.Ok? ==>
                r.value == |set k | k in table && Targeted(scoped, viewer, where, args, table[k])|
      ensures r.Ok? <==> selectOk && !(scoped && viewer.Absent?)
      ensures r == MissingViewer <==> scoped && viewer.Absent?
      ensures r == QueryFailed <==> !selectOk && !(scoped && viewer.Absent?)
    {
      InjectedMatches(table, scoped, viewer, where, args);
      var injected := Inject(scoped, viewer, where, args);
      if !injected.Ok? {
        return MissingViewer;
      }
      var (where', args') := injected.value;
      if !selectOk {
        return QueryFailed;
      }
      return Ok(|Matching(table, where', args')|);
    }
  }

  /** `k` is one of the ids, converted to int64. */
  predicate HasID(k: C.Dyn, ids: seq<nat>)
  {
    exists i :: 0 <= i < |ids| && SameValue(k, Int64Arg(ids[i]))
  }

  lemma {:induction false} ListedByID(ids: seq<nat>, pks: seq<C.Dyn>)
    requires |pks| == |ids| && forall i :: 0 <= i < |ids| ==> pks[i] == Int64Arg(ids[i])
    ensures forall k :: Listed(k, pks) <==> HasID(k, ids)
  {
    forall k
      ensures Listed(k, pks) <==> HasID(k, ids)
    {
      if Listed(k, pks) {
        var i :| 0 <= i < |pks| && SameValue(k, pks[i]);
        assert SameValue(k, Int64Arg(ids[i]));
      }
      if HasID(k, ids) {
        var i :| 0 <= i < |ids| && SameValue(k, Int64Arg(ids[i]));
        assert SameValue(k, pks[i]);
      }
    }
  }

  lemma {:induction false} AppendValue(rows: seq<C.Row>, row: C.Row, pk: string, done: set<C.Dyn>, k: C.Dyn)
    requires Values(rows, pk) == Somes(done) && RowColumnValue(row, pk) == Some(k)
    ensures Values(rows + [row], pk) == Somes(done + {k})
  {
    var a := Values(rows + [row], pk);
    forall x | x in Somes(done + {k})
      ensures x in a
    {
      if x == Some(k) {
        assert (rows + [row])[|rows|] == row;
      } else {
        assert x in Values(rows, pk);
        var i :| 0 <= i < |rows| && x == RowColumnValue(rows[i], pk);
        assert (rows + [row])[i] == rows[i];
      }
    }
    forall x | x in a
      ensures x in Somes(done + {k})
    {
      var i :| 0 <= i < |rows + [row]| && x == RowColumnValue((rows + [row])[i], pk);
      if i < |rows| {
        assert RowColumnValue(rows[i], pk) in Values(rows, pk);
        assert x in Somes(done);
      }
    }
  }

  lemma {:induction false} KeysRead(rows: seq<C.Row>, pk: string, keys: set<C.Dyn>)
    requires Values(rows, pk) == Somes(keys)
    ensures forall i :: 0 <= i < |rows| ==> RowColumnValue(rows[i], pk).Some?
    ensures (set i | 0 <= i < |rows| :: RowColumnValue(rows[i], pk).value) == keys
  {
    var vals := Values(rows, pk);
    forall i | 0 <= i < |rows|
      ensures RowColumnValue(rows[i], pk).Some? && RowColumnValue(rows[i], pk).value in keys
    {
      assert RowColumnValue(rows[i], pk) in vals;
    }
    forall k | k in keys
      ensures exists i :: 0 <= i < |rows| && RowColumnValue(rows[i], pk).value == k
    {
      assert Some(k) in Somes(keys);
      assert Some(k) in vals;
      var i :| 0 <= i < |rows| && RowColumnValue(rows[i], pk) == Some(k);
    }
  }

  // ------------------------------------------------------------------------
  // Reading by key, and creating
  // ------------------------------------------------------------------------

  /** The tenant of a row, if it carries one that fits in 32 bits. */
  function RowTenantID(row: C.Row): Option<nat>
  {
    if TENANT !in row then None
    else
      match row[TENANT]
      case DInt(w, n) => if (w == C.W64 || w == C.Plain) && 0 <= n < TWO32 then Some(n) else None
      case _ => None
  }

  /** The client-side tenant check of a row fetched by its key. */
  function VerifyTenant(scoped: bool, viewer: Viewer, row: C.Row): Result<()>
  {
    if !scoped then Ok(())
    else
      match viewer
      case Absent => MissingViewer
      case Unrestricted => Ok(())
      case Tenant(id) => if RowTenantID(row) == Some(id % TWO32) then Ok(()) else NotFound
  }

  /** The check by key, case by case: only a missing viewer on a scoped entity is an error, unscoped
      entities and unrestricted viewers pass, and a tenant passes exactly on rows whose 64-bit or plain
      integer tenant fits in 32 bits and equals its id modulo 2^32. */
  lemma VerifyMeans(scoped: bool, viewer: Viewer, row: C.Row)
    ensures !scoped || viewer.Unrestricted? ==> VerifyTenant(scoped, viewer, row) == Ok(())
    ensures scoped && viewer.Absent? ==> VerifyTenant(scoped, viewer, row) == MissingViewer
    ensures scoped && viewer.Tenant? ==>
              (VerifyTenant(scoped, viewer, row) == Ok(()) <==>
               && "tenant_id" in row && row["tenant_id"].DInt? && row["tenant_id"].w in {C.W64, C.Plain}
               && 0 <= row["tenant_id"].n < 0x1_0000_0000 && (viewer.id - row["tenant_id"].n) % 0x1_0000_0000 == 0)
    ensures scoped && viewer.Tenant? && !VerifyTenant(scoped, viewer, row).Ok? ==>
              VerifyTenant(scoped, viewer, row) == NotFound
  {
  }

  /** The row's tenant column is a bigint, as the mixin writes it. */
  predicate BigintTenant(row: C.Row)
  {
    TENANT in row && row[TENANT].DInt? && row[TENANT].w == C.W64 && -TWO63 <= row[TENANT].n < TWO63
  }

  /** The check by key and the injected condition admit the same rows if and only if the viewer's
      tenant id fits in 32 bits. */
  lemma {:induction false} ChecksAgreeIff(id: nat)
    requires id < TWO64
    ensures (forall row :: BigintTenant(row) ==>
               (VerifyTenant(true, Tenant(id), row).Ok? <==> Permitted(true, Tenant(id), row))) <==> id < TWO32
  {
    if id >= TWO32 {
      var row: C.Row := map[TENANT := C.DInt(C.W64, id % TWO32)];
      assert BigintTenant(row) && VerifyTenant(true, Tenant(id), row).Ok?;
      assert !Permitted(true, Tenant(id), row);
    }
  }

  /** Leaf `i` of the entity is the tenant column of the mixin, stamped by `Create`: the mixin stores
      the viewer's tenant id truncated to 32 bits. */
  ghost predicate Stamped(ls: seq<C.Leaf>, i: nat, id: nat)
  {
    i < |ls| && C.Lower(ls[i].name) == TENANT && ls[i].ty == C.TInt(C.W64) && !ls[i].isPK && ls[i].v == C.VInt(id % TWO32)
  }

  lemma {:induction false} StampedRow(fs: seq<C.Field>, vs: seq<C.Val>, k: nat, i: nat, id: nat)
    requires C.AllTyped(fs, vs) && C.OneKey(C.Leaves(fs, vs), k) && C.Insertable(C.Leaves(fs, vs), k)
    requires Stamped(C.Leaves(fs, vs), i, id)
    ensures C.Inserted(fs, vs, k).Ok?
    ensures var row := C.Inserted(fs, vs, k).value; TENANT in row && row[TENANT] == C.DInt(C.W64, id % TWO32)
  {
    C.InsertedIff(fs, vs, k);
    C.InsertedHolds(fs, vs, k);
    assert C.RowHolds(C.Inserted(fs, vs, k).value, C.Leaves(fs, vs)[i]);
  }

  lemma TenantOf(row: C.Row, id: nat)
    requires id < TWO64 && TENANT in row && row[TENANT] == C.DInt(C.W64, id % TWO32)
    ensures Permitted(true, Tenant(id), row) <==> id < TWO32
    ensures VerifyTenant(true, Tenant(id), row).Ok?
    ensures forall other :: 0 <= other < TWO32 && other != id % TWO32 ==> !Permitted(true, Tenant(other), row)
  {
  }

  /** A tenant finds what it creates by a query if and only if its id fits in 32 bits; by key it always
      does. Below that bound the row belongs to that tenant and to no other. */
  lemma {:induction false} CreatedIsVisibleIff(fs: seq<C.Field>, vs: seq<C.Val>, k: nat, i: nat, id: nat)
    requires C.AllTyped(fs, vs) && C.OneKey(C.Leaves(fs, vs), k) && C.Insertable(C.Leaves(fs, vs), k)
    requires Stamped(C.Leaves(fs, vs), i, id) && id < TWO64
    ensures C.Inserted(fs, vs, k).Ok?
    ensures var row := C.Inserted(fs, vs, k).value;
            && (Permitted(true, Tenant(id), row) <==> id < TWO32)
            && VerifyTenant(true, Tenant(id), row).Ok?
            && forall other :: 0 <= other < TWO32 && other != id % TWO32 ==> !Permitted(true, Tenant(other), row)
  {
    StampedRow(fs, vs, k, i, id);
    TenantOf(C.Inserted(fs, vs, k).value, id);
  }
}
