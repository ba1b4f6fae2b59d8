/** Mapping between entities and Cassandra rows. Reflection is made explicit: a `Type` describes a Go
    type, a `Val` is a value of it, and a `Dyn` is what an `any` carries, dynamic type included.
    Nil and empty collections are the same value here.
  */
module Columns {
  import opened Common

  datatype Result<T> = Ok(value: T) | Err

  datatype Width = Plain | W8 | W16 | W32 | W64

  datatype Type =
    | TBool
    | TInt(w: Width)
    | TFloat(single: bool)
    | TString
    | TTime
    | TUuid
    | TByte
    | TOther
    | TSlice(elem: Type)
    | TMap(key: Type, elem: Type)
    | TStruct(fields: seq<Field>)

  /** The column tag of a field, already parsed. */
  datatype Tag = NoTag | Skip | Named(name: string)

  datatype Field = Field(name: string, ty: Type, anonymous: bool, exported: bool, tag: Tag)

  datatype Val =
    | VBool(b: bool)
    | VInt(n: int)
    | VFloat(r: real)
    | VString(s: string)
    | VTime(t: int)
    | VUuid(u: string)
    | VByte(x: nat)
    | VOther
    | VSlice(xs: seq<Val>)
    | VMap(m: map<string, Val>)
    | VStruct(vs: seq<Val>)

  datatype Dyn =
    | DBool(b: bool)
    | DInt(w: Width, n: int)
    | DFloat(single: bool, r: real)
    | DString(s: string)
    | DTime(t: int)
    | DUuid(u: string)
    | DByte(x: nat)
    | DOther
    | DList(xs: seq<Dyn>)
    | DMap(m: map<string, Dyn>)

  ghost predicate Typed(ty: Type, v: Val)
    decreases v
  {
    match ty
    case TBool => v.VBool?
    case TInt(_) => v.VInt?
    case TFloat(_) => v.VFloat?
    case TString => v.VString?
    case TTime => v.VTime?
    case TUuid => v.VUuid?
    case TByte => v.VByte?
    case TOther => v.VOther?
    case TSlice(e) => v.VSlice? && forall i :: 0 <= i < |v.xs| ==> Typed(e, v.xs[i])
    case TMap(_, e) => v.VMap? && forall k :: k in v.m ==> Typed(e, v.m[k])
    case TStruct(fs) => v.VStruct? && |v.vs| == |fs| && forall i :: 0 <= i < |fs| ==> Typed(fs[i].ty, v.vs[i])
  }

  function Zero(ty: Type): Val
    decreases ty
  {
    match ty
    case TBool => VBool(false)
    case TInt(_) => VInt(0)
    case TFloat(_) => VFloat(0.0)
    case TString => VString("")
    case TTime => VTime(0)
    case TUuid => VUuid("")
    case TByte => VByte(0)
    case TOther => VOther
    case TSlice(_) => VSlice([])
    case TMap(_, _) => VMap(map[])
    case TStruct(fs) => VStruct(Zeros(fs))
  }

  function Zeros(fs: seq<Field>): (vs: seq<Val>)
    ensures |vs| == |fs|
    decreases fs
  {
    if |fs| == 0 then [] else [Zero(fs[0].ty)] + Zeros(fs[1..])
  }

  // ------------------------------------------------------------------------
  // One field: encoding and decoding
  // ------------------------------------------------------------------------

  /** A field value as a bound argument. A plain `int` widens to `int64`; bytes pass as they are. */
  function ValueToArg(ty: Type, v: Val): Result<Dyn>
    requires Typed(ty, v)
    decreases v
  {
    match ty
    case TBool => Ok(DBool(v.b))
    case TInt(w) => Ok(DInt(if w == Plain then W64 else w, v.n))
    case TFloat(single) => Ok(DFloat(single, v.r))
    case TString => Ok(DString(v.s))
    case TTime => Ok(DTime(v.t))
    case TSlice(e) =>
      if e == TByte then
        assert forall i :: 0 <= i < |v.xs| ==> Typed(TByte, v.xs[i]);
        Ok(DList(seq(|v.xs|, i requires 0 <= i < |v.xs| && v.xs[i].VByte? => DByte(v.xs[i].x))))
      else if exists i :: 0 <= i < |v.xs| && ValueToArg(e, v.xs[i]).Err? then Err
      else Ok(DList(seq(|v.xs|, i requires 0 <= i < |v.xs| => ValueToArg(e, v.xs[i]).value)))
    case TMap(key, e) =>
      if key != TString then Err
      else if exists k :: k in v.m && ValueToArg(e, v.m[k]).Err? then Err
      else Ok(DMap(map k | k in v.m :: ValueToArg(e, v.m[k]).value))
    case _ => Err
  }

  /** The scalar a row value sets, only when its dynamic type is exactly the field's. */
  function ScalarOf(ty: Type, d: Dyn): Option<Val>
  {
    match (ty, d)
    case (TBool, DBool(b)) => Some(VBool(b))
    case (TInt(w), DInt(w', n)) => if w == w' then Some(VInt(n)) else None
    case (TFloat(f), DFloat(f', r)) => if f == f' then Some(VFloat(r)) else None
    case (TString, DString(s)) => Some(VString(s))
    case (TTime, DTime(t)) => Some(VTime(t))
    case _ => None
  }

  /** The field after decoding a row value into it; a value of another type leaves it alone. */
  function Decoded(ty: Type, dst: Val, d: Dyn): Val
  {
    match d
    case DUuid(u) => if ty == TUuid then VUuid(u) else if ty == TString then VString(u) else dst
    case DList(xs) =>
      if !ty.TSlice? || exists i :: 0 <= i < |xs| && ScalarOf(ty.elem, xs[i]).None? then dst
      else VSlice(seq(|xs|, i requires 0 <= i < |xs| => ScalarOf(ty.elem, xs[i]).value))
    case DMap(m) =>
      if !ty.TMap? || ty.key != TString || exists k :: k in m && ScalarOf(ty.elem, m[k]).None? then dst
      else VMap(map k | k in m :: ScalarOf(ty.elem, m[k]).value)
    case _ =>
      match ScalarOf(ty, d)
      case Some(v) => v
      case None => dst
  }

  method SetSliceFrom(ty: Type, dst: Val, src: seq<Dyn>) returns (r: Val)
    requires ty.TSlice?
    ensures r == Decoded(ty, dst, DList(src))
  {
    var out: seq<Val> := [];
    for i := 0 to |src|
      invariant |out| == i
      invariant forall j :: 0 <= j < i ==> ScalarOf(ty.elem, src[j]) == Some(out[j])
    {
      var ev := ScalarOf(ty.elem, src[i]);
      if ev.None? {
        return dst;
      }
      out := out + [ev.value];
    }
    r := VSlice(out);
  }

  method SetMapFrom(ty: Type, dst: Val, src: map<string, Dyn>) returns (r: Val)
    requires ty.TMap?
    ensures r == Decoded(ty, dst, DMap(src))
  {
    if ty.key != TString {
      return dst;
    }
    var out: map<string, Val> := map[];
    var todo := src.Keys;
    while todo != {}
      invariant todo <= src.Keys && out.Keys == src.Keys - todo
      invariant forall k :: k in out ==> ScalarOf(ty.elem, src[k]) == Some(out[k])
    {
      var k :| k in todo;
      var ev := ScalarOf(ty.elem, src[k]);
      if ev.None? {
        return dst;
      }
      out := out[k := ev.value];
      todo := todo - {k};
    }
    r := VMap(out);
  }

  /** The scalar types that survive a round trip: everything encodable but the plain `int`. */
  predicate ScalarOk(ty: Type)
  {
    ty.TBool? || (ty.TInt? && ty.w != Plain) || ty.TFloat? || ty.TString? || ty.TTime?
  }

  predicate ColumnOk(ty: Type)
  {
    ScalarOk(ty) || (ty.TSlice? && ScalarOk(ty.elem)) || (ty.TMap? && ty.key == TString && ScalarOk(ty.elem))
  }

  /** The values that can be encoded: scalars of a CQL type, byte slices, and slices and string-keyed maps
      all of whose elements can be. */
  ghost predicate Encodable(ty: Type, v: Val)
    requires Typed(ty, v)
    decreases v
  {
    match ty
    case TBool => true
    case TInt(_) => true
    case TFloat(_) => true
    case TString => true
    case TTime => true
    case TSlice(e) => e == TByte || forall i :: 0 <= i < |v.xs| ==> Encodable(e, v.xs[i])
    case TMap(key, e) => key == TString && forall k :: k in v.m ==> Encodable(e, v.m[k])
    case _ => false
  }

  /** Encoding succeeds exactly on these. */
  lemma {:induction false} EncodesIff(ty: Type, v: Val)
    requires Typed(ty, v)
    ensures ValueToArg(ty, v).Ok? <==> Encodable(ty, v)
    decreases v
  {
    match ty
    case TSlice(e) =>
      forall i | 0 <= i < |v.xs|
        ensures ValueToArg(e, v.xs[i]).Ok? <==> Encodable(e, v.xs[i])
      {
        EncodesIff(e, v.xs[i]);
      }
    case TMap(_, e) =>
      forall k | k in v.m
        ensures ValueToArg(e, v.m[k]).Ok? <==> Encodable(e, v.m[k])
      {
        EncodesIff(e, v.m[k]);
      }
    case _ =>
  }

  /** What an argument carries: the value itself, with a plain `int` widened to 64 bits; for a collection,
      element by element. */
  ghost predicate Carries(ty: Type, v: Val, d: Dyn)
    requires Typed(ty, v)
    decreases v
  {
    match d
    case DBool(b) => ty == TBool && v == VBool(b)
    case DInt(w, n) => (ty == TInt(w) || (ty == TInt(Plain) && w == W64)) && w != Plain && v == VInt(n)
    case DFloat(single, r) => ty == TFloat(single) && v == VFloat(r)
    case DString(x) => ty == TString && v == VString(x)
    case DTime(t) => ty == TTime && v == VTime(t)
    case DList(xs) =>
      && ty.TSlice? && |xs| == |v.xs|
      && forall i :: 0 <= i < |xs| ==> if ty.elem == TByte then xs[i].DByte? && v.xs[i] == VByte(xs[i].x) else Carries(ty.elem, v.xs[i], xs[i])
    case DMap(m) => ty.TMap? && m.Keys == v.m.Keys && forall k :: k in m ==> Carries(ty.elem, v.m[k], m[k])
    case _ => false
  }

  lemma {:induction false} ArgCarries(ty: Type, v: Val)
    requires Typed(ty, v) && Encodable(ty, v)
    ensures ValueToArg(ty, v).Ok? && Carries(ty, v, ValueToArg(ty, v).value)
    decreases v
  {
    EncodesIff(ty, v);
    match ty
    case TSlice(e) =>
      if e != TByte {
        forall i | 0 <= i < |v.xs|
          ensures ValueToArg(e, v.xs[i]).Ok? && Carries(e, v.xs[i], ValueToArg(e, v.xs[i]).value)
        {
          ArgCarries(e, v.xs[i]);
        }
      }
    case TMap(_, e) =>
      forall k | k in v.m
        ensures ValueToArg(e, v.m[k]).Ok? && Carries(e, v.m[k], ValueToArg(e, v.m[k]).value)
      {
        ArgCarries(e, v.m[k]);
      }
    case _ =>
  }

  lemma ScalarRoundTrip(ty: Type, v: Val)
    requires Typed(ty, v) && ValueToArg(ty, v).Ok?
    ensures ScalarOk(ty) ==> ScalarOf(ty, ValueToArg(ty, v).value) == Some(v)
    ensures !ScalarOk(ty) ==> ScalarOf(ty, ValueToArg(ty, v).value) == None
  {
  }

  /** A list decodes to `v` when all its elements do, and to nothing when none does. */
  lemma {:induction false} ListDecodes(e: Type, v: Val, d: Dyn, ok: bool)
    requires v.VSlice? && d.DList? && |d.xs| == |v.xs|
    requires forall i :: 0 <= i < |v.xs| ==> ScalarOf(e, d.xs[i]) == if ok then Some(v.xs[i]) else None
    ensures Decoded(TSlice(e), VSlice([]), d) == v <==> ok || v == VSlice([])
  {
    if |v.xs| > 0 && !ok {
      assert ScalarOf(e, d.xs[0]) == None;
    }
  }

  lemma {:induction false} MapDecodes(e: Type, v: Val, d: Dyn, ok: bool)
    requires v.VMap? && d.DMap? && d.m.Keys == v.m.Keys
    requires forall k :: k in v.m ==> ScalarOf(e, d.m[k]) == if ok then Some(v.m[k]) else None
    ensures Decoded(TMap(TString, e), VMap(map[]), d) == v <==> ok || v == VMap(map[])
  {
    if ok {
      assert (map k | k in d.m :: ScalarOf(e, d.m[k]).value) == v.m;
    } else if v.m != map[] {
      var k :| k in v.m;
      assert ScalarOf(e, d.m[k]) == None;
    }
  }

  lemma {:induction false} SliceRoundTrip(e: Type, v: Val)
    requires Typed(TSlice(e), v) && ValueToArg(TSlice(e), v).Ok?
    ensures Decoded(TSlice(e), VSlice([]), ValueToArg(TSlice(e), v).value) == v <==> ScalarOk(e) || v == VSlice([])
  {
    var d := ValueToArg(TSlice(e), v).value;
    forall i | 0 <= i < |v.xs|
      ensures ScalarOf(e, d.xs[i]) == if ScalarOk(e) then Some(v.xs[i]) else None
    {
      if e != TByte {
        ScalarRoundTrip(e, v.xs[i]);
      }
    }
    ListDecodes(e, v, d, ScalarOk(e));
  }

  lemma {:induction false} MapRoundTrip(e: Type, v: Val)
    requires Typed(TMap(TString, e), v) && ValueToArg(TMap(TString, e), v).Ok?
    ensures Decoded(TMap(TString, e), VMap(map[]), ValueToArg(TMap(TString, e), v).value) == v
            <==> ScalarOk(e) || v == VMap(map[])
  {
    var d := ValueToArg(TMap(TString, e), v).value;
    forall k | k in v.m
      ensures ScalarOf(e, d.m[k]) == if ScalarOk(e) then Some(v.m[k]) else None
    {
      ScalarRoundTrip(e, v.m[k]);
    }
    MapDecodes(e, v, d, ScalarOk(e));
  }

  /** Encoding a field and decoding it into a zero field gives the value back if and only if its
      type is in the supported family or the value is the zero value anyway. */
  lemma {:induction false} FieldRoundTripIff(ty: Type, v: Val)
    requires Typed(ty, v) && Encodable(ty, v)
    ensures ValueToArg(ty, v).Ok?
    ensures Decoded(ty, Zero(ty), ValueToArg(ty, v).value) == v <==> ColumnOk(ty) || v == Zero(ty)
  {
    EncodesIff(ty, v);
    match ty
    case TSlice(e) => SliceRoundTrip(e, v);
    case TMap(_, e) => MapRoundTrip(e, v);
    case _ => ScalarRoundTrip(ty, v);
  }

  // ------------------------------------------------------------------------
  // Column specs
  // ------------------------------------------------------------------------

  datatype Spec = Spec(path: seq<nat>, name: string, ty: Type, isPK: bool)

  function LowerChar(c: char): char
  {
    if 'A' <= c <= 'Z' then (c as int + 32) as char else c
  }

  function Lower(s: string): string
  {
    seq(|s|, i requires 0 <= i < |s| => LowerChar(s[i]))
  }

  predicate Letter(c: char)
  {
    'A' <= c <= 'Z' || 'a' <= c <= 'z' || c == '_'
  }

  predicate Identifier(s: string)
  {
    |s| > 0 && Letter(s[0]) && forall i :: 0 <= i < |s| ==> Letter(s[i]) || '0' <= s[i] <= '9'
  }

  function ColumnName(f: Field): string
  {
    if f.tag.Named? && f.tag.name != "" then f.tag.name else f.name
  }

  predicate IsPK(f: Field)
  {
    Lower(f.name) == "id" || Lower(f.name) == "uuid"
  }

  /** An anonymous field of struct kind is flattened into its parent. */
  predicate Flattened(f: Field)
  {
    f.anonymous && f.ty.TStruct?
  }

  /** A bare time is of struct kind too, and has no exported fields: embedded, it maps to nothing. */
  predicate Mapped(f: Field)
  {
    !(f.anonymous && (f.ty.TStruct? || f.ty.TTime?)) && f.exported && f.tag != Skip
  }

  /** The specs of the fields from `i` on, with paths under `prefix`. */
  function Walk(fs: seq<Field>, prefix: seq<nat>, i: nat): Result<seq<Spec>>
    requires i <= |fs|
    decreases fs, |fs| - i, 1
  {
    if i == |fs| then Ok([])
    else
      var here := Here(fs, prefix, i);
      if here.Err? then Err
      else
        var rest := Walk(fs, prefix, i + 1);
        if rest.Err? then Err else Ok(here.value + rest.value)
  }

  /** The specs of field `i` alone. */
  function Here(fs: seq<Field>, prefix: seq<nat>, i: nat): Result<seq<Spec>>
    requires i < |fs|
    decreases fs, |fs| - i, 0
  {
    var f, path := fs[i], prefix + [i];
    if Flattened(f) then Walk(f.ty.fields, path, 0)
    else if !Mapped(f) then Ok([])
    else if !Identifier(ColumnName(f)) then Err
    else Ok([Spec(path, ColumnName(f), f.ty, IsPK(f))])
  }

  function Collect(fs: seq<Field>): Result<seq<Spec>>
  {
    var w := Walk(fs, [], 0);
    if w.Err? || w.value == [] || !exists i :: 0 <= i < |w.value| && w.value[i].isPK then Err else w
  }

  // ------------------------------------------------------------------------
  // Reading and writing fields by index path
  // ------------------------------------------------------------------------

  predicate ValidPath(v: Val, p: seq<nat>)
  {
    |p| == 0 || (v.VStruct? && p[0] < |v.vs| && ValidPath(v.vs[p[0]], p[1..]))
  }

  function FieldAt(v: Val, p: seq<nat>): Val
    requires ValidPath(v, p)
  {
    if |p| == 0 then v else FieldAt(v.vs[p[0]], p[1..])
  }

  function SetAt(v: Val, p: seq<nat>, x: Val): Val
    requires ValidPath(v, p)
  {
    if |p| == 0 then x else VStruct(v.vs[p[0] := SetAt(v.vs[p[0]], p[1..], x)])
  }

  lemma {:induction false} SetAtLaws(v: Val, p: seq<nat>, x: Val)
    requires ValidPath(v, p)
    ensures ValidPath(SetAt(v, p, x), p) && FieldAt(SetAt(v, p, x), p) == x
    ensures SetAt(v, p, FieldAt(v, p)) == v
  {
    if |p| > 0 {
      SetAtLaws(v.vs[p[0]], p[1..], x);
    }
  }

  lemma {:induction false} SetAtTwice(v: Val, p: seq<nat>, x: Val, y: Val)
    requires ValidPath(v, p)
    ensures ValidPath(SetAt(v, p, x), p) && SetAt(SetAt(v, p, x), p, y) == SetAt(v, p, y)
  {
    if |p| > 0 {
      SetAtTwice(v.vs[p[0]], p[1..], x, y);
    }
  }

  /** Reaching one field further is updating the struct that holds it. */
  lemma {:induction false} SetAtChild(v: Val, p: seq<nat>, i: nat, x: Val)
    requires ValidPath(v, p) && FieldAt(v, p).VStruct? && i < |FieldAt(v, p).vs|
    ensures ValidPath(v, p + [i]) && FieldAt(v, p + [i]) == FieldAt(v, p).vs[i]
    ensures SetAt(v, p + [i], x) == SetAt(v, p, VStruct(FieldAt(v, p).vs[i := x]))
  {
    if |p| == 0 {
      assert p + [i] == [i] && [i][1..] == [];
    } else {
      assert (p + [i])[1..] == p[1..] + [i];
      SetAtChild(v.vs[p[0]], p[1..], i, x);
    }
  }

  // ------------------------------------------------------------------------
  // Decoding a row: the loop over specs and its structural meaning
  // ------------------------------------------------------------------------

  type Row = map<string, Dyn>

  /** One step of the decoding loop. The server folds column names, so row keys are lower case. */
  function DecodeSpec(spec: Spec, dst: Val, row: Row): Val
  {
    if ValidPath(dst, spec.path) && Lower(spec.name) in row
    then SetAt(dst, spec.path, Decoded(spec.ty, FieldAt(dst, spec.path), row[Lower(spec.name)]))
    else dst
  }

  function DecodeSpecs(specs: seq<Spec>, dst: Val, row: Row): Val
  {
    if |specs| == 0 then dst else DecodeSpecs(specs[1..], DecodeSpec(specs[0], dst, row), row)
  }

  /** `lookup` is `row` under folded names. Where two names fold alike, one of them wins. */
  ghost predicate Folds(row: Row, lookup: Row)
  {
    && (forall k :: k in row ==> Lower(k) in lookup)
    && (forall x :: x in lookup ==> exists k :: k in row && Lower(k) == x && row[k] == lookup[x])
  }

  predicate FoldedNames(row: Row)
  {
    forall k :: k in row ==> Lower(k) == k
  }

  /** A row whose names are folded already is its own lookup. */
  lemma {:induction false} FoldsItself(row: Row, lookup: Row)
    requires Folds(row, lookup) && FoldedNames(row)
    ensures lookup == row
  {
    forall x | x in lookup
      ensures x in row && row[x] == lookup[x]
    {
      var k :| k in row && Lower(k) == x && row[k] == lookup[x];
    }
  }

  method Fold(row: Row) returns (lookup: Row)
    ensures Folds(row, lookup)
  {
    lookup := map[];
    var todo := row.Keys;
    ghost var done: Row := map[];
    while todo != {}
      invariant todo <= row.Keys && done == map k | k in row && k !in todo :: row[k]
      invariant Folds(done, lookup)
    {
      var k :| k in todo;
      FoldOne(done, lookup, k, row[k]);
      lookup := lookup[Lower(k) := row[k]];
      todo, done := todo - {k}, done[k := row[k]];
    }
    assert done == row;
  }

  lemma {:induction false} FoldOne(done: Row, lookup: Row, k: string, v: Dyn)
    requires Folds(done, lookup) && k !in done
    ensures Folds(done[k := v], lookup[Lower(k) := v])
  {
    var done', lookup' := done[k := v], lookup[Lower(k) := v];
    forall x | x in lookup'
      ensures exists j :: j in done' && Lower(j) == x && done'[j] == lookup'[x]
    {
      if x == Lower(k) {
        assert k in done' && done'[k] == lookup'[x];
      } else {
        var j :| j in done && Lower(j) == x && done[j] == lookup[x];
        assert j in done' && done'[j] == lookup'[x];
      }
    }
  }

  /** Decodes `row` into `dst`; the folded lookup is returned beside the result. */
  method EntityFromRow(fs: seq<Field>, row: Row, dst: Val) returns (r: Result<Val>, lookup: Row)
    ensures Folds(row, lookup)
    ensures r == if Collect(fs).Err? then Err else Ok(DecodeSpecs(Collect(fs).value, dst, lookup))
  {
    lookup := Fold(row);
    var specs := Collect(fs);
    if specs.Err? {
      return Err, lookup;
    }
    var v := dst;
    for i := 0 to |specs.value|
      invariant DecodeSpecs(specs.value[i..], v, lookup) == DecodeSpecs(specs.value, dst, lookup)
    {
      assert specs.value[i..][1..] == specs.value[i + 1..];
      v := DecodeSpec(specs.value[i], v, lookup);
    }
    r := Ok(v);
  }

  function DecodeField(f: Field, v: Val, row: Row): Val
    requires Typed(f.ty, v)
    decreases v, 1
  {
    if Flattened(f) then VStruct(DecodeFields(f.ty.fields, v.vs, row))
    else if Mapped(f) && Lower(ColumnName(f)) in row then Decoded(f.ty, v, row[Lower(ColumnName(f))])
    else v
  }

  ghost predicate AllTyped(fs: seq<Field>, vs: seq<Val>)
  {
    |fs| == |vs| && forall i :: 0 <= i < |fs| ==> Typed(fs[i].ty, vs[i])
  }

  function DecodeFields(fs: seq<Field>, vs: seq<Val>, row: Row): (r: seq<Val>)
    requires AllTyped(fs, vs)
    ensures |r| == |fs|
    decreases vs, 0
  {
    if |fs| == 0 then [] else [DecodeField(fs[0], vs[0], row)] + DecodeFields(fs[1..], vs[1..], row)
  }

  lemma {:induction false} DecodeSpecsSplit(a: seq<Spec>, b: seq<Spec>, dst: Val, row: Row)
    ensures DecodeSpecs(a + b, dst, row) == DecodeSpecs(b, DecodeSpecs(a, dst, row), row)
  {
    if |a| == 0 {
      assert a + b == b;
    } else {
      assert (a + b)[1..] == a[1..] + b;
      DecodeSpecsSplit(a[1..], b, DecodeSpec(a[0], dst, row), row);
    }
  }

  lemma {:induction false} WalkStep(fs: seq<Field>, prefix: seq<nat>, i: nat)
    requires i < |fs| && Walk(fs, prefix, i).Ok?
    ensures Here(fs, prefix, i).Ok? && Walk(fs, prefix, i + 1).Ok?
    ensures Walk(fs, prefix, i).value == Here(fs, prefix, i).value + Walk(fs, prefix, i + 1).value
  {
  }

  /** The fields before `i` as they are in `vs`, the others decoded. */
  function Partly(fs: seq<Field>, i: nat, vs: seq<Val>, row: Row): Val
    requires i <= |fs| && AllTyped(fs, vs)
  {
    VStruct(vs[..i] + DecodeFields(fs[i..], vs[i..], row))
  }

  lemma {:induction false} TypedUpdate(fs: seq<Field>, vs: seq<Val>, i: nat, x: Val)
    requires AllTyped(fs, vs) && i < |fs| && Typed(fs[i].ty, x)
    ensures AllTyped(fs, vs[i := x])
  {
  }

  lemma {:induction false} DecodeFieldsHead(fs: seq<Field>, i: nat, vs: seq<Val>, row: Row)
    requires i < |fs| && AllTyped(fs, vs)
    ensures DecodeFields(fs[i..], vs[i..], row) ==
            [DecodeField(fs[i], vs[i], row)] + DecodeFields(fs[i + 1..], vs[i + 1..], row)
  {
    assert fs[i..][1..] == fs[i + 1..] && vs[i..][1..] == vs[i + 1..];
  }

  lemma {:induction false} PartlyStep(fs: seq<Field>, i: nat, vs: seq<Val>, row: Row)
    requires i < |fs| && AllTyped(fs, vs)
    ensures var vs' := vs[i := DecodeField(fs[i], vs[i], row)];
            AllTyped(fs, vs') && Partly(fs, i + 1, vs', row) == Partly(fs, i, vs, row)
  {
    var x := DecodeField(fs[i], vs[i], row);
    DecodedTyped(fs[i], vs[i], row);
    TypedUpdate(fs, vs, i, x);
    DecodeFieldsHead(fs, i, vs, row);
    assert vs[i := x][i + 1..] == vs[i + 1..];
    Regroup(vs, i, x, DecodeFields(fs[i + 1..], vs[i + 1..], row));
  }

  lemma {:induction false} Regroup(vs: seq<Val>, i: nat, x: Val, rest: seq<Val>)
    requires i < |vs|
    ensures vs[i := x][..i + 1] + rest == vs[..i] + ([x] + rest)
  {
    assert vs[i := x][..i + 1] == vs[..i] + [x];
  }

  lemma {:induction false} PartlyDone(fs: seq<Field>, vs: seq<Val>, row: Row)
    requires AllTyped(fs, vs)
    ensures Partly(fs, |fs|, vs, row) == VStruct(vs)
  {
    assert vs[..|fs|] + [] == vs;
  }

  lemma {:induction false} DecodeWhole(fs: seq<Field>, vs: seq<Val>, row: Row)
    requires AllTyped(fs, vs)
    ensures Partly(fs, 0, vs, row) == VStruct(DecodeFields(fs, vs, row))
  {
    assert fs[0..] == fs && vs[0..] == vs;
  }

  /** The loop over the flattened specs decodes exactly the fields, wherever they are embedded. */
  lemma {:induction false} DecodeWalk(fs: seq<Field>, prefix: seq<nat>, i: nat, dst: Val, vs: seq<Val>, row: Row)
    requires i <= |fs| && Walk(fs, prefix, i).Ok? && AllTyped(fs, vs)
    requires ValidPath(dst, prefix) && FieldAt(dst, prefix) == VStruct(vs)
    ensures DecodeSpecs(Walk(fs, prefix, i).value, dst, row) == SetAt(dst, prefix, Partly(fs, i, vs, row))
    decreases fs, |fs| - i, 2
  {
    if i == |fs| {
      SetAtLaws(dst, prefix, VStruct(vs));
      PartlyDone(fs, vs, row);
    } else {
      var vs' := vs[i := DecodeField(fs[i], vs[i], row)];
      DecodeWalkStep(fs, prefix, i, dst, vs, row);
      PartlyStep(fs, i, vs, row);
      SetAtLaws(dst, prefix, VStruct(vs'));
      SetAtTwice(dst, prefix, VStruct(vs'), Partly(fs, i, vs, row));
      DecodeWalk(fs, prefix, i + 1, SetAt(dst, prefix, VStruct(vs')), vs', row);
    }
  }

  lemma {:induction false} DecodeWalkStep(fs: seq<Field>, prefix: seq<nat>, i: nat, dst: Val, vs: seq<Val>, row: Row)
    requires i < |fs| && Walk(fs, prefix, i).Ok? && AllTyped(fs, vs)
    requires ValidPath(dst, prefix) && FieldAt(dst, prefix) == VStruct(vs)
    ensures Walk(fs, prefix, i + 1).Ok?
    ensures DecodeSpecs(Walk(fs, prefix, i).value, dst, row) ==
            DecodeSpecs(Walk(fs, prefix, i + 1).value,
                        SetAt(dst, prefix, VStruct(vs[i := DecodeField(fs[i], vs[i], row)])), row)
    decreases fs, |fs| - i, 1
  {
    WalkStep(fs, prefix, i);
    DecodeHere(fs, prefix, i, dst, vs, row);
    DecodeSpecsSplit(Here(fs, prefix, i).value, Walk(fs, prefix, i + 1).value, dst, row);
  }

  lemma {:induction false} DecodeHere(fs: seq<Field>, prefix: seq<nat>, i: nat, dst: Val, vs: seq<Val>, row: Row)
    requires i < |fs| && AllTyped(fs, vs) && Here(fs, prefix, i).Ok?
    requires ValidPath(dst, prefix) && FieldAt(dst, prefix) == VStruct(vs)
    ensures DecodeSpecs(Here(fs, prefix, i).value, dst, row) ==
            SetAt(dst, prefix, VStruct(vs[i := DecodeField(fs[i], vs[i], row)]))
    decreases fs, |fs| - i, 0
  {
    var f := fs[i];
    SetAtChild(dst, prefix, i, DecodeField(f, vs[i], row));
    if Flattened(f) {
      DecodeWalk(f.ty.fields, prefix + [i], 0, dst, vs[i].vs, row);
      DecodeWhole(f.ty.fields, vs[i].vs, row);
    } else {
      SetAtLaws(dst, prefix, VStruct(vs));
      assert vs[i := vs[i]] == vs;
    }
  }

  lemma DecodedKeepsType(ty: Type, v: Val, d: Dyn)
    requires Typed(ty, v)
    ensures Typed(ty, Decoded(ty, v, d))
  {
  }

  lemma {:induction false} DecodedTyped(f: Field, v: Val, row: Row)
    requires Typed(f.ty, v)
    ensures Typed(f.ty, DecodeField(f, v, row))
    decreases v, 1
  {
    if Flattened(f) {
      DecodedAllTyped(f.ty.fields, v.vs, row);
    } else if Mapped(f) && Lower(ColumnName(f)) in row {
      DecodedKeepsType(f.ty, v, row[Lower(ColumnName(f))]);
    }
  }

  lemma {:induction false} DecodedAllTyped(fs: seq<Field>, vs: seq<Val>, row: Row)
    requires AllTyped(fs, vs)
    ensures AllTyped(fs, DecodeFields(fs, vs, row))
    decreases vs, 0
  {
    if |fs| > 0 {
      DecodedTyped(fs[0], vs[0], row);
      DecodedAllTyped(fs[1..], vs[1..], row);
      var r := DecodeFields(fs, vs, row);
      assert r[1..] == DecodeFields(fs[1..], vs[1..], row);
      forall i | 0 <= i < |fs|
        ensures Typed(fs[i].ty, r[i])
      {
        if i > 0 {
          assert fs[i] == fs[1..][i - 1] && r[i] == r[1..][i - 1];
        }
      }
    }
  }

  // ------------------------------------------------------------------------
  // Encoding an entity
  // ------------------------------------------------------------------------

  /** A mapped field together with its value. */
  datatype Leaf = Leaf(name: string, ty: Type, isPK: bool, v: Val)

  ghost predicate LeavesTyped(ls: seq<Leaf>)
  {
    forall i :: 0 <= i < |ls| ==> Typed(ls[i].ty, ls[i].v)
  }

  function LeavesOf(f: Field, v: Val): (ls: seq<Leaf>)
    requires Typed(f.ty, v)
    ensures LeavesTyped(ls)
    decreases v, 1
  {
    if Flattened(f) then Leaves(f.ty.fields, v.vs)
    else if Mapped(f) then [Leaf(ColumnName(f), f.ty, IsPK(f), v)]
    else []
  }

  function Leaves(fs: seq<Field>, vs: seq<Val>): (ls: seq<Leaf>)
    requires AllTyped(fs, vs)
    ensures LeavesTyped(ls)
    decreases vs, 0
  {
    if |fs| == 0 then [] else LeavesOf(fs[0], vs[0]) + Leaves(fs[1..], vs[1..])
  }

  /** What the specs read from an entity. */
  function AtSpecs(specs: seq<Spec>, ent: Val): (ls: seq<Leaf>)
    requires forall i :: 0 <= i < |specs| ==> ValidPath(ent, specs[i].path)
    ensures |ls| == |specs|
  {
    seq(|specs|, i requires 0 <= i < |specs| =>
      Leaf(specs[i].name, specs[i].ty, specs[i].isPK, FieldAt(ent, specs[i].path)))
  }

  ghost predicate ReadsAs(specs: seq<Spec>, ent: Val, ls: seq<Leaf>)
  {
    && (forall i :: 0 <= i < |specs| ==> ValidPath(ent, specs[i].path))
    && AtSpecs(specs, ent) == ls
  }

  lemma ReadsAsConcat(a: seq<Spec>, b: seq<Spec>, ent: Val, x: seq<Leaf>, y: seq<Leaf>)
    requires ReadsAs(a, ent, x) && ReadsAs(b, ent, y)
    ensures ReadsAs(a + b, ent, x + y)
  {
  }

  /** The specs read exactly the leaves of the entity, in order. */
  lemma {:induction false} WalkReads(fs: seq<Field>, prefix: seq<nat>, i: nat, ent: Val, vs: seq<Val>)
    requires i <= |fs| && Walk(fs, prefix, i).Ok? && AllTyped(fs, vs)
    requires ValidPath(ent, prefix) && FieldAt(ent, prefix) == VStruct(vs)
    ensures ReadsAs(Walk(fs, prefix, i).value, ent, Leaves(fs[i..], vs[i..]))
    decreases fs, |fs| - i, 1
  {
    if i < |fs| {
      WalkStep(fs, prefix, i);
      HereReads(fs, prefix, i, ent, vs);
      WalkReads(fs, prefix, i + 1, ent, vs);
      assert fs[i..][1..] == fs[i + 1..] && vs[i..][1..] == vs[i + 1..];
      ReadsAsConcat(Here(fs, prefix, i).value, Walk(fs, prefix, i + 1).value, ent,
                    LeavesOf(fs[i], vs[i]), Leaves(fs[i + 1..], vs[i + 1..]));
    }
  }

  lemma {:induction false} HereReads(fs: seq<Field>, prefix: seq<nat>, i: nat, ent: Val, vs: seq<Val>)
    requires i < |fs| && Here(fs, prefix, i).Ok? && AllTyped(fs, vs)
    requires ValidPath(ent, prefix) && FieldAt(ent, prefix) == VStruct(vs)
    ensures ReadsAs(Here(fs, prefix, i).value, ent, LeavesOf(fs[i], vs[i]))
    decreases fs, |fs| - i, 0
  {
    var f := fs[i];
    SetAtChild(ent, prefix, i, vs[i]);
    if Flattened(f) {
      WalkReads(f.ty.fields, prefix + [i], 0, ent, vs[i].vs);
      assert f.ty.fields[0..] == f.ty.fields && vs[i].vs[0..] == vs[i].vs;
    }
  }

  /** The column names and arguments of the leaves that are not the primary key. */
  function Encoded(ls: seq<Leaf>): (r: Result<(seq<string>, seq<Dyn>)>)
    requires LeavesTyped(ls)
    ensures r.Ok? ==> |r.value.0| == |r.value.1|
  {
    if |ls| == 0 then Ok(([], []))
    else
      var r, l := Encoded(ls[..|ls| - 1]), ls[|ls| - 1];
      if r.Err? || l.isPK then r
      else
        var a := ValueToArg(l.ty, l.v);
        if a.Err? then Err else Ok((r.value.0 + [l.name], r.value.1 + [a.value]))
  }

  /** A primary key is bound as it is, with its own dynamic type. */
  function Interface(ty: Type, v: Val): Dyn
    requires Typed(ty, v)
    decreases v
  {
    match ty
    case TBool => DBool(v.b)
    case TInt(w) => DInt(w, v.n)
    case TFloat(single) => DFloat(single, v.r)
    case TString => DString(v.s)
    case TTime => DTime(v.t)
    case TUuid => DUuid(v.u)
    case TByte => DByte(v.x)
    case TSlice(e) => DList(seq(|v.xs|, i requires 0 <= i < |v.xs| => Interface(e, v.xs[i])))
    case TMap(key, e) => if key == TString then DMap(map k | k in v.m :: Interface(e, v.m[k])) else DOther
    case _ => DOther
  }

  predicate EmptyPK(l: Leaf)
  {
    (l.ty == TString && l.v == VString("")) || (l.ty == TInt(W64) && l.v == VInt(0))
  }

  lemma {:induction false} CollectReads(fs: seq<Field>, vs: seq<Val>)
    requires AllTyped(fs, vs) && Collect(fs).Ok?
    ensures ReadsAs(Collect(fs).value, VStruct(vs), Leaves(fs, vs))
  {
    WalkReads(fs, [], 0, VStruct(vs), vs);
    assert fs[0..] == fs && vs[0..] == vs;
  }

  /** The first `i` leaves give the columns and arguments collected so far. */
  ghost predicate EncodedTo(ls: seq<Leaf>, i: nat, cols: seq<string>, args: seq<Dyn>)
  {
    i <= |ls| && LeavesTyped(ls[..i]) && Encoded(ls[..i]) == Ok((cols, args))
  }

  lemma {:induction false} EncodedNext(ls: seq<Leaf>, i: nat, cols: seq<string>, args: seq<Dyn>)
    requires i < |ls| && LeavesTyped(ls) && EncodedTo(ls, i, cols, args)
    ensures LeavesTyped(ls[..i + 1])
    ensures ls[i].isPK ==> EncodedTo(ls, i + 1, cols, args)
    ensures !ls[i].isPK ==>
              match ValueToArg(ls[i].ty, ls[i].v)
              case Err => Encoded(ls[..i + 1]).Err?
              case Ok(a) => EncodedTo(ls, i + 1, cols + [ls[i].name], args + [a])
  {
    assert ls[..i + 1][..i] == ls[..i];
  }

  /** The encoding loop of the source over the specs of an entity. */
  method ColumnsAndArgs(fs: seq<Field>, vs: seq<Val>) returns (r: Result<(seq<string>, seq<Dyn>)>)
    requires AllTyped(fs, vs)
    ensures var e := Encoded(Leaves(fs, vs));
            r == if Collect(fs).Err? || e.Err? || e.value.0 == [] then Err else e
  {
    var specs := Collect(fs);
    if specs.Err? {
      return Err;
    }
    var ent := VStruct(vs);
    ghost var ls := Leaves(fs, vs);
    CollectReads(fs, vs);
    var cols, args := [], [];
    for i := 0 to |specs.value|
      invariant EncodedTo(ls, i, cols, args)
    {
      var spec := specs.value[i];
      assert ls[i] == Leaf(spec.name, spec.ty, spec.isPK, FieldAt(ent, spec.path));
      EncodedNext(ls, i, cols, args);
      if !spec.isPK {
        var a := ValueToArg(spec.ty, FieldAt(ent, spec.path));
        if a.Err? {
          EncodedErr(ls, i + 1);
          return Err;
        }
        cols, args := cols + [spec.name], args + [a.value];
      }
    }
    assert ls[..|ls|] == ls;
    if cols == [] {
      return Err;
    }
    return Ok((cols, args));
  }

  lemma {:induction false} EncodedErr(ls: seq<Leaf>, k: nat)
    requires LeavesTyped(ls) && k <= |ls| && Encoded(ls[..k]).Err?
    ensures Encoded(ls).Err?
    decreases |ls| - k
  {
    if k == |ls| {
      assert ls[..k] == ls;
    } else {
      assert ls[..k + 1][..k] == ls[..k];
      EncodedErr(ls, k + 1);
    }
  }

  // ------------------------------------------------------------------------
  // Insert, then read back
  // ------------------------------------------------------------------------

  /** The row an INSERT of these columns leaves behind; the server folds the names. */
  function StoreRow(names: seq<string>, args: seq<Dyn>): Row
    requires |names| == |args|
  {
    if |names| == 0 then map[]
    else StoreRow(names[..|names| - 1], args[..|args| - 1])[Lower(names[|names| - 1]) := args[|args| - 1]]
  }

  /** Exactly leaf `k` is the primary key, and the column names differ even ignoring case. */
  ghost predicate OneKey(ls: seq<Leaf>, k: nat)
  {
    && k < |ls| && ls[k].isPK
    && (forall i :: 0 <= i < |ls| && i != k ==> !ls[i].isPK)
    && (forall i, j :: 0 <= i < j < |ls| ==> Lower(ls[i].name) != Lower(ls[j].name))
  }

  function ArgOf(l: Leaf): Result<Dyn>
    requires Typed(l.ty, l.v)
  {
    if l.isPK then Ok(Interface(l.ty, l.v)) else ValueToArg(l.ty, l.v)
  }

  ghost predicate RowHolds(row: Row, l: Leaf)
    requires Typed(l.ty, l.v)
  {
    ArgOf(l).Ok? && Lower(l.name) in row && row[Lower(l.name)] == ArgOf(l).value
  }

  lemma {:induction false} StoreRowAppend(names: seq<string>, args: seq<Dyn>, n: string, a: Dyn)
    requires |names| == |args|
    ensures StoreRow(names + [n], args + [a]) == StoreRow(names, args)[Lower(n) := a]
  {
    assert (names + [n])[..|names|] == names && (args + [a])[..|args|] == args;
  }

  /** The row binds the primary key and every other leaf. */
  ghost predicate Binds(row: Row, pk: string, pkv: Dyn, ls: seq<Leaf>)
    requires LeavesTyped(ls)
  {
    && Lower(pk) in row && row[Lower(pk)] == pkv
    && forall i :: 0 <= i < |ls| && !ls[i].isPK ==> RowHolds(row, ls[i])
  }

  lemma {:induction false} BindsNext(row: Row, pk: string, pkv: Dyn, ls: seq<Leaf>, row': Row)
    requires |ls| > 0 && LeavesTyped(ls) && Binds(row, pk, pkv, ls[..|ls| - 1])
    requires forall i, j :: 0 <= i < j < |ls| ==> Lower(ls[i].name) != Lower(ls[j].name)
    requires var l := ls[|ls| - 1];
             if l.isPK then row' == row
             else ArgOf(l).Ok? && Lower(l.name) != Lower(pk) && row' == row[Lower(l.name) := ArgOf(l).value]
    ensures Binds(row', pk, pkv, ls)
  {
    var m := |ls| - 1;
    forall i | 0 <= i < |ls| && !ls[i].isPK
      ensures RowHolds(row', ls[i])
    {
      if i < m {
        assert ls[..m][i] == ls[i];
        assert Lower(ls[i].name) != Lower(ls[m].name);
      }
    }
  }

  lemma {:induction false} StoredRow(pk: string, pkv: Dyn, ls: seq<Leaf>)
    requires LeavesTyped(ls) && Encoded(ls).Ok?
    requires forall i, j :: 0 <= i < j < |ls| ==> Lower(ls[i].name) != Lower(ls[j].name)
    requires forall i :: 0 <= i < |ls| && !ls[i].isPK ==> Lower(ls[i].name) != Lower(pk)
    ensures Binds(StoreRow([pk] + Encoded(ls).value.0, [pkv] + Encoded(ls).value.1), pk, pkv, ls)
  {
    var row := StoreRow([pk] + Encoded(ls).value.0, [pkv] + Encoded(ls).value.1);
    if |ls| == 0 {
      assert [pk] + [] == [] + [pk] && [pkv] + [] == [] + [pkv];
      StoreRowAppend([], [], pk, pkv);
    } else {
      var pre, l := ls[..|ls| - 1], ls[|ls| - 1];
      StoredRow(pk, pkv, pre);
      var (cols, args) := Encoded(pre).value;
      if !l.isPK {
        var a := ValueToArg(l.ty, l.v).value;
        StoreRowAppend([pk] + cols, [pkv] + args, l.name, a);
        assert [pk] + (cols + [l.name]) == [pk] + cols + [l.name];
        assert [pkv] + (args + [a]) == [pkv] + args + [a];
      }
      BindsNext(StoreRow([pk] + cols, [pkv] + args), pk, pkv, ls, row);
    }
  }

  /** The row written by `Create` for an entity, when it succeeds. */
  function Inserted(fs: seq<Field>, vs: seq<Val>, k: nat): Result<Row>
    requires AllTyped(fs, vs) && k < |Leaves(fs, vs)|
  {
    var ls := Leaves(fs, vs);
    var e := Encoded(ls);
    if Collect(fs).Err? || e.Err? || e.value.0 == [] || EmptyPK(ls[k]) then Err
    else Ok(StoreRow([ls[k].name] + e.value.0, [Interface(ls[k].ty, ls[k].v)] + e.value.1))
  }

  /** The scalar types that survive as a primary key, alone or in a collection. */
  predicate PKScalar(ty: Type)
  {
    ty.TBool? || ty.TInt? || ty.TFloat? || ty.TString? || ty.TTime?
  }

  predicate PKOk(ty: Type)
  {
    PKScalar(ty) || ty.TUuid? || (ty.TSlice? && PKScalar(ty.elem)) || (ty.TMap? && ty.key == TString && PKScalar(ty.elem))
  }

  lemma KeyScalarRoundTrip(ty: Type, v: Val)
    requires Typed(ty, v)
    ensures ScalarOf(ty, Interface(ty, v)) == if PKScalar(ty) then Some(v) else None
  {
  }

  /** Binding a primary key and decoding it into a zero field gives the value back if and only if its
      type is in the supported family or the value is the zero value anyway. */
  lemma {:induction false} KeyRoundTripIff(ty: Type, v: Val)
    requires Typed(ty, v)
    ensures Decoded(ty, Zero(ty), Interface(ty, v)) == v <==> PKOk(ty) || v == Zero(ty)
  {
    var d := Interface(ty, v);
    match ty
    case TSlice(e) =>
      forall i | 0 <= i < |v.xs|
        ensures ScalarOf(e, d.xs[i]) == if PKScalar(e) then Some(v.xs[i]) else None
      {
        KeyScalarRoundTrip(e, v.xs[i]);
      }
      ListDecodes(e, v, d, PKScalar(e));
    case TMap(key, e) =>
      if key == TString {
        forall k | k in v.m
          ensures ScalarOf(e, d.m[k]) == if PKScalar(e) then Some(v.m[k]) else None
        {
          KeyScalarRoundTrip(e, v.m[k]);
        }
        MapDecodes(e, v, d, PKScalar(e));
      }
    case _ => KeyScalarRoundTrip(ty, v);
  }

  /** A field survives a round trip: mapped fields by type or by being zero, others by being zero. */
  ghost predicate Survives(f: Field, v: Val)
    requires Typed(f.ty, v)
    decreases v, 1
  {
    if Flattened(f) then AllSurvive(f.ty.fields, v.vs)
    else v == Zero(f.ty) || (Mapped(f) && if IsPK(f) then PKOk(f.ty) else ColumnOk(f.ty))
  }

  ghost predicate AllSurvive(fs: seq<Field>, vs: seq<Val>)
    requires AllTyped(fs, vs)
    decreases vs, 0
  {
    |fs| == 0 || (Survives(fs[0], vs[0]) && AllSurvive(fs[1..], vs[1..]))
  }

  lemma {:induction false} ZeroTyped(ty: Type)
    ensures Typed(ty, Zero(ty))
    decreases ty
  {
    if ty.TStruct? {
      ZerosTyped(ty.fields);
    }
  }

  lemma {:induction false} ZerosTyped(fs: seq<Field>)
    ensures AllTyped(fs, Zeros(fs))
    decreases fs
  {
    if |fs| > 0 {
      ZeroTyped(fs[0].ty);
      ZerosTyped(fs[1..]);
      forall i | 0 <= i < |fs|
        ensures Typed(fs[i].ty, Zeros(fs)[i])
      {
        if i > 0 {
          assert fs[i] == fs[1..][i - 1] && Zeros(fs)[i] == Zeros(fs[1..])[i - 1];
        }
      }
    }
  }

  ghost predicate AllHeld(row: Row, ls: seq<Leaf>)
  {
    LeavesTyped(ls) && forall i :: 0 <= i < |ls| ==> RowHolds(row, ls[i])
  }

  lemma {:induction false} AllHeldParts(row: Row, a: seq<Leaf>, b: seq<Leaf>)
    requires AllHeld(row, a + b)
    ensures AllHeld(row, a) && AllHeld(row, b)
  {
    assert forall i :: 0 <= i < |a| ==> (a + b)[i] == a[i];
    assert forall i :: 0 <= i < |b| ==> (a + b)[|a| + i] == b[i];
  }

  lemma {:induction false} FieldSurvivesIff(f: Field, v: Val, row: Row)
    requires Typed(f.ty, v) && Typed(f.ty, Zero(f.ty)) && AllHeld(row, LeavesOf(f, v))
    ensures DecodeField(f, Zero(f.ty), row) == v <==> Survives(f, v)
    decreases v, 1
  {
    if Flattened(f) {
      ZerosTyped(f.ty.fields);
      FieldsSurviveIff(f.ty.fields, v.vs, row);
    } else if Mapped(f) {
      var l := LeavesOf(f, v)[0];
      assert RowHolds(row, l);
      if IsPK(f) {
        KeyRoundTripIff(f.ty, v);
      } else {
        EncodesIff(f.ty, v);
        FieldRoundTripIff(f.ty, v);
      }
    }
  }

  lemma {:induction false} FieldsSurviveIff(fs: seq<Field>, vs: seq<Val>, row: Row)
    requires AllTyped(fs, vs) && AllTyped(fs, Zeros(fs)) && AllHeld(row, Leaves(fs, vs))
    ensures DecodeFields(fs, Zeros(fs), row) == vs <==> AllSurvive(fs, vs)
    decreases vs, 0
  {
    if |fs| > 0 {
      AllHeldParts(row, LeavesOf(fs[0], vs[0]), Leaves(fs[1..], vs[1..]));
      assert Zeros(fs)[0] == Zero(fs[0].ty) && Zeros(fs)[1..] == Zeros(fs[1..]);
      FieldSurvivesIff(fs[0], vs[0], row);
      FieldsSurviveIff(fs[1..], vs[1..], row);
      SameParts(DecodeField(fs[0], Zero(fs[0].ty), row), DecodeFields(fs[1..], Zeros(fs[1..]), row), vs);
    }
  }

  lemma {:induction false} SameParts(x: Val, rest: seq<Val>, vs: seq<Val>)
    requires |vs| > 0
    ensures [x] + rest == vs <==> x == vs[0] && rest == vs[1..]
  {
    assert vs == [vs[0]] + vs[1..];
    assert ([x] + rest)[0] == x && ([x] + rest)[1..] == rest;
  }

  lemma {:induction false} InsertedHolds(fs: seq<Field>, vs: seq<Val>, k: nat)
    requires AllTyped(fs, vs)
    requires OneKey(Leaves(fs, vs), k) && Inserted(fs, vs, k).Ok?
    ensures AllHeld(Inserted(fs, vs, k).value, Leaves(fs, vs))
  {
    var ls := Leaves(fs, vs);
    EncodedOk(ls);
    forall i | 0 <= i < |ls| && !ls[i].isPK
      ensures Lower(ls[i].name) != Lower(ls[k].name)
    {
      if i < k {
        assert Lower(ls[i].name) != Lower(ls[k].name);
      } else {
        assert Lower(ls[k].name) != Lower(ls[i].name);
      }
    }
    StoredRow(ls[k].name, Interface(ls[k].ty, ls[k].v), ls);
  }

  lemma {:induction false} DecodeMeans(fs: seq<Field>, row: Row)
    requires Collect(fs).Ok? && AllTyped(fs, Zeros(fs))
    ensures DecodeSpecs(Collect(fs).value, Zero(TStruct(fs)), row) == VStruct(DecodeFields(fs, Zeros(fs), row))
  {
    DecodeWalk(fs, [], 0, Zero(TStruct(fs)), Zeros(fs), row);
    DecodeWhole(fs, Zeros(fs), row);
  }

  lemma LowerTwice(x: string)
    ensures Lower(Lower(x)) == Lower(x)
  {
  }

  lemma {:induction false} StoredNamesFolded(names: seq<string>, args: seq<Dyn>)
    requires |names| == |args|
    ensures FoldedNames(StoreRow(names, args))
  {
    if |names| > 0 {
      StoredNamesFolded(names[..|names| - 1], args[..|args| - 1]);
      LowerTwice(names[|names| - 1]);
    }
  }

  /** An entity that can be inserted: its column names are identifiers, its key is not empty, and it has
      ordinary columns, all of which can be encoded. */
  ghost predicate Insertable(ls: seq<Leaf>, k: nat)
    requires k < |ls| && LeavesTyped(ls)
  {
    && WellNamed(ls)
    && !(ls[k].ty == TString && ls[k].v == VString("")) && !(ls[k].ty == TInt(W64) && ls[k].v == VInt(0))
    && (exists i :: 0 <= i < |ls| && !ls[i].isPK)
    && (forall i :: 0 <= i < |ls| && !ls[i].isPK ==> Encodable(ls[i].ty, ls[i].v))
  }

  ghost predicate WellNamed(ls: seq<Leaf>)
  {
    forall i :: 0 <= i < |ls| ==> Identifier(ls[i].name)
  }

  lemma {:induction false} NamedParts(a: seq<Leaf>, b: seq<Leaf>)
    ensures WellNamed(a + b) <==> WellNamed(a) && WellNamed(b)
  {
    assert forall i :: 0 <= i < |a| ==> (a + b)[i] == a[i];
    assert forall i :: 0 <= i < |b| ==> (a + b)[|a| + i] == b[i];
  }

  lemma {:induction false} WalkOkIff(fs: seq<Field>, prefix: seq<nat>, i: nat, vs: seq<Val>)
    requires i <= |fs| && AllTyped(fs, vs)
    ensures Walk(fs, prefix, i).Ok? <==> WellNamed(Leaves(fs[i..], vs[i..]))
    decreases fs, |fs| - i, 1
  {
    if i < |fs| {
      HereOkIff(fs, prefix, i, vs);
      WalkOkIff(fs, prefix, i + 1, vs);
      assert fs[i..][1..] == fs[i + 1..] && vs[i..][1..] == vs[i + 1..];
      NamedParts(LeavesOf(fs[i], vs[i]), Leaves(fs[i + 1..], vs[i + 1..]));
    }
  }

  lemma {:induction false} HereOkIff(fs: seq<Field>, prefix: seq<nat>, i: nat, vs: seq<Val>)
    requires i < |fs| && AllTyped(fs, vs)
    ensures Here(fs, prefix, i).Ok? <==> WellNamed(LeavesOf(fs[i], vs[i]))
    decreases fs, |fs| - i, 0
  {
    var f := fs[i];
    if Flattened(f) {
      WalkOkIff(f.ty.fields, prefix + [i], 0, vs[i].vs);
      assert f.ty.fields[0..] == f.ty.fields && vs[i].vs[0..] == vs[i].vs;
    } else if Mapped(f) {
      assert LeavesOf(f, vs[i])[0].name == ColumnName(f);
    }
  }

  /** The specs can be collected exactly when all column names are identifiers and there is a key. */
  lemma {:induction false} CollectOkIff(fs: seq<Field>, vs: seq<Val>)
    requires AllTyped(fs, vs)
    ensures Collect(fs).Ok? <==> WellNamed(Leaves(fs, vs)) && exists i :: 0 <= i < |Leaves(fs, vs)| && Leaves(fs, vs)[i].isPK
  {
    WalkOkIff(fs, [], 0, vs);
    assert fs[0..] == fs && vs[0..] == vs;
    if Walk(fs, [], 0).Ok? {
      WalkReads(fs, [], 0, VStruct(vs), vs);
      SameKeys(Walk(fs, [], 0).value, VStruct(vs), Leaves(fs, vs));
    }
  }

  lemma SameKeys(specs: seq<Spec>, ent: Val, ls: seq<Leaf>)
    requires ReadsAs(specs, ent, ls)
    ensures |specs| == |ls| && forall i :: 0 <= i < |ls| ==> specs[i].isPK == ls[i].isPK
  {
  }

  lemma {:induction false} EncodedOkIff(ls: seq<Leaf>)
    requires LeavesTyped(ls)
    ensures Encoded(ls).Ok? <==> forall i :: 0 <= i < |ls| && !ls[i].isPK ==> Encodable(ls[i].ty, ls[i].v)
    ensures Encoded(ls).Ok? ==> (Encoded(ls).value.0 != [] <==> exists i :: 0 <= i < |ls| && !ls[i].isPK)
  {
    if |ls| > 0 {
      var pre, l := ls[..|ls| - 1], ls[|ls| - 1];
      EncodedOkIff(pre);
      EncodesIff(l.ty, l.v);
      assert forall i :: 0 <= i < |pre| ==> pre[i] == ls[i];
    }
  }

  /** An entity with one key is inserted exactly when it is insertable. */
  lemma {:induction false} InsertedIff(fs: seq<Field>, vs: seq<Val>, k: nat)
    requires AllTyped(fs, vs) && OneKey(Leaves(fs, vs), k)
    ensures Inserted(fs, vs, k).Ok? <==> Insertable(Leaves(fs, vs), k)
  {
    CollectOkIff(fs, vs);
    EncodedOkIff(Leaves(fs, vs));
  }

  lemma {:induction false} DecodedAgainIff(fs: seq<Field>, vs: seq<Val>, k: nat)
    requires AllTyped(fs, vs)
    requires OneKey(Leaves(fs, vs), k) && Inserted(fs, vs, k).Ok?
    ensures Collect(fs).Ok?
    ensures DecodeSpecs(Collect(fs).value, Zero(TStruct(fs)), Inserted(fs, vs, k).value) == VStruct(vs)
            <==> AllSurvive(fs, vs)
  {
    var row := Inserted(fs, vs, k).value;
    InsertedHolds(fs, vs, k);
    ZerosTyped(fs);
    DecodeMeans(fs, row);
    FieldsSurviveIff(fs, vs, row);
  }

  /** Insert an entity and decode the row into a zero entity: the result is the entity again if and
      only if every column is of a supported type or zero and every unmapped field is zero, through
      embedded structs flattened to any depth. */
  lemma {:induction false} EntityRoundTripIff(fs: seq<Field>, vs: seq<Val>, k: nat, lookup: Row)
    requires AllTyped(fs, vs) && OneKey(Leaves(fs, vs), k) && Insertable(Leaves(fs, vs), k)
    ensures Collect(fs).Ok? && Inserted(fs, vs, k).Ok?
    ensures Folds(Inserted(fs, vs, k).value, lookup) ==>
              (DecodeSpecs(Collect(fs).value, Zero(TStruct(fs)), lookup) == VStruct(vs) <==> AllSurvive(fs, vs))
  {
    InsertedIff(fs, vs, k);
    if Folds(Inserted(fs, vs, k).value, lookup) {
      var ls := Leaves(fs, vs);
      var e := Encoded(ls).value;
      StoredNamesFolded([ls[k].name] + e.0, [Interface(ls[k].ty, ls[k].v)] + e.1);
      FoldsItself(Inserted(fs, vs, k).value, lookup);
      DecodedAgainIff(fs, vs, k);
    }
  }

  lemma {:induction false} EncodedOk(ls: seq<Leaf>)
    requires LeavesTyped(ls) && Encoded(ls).Ok?
    ensures forall i :: 0 <= i < |ls| ==> ArgOf(ls[i]).Ok?
  {
    if |ls| > 0 {
      EncodedOk(ls[..|ls| - 1]);
      assert forall i :: 0 <= i < |ls| - 1 ==> ls[..|ls| - 1][i] == ls[i];
    }
  }

  // ------------------------------------------------------------------------
  // The rules for fields, by example
  // ------------------------------------------------------------------------

  /** A value of another scalar type never changes a field; a native uuid also fills a string. */
  lemma ForeignValueKept(ty: Type, dst: Val, other: Type, v: Val)
    requires Typed(other, v) && PKScalar(other) && ty != other
    ensures Decoded(ty, dst, Interface(other, v)) == dst
  {
  }

  lemma UuidFills(dst: Val, u: string)
    ensures Decoded(TUuid, dst, DUuid(u)) == VUuid(u) && Decoded(TString, dst, DUuid(u)) == VString(u)
    ensures forall ty :: ty != TUuid && ty != TString ==> Decoded(ty, dst, DUuid(u)) == dst
  {
  }

  /** A key is recognised by its field name in any case; the tag's name does not matter. */
  lemma {:induction false} KeyNames(f: Field)
    ensures f.name in {"id", "ID", "Id", "iD", "uuid", "UUID", "Uuid"} ==> IsPK(f)
    ensures IsPK(f) ==> |f.name| == 2 || |f.name| == 4
  {
    assert |Lower(f.name)| == |f.name|;
    if f.name in {"id", "ID", "Id", "iD"} {
      assert Lower(f.name) == "id";
    } else if f.name in {"uuid", "UUID", "Uuid"} {
      assert Lower(f.name) == "uuid";
    }
  }

  /** Column names are what the pattern `^[A-Za-z_][A-Za-z0-9_]*$` matches. */
  lemma IdentifierMeans(x: string)
    ensures Identifier(x) <==>
            && x != "" && !('0' <= x[0] <= '9')
            && forall i :: 0 <= i < |x| ==> 'a' <= x[i] <= 'z' || 'A' <= x[i] <= 'Z' || '0' <= x[i] <= '9' || x[i] == '_'
  {
  }

  /** A struct that is a field of its own, rather than embedded, is one column, and cannot be encoded. */
  lemma StructColumnRefused(f: Field, v: Val)
    requires Typed(f.ty, v) && f.ty.TStruct? && !f.anonymous && f.exported && f.tag == NoTag && !IsPK(f)
    ensures LeavesOf(f, v) == [Leaf(f.name, f.ty, false, v)] && !Encodable(f.ty, v)
  {
  }

  /** An embedded struct contributes exactly the columns of its own fields. */
  lemma EmbeddedStructFlattened(f: Field, v: Val)
    requires Typed(f.ty, v) && f.ty.TStruct? && f.anonymous
    ensures LeavesOf(f, v) == Leaves(f.ty.fields, v.vs)
  {
  }

  /** An entity as the repository's users write it: a key, the embedded tenant mixin, a text column, an
      unexported field and one that its tag skips. */
  function SampleFields(key: string): seq<Field>
  {
    [Field(key, TInt(W64), false, true, NoTag)] + Rest1()
  }

  function Rest1(): seq<Field>
  {
    [Field("TenantID", TStruct(Mixin()), true, true, NoTag)] + Rest2()
  }

  function Rest2(): seq<Field>
  {
    [Field("Name", TString, false, true, NoTag)] + Rest3()
  }

  function Rest3(): seq<Field>
  {
    [Field("note", TString, false, false, NoTag)] + [Field("Draft", TString, false, true, Skip)]
  }

  function Mixin(): seq<Field>
  {
    [Field("TenantID", TInt(W64), false, true, Named("tenant_id"))]
  }

  lemma {:induction false} LeavesCons(f: Field, fs: seq<Field>, v: Val, vs: seq<Val>)
    requires Typed(f.ty, v) && AllTyped(fs, vs)
    ensures AllTyped([f] + fs, [v] + vs) && Leaves([f] + fs, [v] + vs) == LeavesOf(f, v) + Leaves(fs, vs)
  {
    var gs, ws := [f] + fs, [v] + vs;
    assert gs[1..] == fs && ws[1..] == vs;
  }

  lemma {:induction false} HiddenLeaves(note: string, draft: string)
    ensures AllTyped(Rest3(), [VString(note)] + [VString(draft)])
    ensures Leaves(Rest3(), [VString(note)] + [VString(draft)]) == []
  {
    var f, g := Field("note", TString, false, false, NoTag), Field("Draft", TString, false, true, Skip);
    assert [g] + [] == [g] && [VString(draft)] + [] == [VString(draft)];
    LeavesCons(g, [], VString(draft), []);
    LeavesCons(f, [g], VString(note), [VString(draft)]);
  }

  lemma {:induction false} MixinLeaves(tenant: int)
    ensures AllTyped(Mixin(), [VInt(tenant)])
    ensures Leaves(Mixin(), [VInt(tenant)]) == [Leaf("tenant_id", TInt(W64), false, VInt(tenant))]
  {
    var f := Field("TenantID", TInt(W64), false, true, Named("tenant_id"));
    assert [f] + [] == [f] && [VInt(tenant)] + [] == [VInt(tenant)];
    assert |Lower(f.name)| == 8;
    LeavesCons(f, [], VInt(tenant), []);
  }

  /** The columns of such an entity: the key, the mixin's column under its tag's name, and the text. */
  lemma {:induction false} SampleLeaves(key: string, id: int, tenant: int, name: string, note: string, draft: string)
    requires Lower(key) in {"id", "uuid"}
    ensures var vs := [VInt(id)] + ([VStruct([VInt(tenant)])] + ([VString(name)] + ([VString(note)] + [VString(draft)])));
            && AllTyped(SampleFields(key), vs)
            && Leaves(SampleFields(key), vs) ==
               [Leaf(key, TInt(W64), true, VInt(id)), Leaf("tenant_id", TInt(W64), false, VInt(tenant)),
                Leaf("Name", TString, false, VString(name))]
  {
    var f, g, h := Field(key, TInt(W64), false, true, NoTag), Field("TenantID", TStruct(Mixin()), true, true, NoTag),
                   Field("Name", TString, false, true, NoTag);
    var w3 := [VString(note)] + [VString(draft)];
    var w2 := [VString(name)] + w3;
    var w1 := [VStruct([VInt(tenant)])] + w2;
    HiddenLeaves(note, draft);
    MixinLeaves(tenant);
    assert |Lower("Name")| == 4 && Lower("Name")[0] == 'n';
    LeavesCons(h, Rest3(), VString(name), w3);
    LeavesCons(g, Rest2(), VStruct([VInt(tenant)]), w2);
    LeavesCons(f, Rest1(), VInt(id), w1);
  }
}
