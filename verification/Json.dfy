/** JSON values, Python's equality on them, and the structural diff of
    `baseline/determinism.py`. */
module Json {
  import opened Ordering

  datatype Option<+T> = None | Some(value: T)

  datatype Json =
    | Null
    | Bool(b: bool)
    | Int(n: int)
    | Float(r: real)
    | Str(s: string)
    | Arr(items: seq<Json>)
    | Obj(fields: map<string, Json>)

  /** The number a scalar denotes: Python compares `True`, `1` and `1.0` equal. */
  function Number(j: Json): Option<real> {
    match j
    case Bool(b) => Some(if b then 1.0 else 0.0)
    case Int(n) => Some(n as real)
    case Float(r) => Some(r)
    case _ => None
  }

  /** Python's `==` on JSON values. */
  predicate PyEq(x: Json, y: Json) {
    match (x, y)
    case (Arr(a), Arr(b)) => |a| == |b| && forall i :: 0 <= i < |a| ==> PyEq(a[i], b[i])
    case (Obj(a), Obj(b)) => a.Keys == b.Keys && forall k :: k in a ==> PyEq(a[k], b[k])
    case _ => if Number(x).Some? then Number(x) == Number(y) else x == y
  }

  lemma {:induction false} PyEqReflexive(x: Json)
    ensures PyEq(x, x)
  {
    match x
    case Arr(a) => forall i | 0 <= i < |a| ensures PyEq(a[i], a[i]) { PyEqReflexive(a[i]); }
    case Obj(a) => forall k | k in a ensures PyEq(a[k], a[k]) { PyEqReflexive(a[k]); }
    case _ =>
  }

  /** When two values are equal: numbers by what they denote, booleans as 0 and 1, texts and null as
      they are, containers part by part, and nothing across these kinds. */
  lemma PyEqExact(x: Json, y: Json)
    ensures PyEq(x, y) <==>
            match x
            case Null => y == Null
            case Str(s) => y == Str(s)
            case Bool(b) =>
              y == Bool(b) || y == Int(if b then 1 else 0) || (y.Float? && y.r == if b then 1.0 else 0.0)
            case Int(n) =>
              y == Int(n) || (y.Float? && y.r == n as real) || (y.Bool? && n == if y.b then 1 else 0)
            case Float(r) =>
              y == Float(r) || (y.Int? && y.n as real == r) || (y.Bool? && r == if y.b then 1.0 else 0.0)
            case Arr(a) => y.Arr? && |y.items| == |a| && forall i :: 0 <= i < |a| ==> PyEq(a[i], y.items[i])
            case Obj(a) => y.Obj? && (forall k :: k in a <==> k in y.fields) && forall k :: k in a ==>
              PyEq(a[k], y.fields[k])
  {
    if x.Obj? && y.Obj? { assert x.fields.Keys == y.fields.Keys <==> forall k :: k in x.fields <==> k in y.fields; }
  }

  lemma {:induction false} PyEqSymmetric(x: Json, y: Json)
    requires PyEq(x, y)
    ensures PyEq(y, x)
  {
    match (x, y)
    case (Arr(a), Arr(b)) => forall i | 0 <= i < |a| ensures PyEq(b[i], a[i]) { PyEqSymmetric(a[i], b[i]); }
    case (Obj(a), Obj(b)) => forall k | k in a ensures PyEq(b[k], a[k]) { PyEqSymmetric(a[k], b[k]); }
    case _ =>
  }

  lemma {:induction false} PyEqTransitive(x: Json, y: Json, z: Json)
    requires PyEq(x, y) && PyEq(y, z)
    ensures PyEq(x, z)
  {
    match (x, y)
    case (Arr(a), Arr(b)) =>
      forall i | 0 <= i < |a| ensures PyEq(a[i], z.items[i]) { PyEqTransitive(a[i], b[i], z.items[i]); }
    case (Obj(a), Obj(b)) =>
      forall k | k in a ensures PyEq(a[k], z.fields[k]) { PyEqTransitive(a[k], b[k], z.fields[k]); }
    case _ =>
  }

  // ----- paths and changes -----

  datatype Step = Key(name: string) | Index(i: nat)
  type Path = seq<Step>

  datatype Edit = Added(v: Json) | Removed(v: Json) | Replaced(old_: Json, new_: Json)
  datatype Change = Change(path: Path, edit: Edit)

  /** The value at a path below `v`, if there is one. */
  function At(v: Json, path: Path): Option<Json> {
    if path == [] then Some(v)
    else match (v, path[0])
      case (Obj(m), Key(k)) => if k in m then At(m[k], path[1..]) else None
      case (Arr(xs), Index(i)) => if i < |xs| then At(xs[i], path[1..]) else None
      case _ => None
  }

  // ----- the diff -----

  function Max(a: nat, b: nat): nat { if a < b then b else a }

  /** The specification of `diff_json`: changes in report order, with absolute paths. */
  function Diff(e: Json, a: Json, at: Path): seq<Change>
    decreases e, 1, 0
  {
    if e.Obj? && a.Obj? then DiffFields(e, a, SortedNames(e.fields.Keys + a.fields.Keys), at)
    else if e.Arr? && a.Arr? then DiffItems(e, a, Max(|e.items|, |a.items|), at)
    else if PyEq(e, a) then [] else [Change(at, Replaced(e, a))]
  }

  function DiffField(e: Json, a: Json, k: string, at: Path): seq<Change>
    requires e.Obj? && a.Obj? && (k in e.fields || k in a.fields)
    decreases e, 0, 0
  {
    if k !in e.fields then [Change(at + [Key(k)], Added(a.fields[k]))]
    else if k !in a.fields then [Change(at + [Key(k)], Removed(e.fields[k]))]
    else Diff(e.fields[k], a.fields[k], at + [Key(k)])
  }

  function DiffFields(e: Json, a: Json, keys: seq<string>, at: Path): seq<Change>
    requires e.Obj? && a.Obj? && forall k :: k in keys ==> k in e.fields || k in a.fields
    decreases e, 0, |keys|
  {
    if keys == [] then []
    else DiffFields(e, a, keys[..|keys| - 1], at) + DiffField(e, a, keys[|keys| - 1], at)
  }

  function DiffItem(e: Json, a: Json, i: nat, at: Path): seq<Change>
    requires e.Arr? && a.Arr? && i < Max(|e.items|, |a.items|)
    decreases e, 0, 0
  {
    if i >= |e.items| then [Change(at + [Index(i)], Added(a.items[i]))]
    else if i >= |a.items| then [Change(at + [Index(i)], Removed(e.items[i]))]
    else Diff(e.items[i], a.items[i], at + [Index(i)])
  }

  function DiffItems(e: Json, a: Json, n: nat, at: Path): seq<Change>
    requires e.Arr? && a.Arr? && n <= Max(|e.items|, |a.items|)
    decreases e, 0, n
  {
    if n == 0 then [] else DiffItems(e, a, n - 1, at) + DiffItem(e, a, n - 1, at)
  }

  /** `diff_json` as written: a recursive walk appending to a local list. */
  method DiffJson(expected: Json, actual: Json, at: Path) returns (differences: seq<Change>)
    ensures differences == Diff(expected, actual, at)
    decreases expected, 1
  {
    differences := [];
    if expected.Obj? && actual.Obj? {
      differences := DiffEachField(expected, actual, SortedNames(expected.fields.Keys + actual.fields.Keys), at);
    } else if expected.Arr? && actual.Arr? {
      for i := 0 to Max(|expected.items|, |actual.items|)
        invariant differences == DiffItems(expected, actual, i, at)
      {
        if i >= |expected.items| {
          differences := differences + [Change(at + [Index(i)], Added(actual.items[i]))];
        } else if i >= |actual.items| {
          differences := differences + [Change(at + [Index(i)], Removed(expected.items[i]))];
        } else {
          var below := DiffJson(expected.items[i], actual.items[i], at + [Index(i)]);
          differences := differences + below;
        }
      }
    } else if !PyEq(expected, actual) {
      differences := differences + [Change(at, Replaced(expected, actual))];
    }
  }

  method DiffEachField(expected: Json, actual: Json, keys: seq<string>, at: Path) returns (differences: seq<Change>)
    requires expected.Obj? && actual.Obj? && forall k :: k in keys ==> k in expected.fields || k in actual.fields
    ensures differences == DiffFields(expected, actual, keys, at)
    decreases expected, 0
  {
    differences := [];
    for n := 0 to |keys|
      invariant differences == DiffFields(expected, actual, keys[..n], at)
    {
      var k := keys[n];
      assert k in keys && keys[..n + 1][..n] == keys[..n];
      if k !in expected.fields {
        differences := differences + [Change(at + [Key(k)], Added(actual.fields[k]))];
      } else if k !in actual.fields {
        differences := differences + [Change(at + [Key(k)], Removed(expected.fields[k]))];
      } else {
        var below := DiffJson(expected.fields[k], actual.fields[k], at + [Key(k)]);
        differences := differences + below;
      }
    }
    assert keys[..|keys|] == keys;
  }

  // ----- emptiness is equality -----

  lemma {:induction false} DiffFieldsEmpty(e: Json, a: Json, keys: seq<string>, at: Path)
    requires e.Obj? && a.Obj? && forall k :: k in keys ==> k in e.fields || k in a.fields
    ensures DiffFields(e, a, keys, at) == [] <==> forall k :: k in keys ==> DiffField(e, a, k, at) == []
  {
    if keys != [] {
      var front, last := keys[..|keys| - 1], keys[|keys| - 1];
      DiffFieldsEmpty(e, a, front, at);
      assert last in keys && DiffFields(e, a, keys, at) == DiffFields(e, a, front, at) + DiffField(e, a, last, at);
      if DiffFields(e, a, keys, at) == [] {
        forall k | k in keys ensures DiffField(e, a, k, at) == [] { if k != last { assert k in front; } }
      }
      if forall k :: k in keys ==> DiffField(e, a, k, at) == [] {
        forall k | k in front ensures DiffField(e, a, k, at) == [] { assert k in keys; }
      }
    }
  }

  ghost predicate ItemsSame(e: Json, a: Json, n: nat, at: Path)
    requires e.Arr? && a.Arr? && n <= Max(|e.items|, |a.items|)
  {
    forall i :: 0 <= i < n ==> DiffItem(e, a, i, at) == []
  }

  lemma {:induction false} DiffItemsEmpty(e: Json, a: Json, n: nat, at: Path)
    requires e.Arr? && a.Arr? && n <= Max(|e.items|, |a.items|)
    ensures DiffItems(e, a, n, at) == [] <==> ItemsSame(e, a, n, at)
  {
    if n > 0 {
      DiffItemsEmpty(e, a, n - 1, at);
      assert ItemsSame(e, a, n, at) <==> ItemsSame(e, a, n - 1, at) && DiffItem(e, a, n - 1, at) == [];
      assert DiffItems(e, a, n, at) == DiffItems(e, a, n - 1, at) + DiffItem(e, a, n - 1, at);
    }
  }

  /** The diff is empty exactly when Python calls the two values equal. */
  lemma {:induction false} DiffEmptyIffEqual(e: Json, a: Json, at: Path)
    ensures Diff(e, a, at) == [] <==> PyEq(e, a)
    decreases e, 1
  {
    if e.Obj? && a.Obj? {
      ObjectDiffEmpty(e, a, at);
    } else if e.Arr? && a.Arr? {
      ArrayDiffEmpty(e, a, at);
    }
  }

  lemma {:induction false} FieldEmpty(e: Json, a: Json, k: string, at: Path)
    requires e.Obj? && a.Obj? && (k in e.fields || k in a.fields)
    ensures DiffField(e, a, k, at) == [] <==>
            k in e.fields && k in a.fields && PyEq(e.fields[k], a.fields[k])
    decreases e, 0, 0
  {
    if k in e.fields && k in a.fields {
      DiffEmptyIffEqual(e.fields[k], a.fields[k], at + [Key(k)]);
    }
  }

  lemma {:induction false} ObjectDiffEmpty(e: Json, a: Json, at: Path)
    requires e.Obj? && a.Obj?
    ensures Diff(e, a, at) == [] <==> PyEq(e, a)
    decreases e, 0, 2
  {
    KeysDiffEmpty(e, a, SortedNames(e.fields.Keys + a.fields.Keys), at);
  }

  ghost predicate SameField(e: Json, a: Json, k: string)
    requires e.Obj? && a.Obj?
  {
    k in e.fields && k in a.fields && PyEq(e.fields[k], a.fields[k])
  }

  lemma SameObjects(e: Json, a: Json, keys: seq<string>)
    requires e.Obj? && a.Obj? && forall k :: k in keys <==> k in e.fields || k in a.fields
    ensures PyEq(e, a) <==> forall k :: k in keys ==> SameField(e, a, k)
  {
    if forall k :: k in keys ==> SameField(e, a, k) {
      forall k ensures k in e.fields <==> k in a.fields { assert k in keys ==> SameField(e, a, k); }
      assert e.fields.Keys == a.fields.Keys;
    }
  }

  lemma {:induction false} KeysDiffEmpty(e: Json, a: Json, keys: seq<string>, at: Path)
    requires e.Obj? && a.Obj? && forall k :: k in keys <==> k in e.fields || k in a.fields
    ensures DiffFields(e, a, keys, at) == [] <==> PyEq(e, a)
    decreases e, 0, 1
  {
    DiffFieldsEmpty(e, a, keys, at);
    SameObjects(e, a, keys);
    forall k | k in keys ensures DiffField(e, a, k, at) == [] <==> SameField(e, a, k) { FieldEmpty(e, a, k, at); }
  }

  lemma {:induction false} ItemEmpty(e: Json, a: Json, i: nat, at: Path)
    requires e.Arr? && a.Arr? && i < Max(|e.items|, |a.items|)
    ensures DiffItem(e, a, i, at) == [] <==>
            i < |e.items| && i < |a.items| && PyEq(e.items[i], a.items[i])
    decreases e, 0, 0
  {
    if i < |e.items| && i < |a.items| {
      DiffEmptyIffEqual(e.items[i], a.items[i], at + [Index(i)]);
    }
  }

  lemma {:induction false} ArrayDiffEmpty(e: Json, a: Json, at: Path)
    requires e.Arr? && a.Arr?
    ensures Diff(e, a, at) == [] <==> PyEq(e, a)
    decreases e, 0, 1
  {
    var n := Max(|e.items|, |a.items|);
    DiffItemsEmpty(e, a, n, at);
    if Diff(e, a, at) == [] {
      forall i | 0 <= i < n ensures i < |e.items| && i < |a.items| && PyEq(e.items[i], a.items[i]) {
        ItemEmpty(e, a, i, at);
      }
      assert n == 0 || (n - 1 < |e.items| && n - 1 < |a.items|);
    }
    if PyEq(e, a) {
      forall i | 0 <= i < n ensures DiffItem(e, a, i, at) == [] {
        ItemEmpty(e, a, i, at);
      }
    }
  }

  // ----- every report is a real difference -----

  /** What a reported change claims about the two documents `e` and `a` it was taken from. */
  ghost predicate Real(c: Change, e: Json, a: Json, at: Path) {
    && at <= c.path
    && var below := c.path[|at|..];
       match c.edit
       case Added(v) => At(e, below) == None && At(a, below) == Some(v)
       case Removed(v) => At(e, below) == Some(v) && At(a, below) == None
       case Replaced(o, n) =>
         && At(e, below) == Some(o) && At(a, below) == Some(n) && !PyEq(o, n)
         && !(o.Obj? && n.Obj?) && !(o.Arr? && n.Arr?)
  }

  lemma RealBelow(c: Change, e: Json, a: Json, e': Json, a': Json, at: Path, step: Step)
    requires At(e, [step]) == Some(e') && At(a, [step]) == Some(a')
    requires Real(c, e', a', at + [step])
    ensures Real(c, e, a, at)
  {
    var below := c.path[|at|..];
    assert below != [] && below[0] == step && below[1..] == c.path[|at| + 1..];
    assert forall x: Json :: At(x, [step]).Some? ==> At(x, below) == At(At(x, [step]).value, below[1..]) by {
      forall x: Json | At(x, [step]).Some?
        ensures At(x, below) == At(At(x, [step]).value, below[1..])
      {
        assert [step][1..] == [];
      }
    }
  }

  /** Every reported path addresses a real, leaf-level difference. */
  lemma {:induction false} DiffSound(e: Json, a: Json, at: Path, c: Change)
    requires c in Diff(e, a, at)
    ensures Real(c, e, a, at)
    decreases e, 1, 0
  {
    if e.Obj? && a.Obj? {
      DiffFieldsSound(e, a, SortedNames(e.fields.Keys + a.fields.Keys), at, c);
    } else if e.Arr? && a.Arr? {
      DiffItemsSound(e, a, Max(|e.items|, |a.items|), at, c);
    } else {
      assert c.path[|at|..] == [];
    }
  }

  lemma {:induction false} DiffFieldsSound(e: Json, a: Json, keys: seq<string>, at: Path, c: Change)
    requires e.Obj? && a.Obj? && forall k :: k in keys ==> k in e.fields || k in a.fields
    requires c in DiffFields(e, a, keys, at)
    ensures Real(c, e, a, at)
    decreases e, 0, |keys|
  {
    var k := keys[|keys| - 1];
    if c in DiffFields(e, a, keys[..|keys| - 1], at) {
      DiffFieldsSound(e, a, keys[..|keys| - 1], at, c);
    } else {
      assert [Key(k)][1..] == [];
      if k in e.fields && k in a.fields {
        DiffSound(e.fields[k], a.fields[k], at + [Key(k)], c);
        RealBelow(c, e, a, e.fields[k], a.fields[k], at, Key(k));
      } else {
        assert c.path[|at|..] == [Key(k)];
      }
    }
  }

  lemma {:induction false} DiffItemsSound(e: Json, a: Json, n: nat, at: Path, c: Change)
    requires e.Arr? && a.Arr? && n <= Max(|e.items|, |a.items|)
    requires c in DiffItems(e, a, n, at)
    ensures Real(c, e, a, at)
    decreases e, 0, n
  {
    var i := n - 1;
    if c in DiffItems(e, a, i, at) {
      DiffItemsSound(e, a, i, at, c);
    } else {
      assert [Index(i)][1..] == [];
      if i < |e.items| && i < |a.items| {
        DiffSound(e.items[i], a.items[i], at + [Index(i)], c);
        RealBelow(c, e, a, e.items[i], a.items[i], at, Index(i));
      } else {
        assert c.path[|at|..] == [Index(i)];
      }
    }
  }

  // ----- the report rebuilds the actual document -----

  /** The edit reported for exactly `path`. */
  function Find(ds: seq<Change>, path: Path): Option<Edit> {
    if ds == [] then None
    else if ds[0].path == path then Some(ds[0].edit)
    else Find(ds[1..], path)
  }

  /** Apply a report to `v`, the value that sits at `at`: replace, add and remove
      at exactly the reported paths and copy everything else. */
  function Patch(v: Json, ds: seq<Change>, at: Path): Json
    decreases v, 1, 0
  {
    match Find(ds, at)
    case Some(Replaced(_, n)) => n
    case _ =>
      match v
      case Obj(m) =>
        var added := set c | c in ds && c.edit.Added? && |c.path| == |at| + 1 && at <= c.path && c.path[|at|].Key?
                     :: c.path[|at|].name;
        Obj(map k | k in m.Keys + added && !RemovedAt(ds, at + [Key(k)]) ::
              match Find(ds, at + [Key(k)])
              case Some(Added(x)) => x
              case _ => if k in m then Patch(m[k], ds, at + [Key(k)]) else Null)
      case Arr(_) => Arr(PatchItems(v, ds, at, |v.items|) + AddedItems(ds, at, |v.items|))
      case _ => v
  }

  predicate RemovedAt(ds: seq<Change>, path: Path) {
    match Find(ds, path)
    case Some(Removed(_)) => true
    case _ => false
  }

  /** The first `n` items of the array `v`, patched, without the removed ones. */
  function PatchItems(v: Json, ds: seq<Change>, at: Path, n: nat): seq<Json>
    requires v.Arr? && n <= |v.items|
    decreases v, 0, n
  {
    if n == 0 then []
    else PatchItems(v, ds, at, n - 1) +
         (if RemovedAt(ds, at + [Index(n - 1)]) then [] else [Patch(v.items[n - 1], ds, at + [Index(n - 1)])])
  }

  /** One more than the largest index reported at depth `d`. */
  function IndexBound(ds: seq<Change>, d: nat): nat {
    if ds == [] then 0
    else
      var here := if d < |ds[0].path| && ds[0].path[d].Index? then ds[0].path[d].i + 1 else 0;
      Max(here, IndexBound(ds[1..], d))
  }

  lemma {:induction false} FoundBelowBound(ds: seq<Change>, at: Path, i: nat)
    requires Find(ds, at + [Index(i)]).Some?
    ensures i < IndexBound(ds, |at|)
  {
    if ds[0].path != at + [Index(i)] { FoundBelowBound(ds[1..], at, i); }
  }

  /** The items reported as added from index `i` on. */
  function AddedItems(ds: seq<Change>, at: Path, i: nat): seq<Json>
    decreases IndexBound(ds, |at|) - i
  {
    match Find(ds, at + [Index(i)])
    case Some(Added(x)) => FoundBelowBound(ds, at, i); [x] + AddedItems(ds, at, i + 1)
    case _ => []
  }

  /** `ds` reports, at and below `at`, exactly what `local` reports. */
  ghost predicate Agree(ds: seq<Change>, local: seq<Change>, at: Path) {
    forall p :: at <= p ==> Find(ds, p) == Find(local, p)
  }

  ghost predicate AllBelow(ds: seq<Change>, at: Path) {
    forall c :: c in ds ==> at <= c.path
  }

  lemma {:induction false} FindAppend(xs: seq<Change>, ys: seq<Change>, p: Path)
    ensures Find(xs + ys, p) == if Find(xs, p).Some? then Find(xs, p) else Find(ys, p)
  {
    if xs == [] {
      assert xs + ys == ys;
    } else {
      assert (xs + ys)[1..] == xs[1..] + ys;
      FindAppend(xs[1..], ys, p);
    }
  }

  lemma {:induction false} FindElsewhere(ds: seq<Change>, at: Path, p: Path)
    requires AllBelow(ds, at) && !(at <= p)
    ensures Find(ds, p) == None
  {
    if ds != [] { FindElsewhere(ds[1..], at, p); }
  }

  lemma {:induction false} FindMember(ds: seq<Change>, p: Path)
    ensures Find(ds, p).Some? <==> exists c :: c in ds && c.path == p
    ensures Find(ds, p).Some? ==> Change(p, Find(ds, p).value) in ds
  {
    if ds != [] && ds[0].path != p {
      FindMember(ds[1..], p);
      assert forall c :: c in ds <==> c == ds[0] || c in ds[1..];
    }
  }

  lemma DiffBelow(e: Json, a: Json, at: Path)
    ensures AllBelow(Diff(e, a, at), at)
  {
    forall c | c in Diff(e, a, at) ensures at <= c.path { DiffSound(e, a, at, c); }
  }

  lemma FieldBelow(e: Json, a: Json, k: string, at: Path)
    requires e.Obj? && a.Obj? && (k in e.fields || k in a.fields)
    ensures AllBelow(DiffField(e, a, k, at), at + [Key(k)])
  {
    if k in e.fields && k in a.fields { DiffBelow(e.fields[k], a.fields[k], at + [Key(k)]); }
  }

  lemma ItemBelow(e: Json, a: Json, i: nat, at: Path)
    requires e.Arr? && a.Arr? && i < Max(|e.items|, |a.items|)
    ensures AllBelow(DiffItem(e, a, i, at), at + [Index(i)])
  {
    if i < |e.items| && i < |a.items| { DiffBelow(e.items[i], a.items[i], at + [Index(i)]); }
  }

  /** Below one key, the report on an object is the report on that key's values. */
  lemma {:induction false} FieldsAgree(e: Json, a: Json, keys: seq<string>, at: Path, k: string)
    requires e.Obj? && a.Obj? && forall x :: x in keys ==> x in e.fields || x in a.fields
    requires forall i, j :: 0 <= i < j < |keys| ==> keys[i] != keys[j]
    ensures forall p :: at + [Key(k)] <= p ==>
              Find(DiffFields(e, a, keys, at), p) == if k in keys then Find(DiffField(e, a, k, at), p) else None
  {
    if keys != [] {
      var front, last := keys[..|keys| - 1], keys[|keys| - 1];
      FieldsAgree(e, a, front, at, k);
      FieldBelow(e, a, last, at);
      forall p | at + [Key(k)] <= p
        ensures Find(DiffFields(e, a, keys, at), p) == if k in keys then Find(DiffField(e, a, k, at), p) else None
      {
        FindAppend(DiffFields(e, a, front, at), DiffField(e, a, last, at), p);
        if k != last {
          assert p[|at|] == (at + [Key(k)])[|at|] == Key(k);
          assert !(at + [Key(last)] <= p);
          FindElsewhere(DiffField(e, a, last, at), at + [Key(last)], p);
        }
      }
    }
  }

  lemma {:induction false} ItemsAgree(e: Json, a: Json, n: nat, at: Path, i: nat)
    requires e.Arr? && a.Arr? && n <= Max(|e.items|, |a.items|)
    ensures forall p :: at + [Index(i)] <= p ==>
              Find(DiffItems(e, a, n, at), p) == if i < n then Find(DiffItem(e, a, i, at), p) else None
  {
    if n > 0 {
      var last := n - 1;
      ItemsAgree(e, a, last, at, i);
      ItemBelow(e, a, last, at);
      var before, here := DiffItems(e, a, last, at), DiffItem(e, a, last, at);
      assert DiffItems(e, a, n, at) == before + here;
      forall p | at + [Index(i)] <= p
        ensures Find(DiffItems(e, a, n, at), p) == if i < n then Find(DiffItem(e, a, i, at), p) else None
      {
        FindAppend(before, here, p);
        if i != last {
          assert p[|at|] == (at + [Index(i)])[|at|] == Index(i);
          assert !(at + [Index(last)] <= p);
          FindElsewhere(here, at + [Index(last)], p);
        }
      }
    }
  }

  /** A report on two objects or two arrays never addresses the containers themselves. */
  lemma ContainerNotReplaced(e: Json, a: Json, at: Path)
    requires (e.Obj? && a.Obj?) || (e.Arr? && a.Arr?)
    ensures Find(Diff(e, a, at), at) == None
  {
    FindMember(Diff(e, a, at), at);
    assert at[|at|..] == [];
    if Find(Diff(e, a, at), at).Some? {
      DiffSound(e, a, at, Change(at, Find(Diff(e, a, at), at).value));
    }
  }

  /** Replacing, adding and removing at exactly the reported paths turns the
      expected document into the actual one, up to Python equality. */
  lemma PatchRebuildsActual(e: Json, a: Json)
    ensures PyEq(Patch(e, Diff(e, a, []), []), a)
  {
    PatchAgreeing(e, a, Diff(e, a, []), []);
  }

  lemma {:induction false} PatchAgreeing(e: Json, a: Json, ds: seq<Change>, at: Path)
    requires Agree(ds, Diff(e, a, at), at)
    ensures PyEq(Patch(e, ds, at), a)
    decreases e, 1
  {
    assert Find(ds, at) == Find(Diff(e, a, at), at);
    if e.Obj? && a.Obj? {
      ContainerNotReplaced(e, a, at);
      PatchFields(e, a, ds, at);
    } else if e.Arr? && a.Arr? {
      ContainerNotReplaced(e, a, at);
      PatchAllItems(e, a, ds, at);
    } else if PyEq(e, a) {
    } else {
      PyEqReflexive(a);
    }
  }

  /** What `ds` says about field `k` is what the diff of that field says. */
  ghost predicate ReportsField(e: Json, a: Json, ds: seq<Change>, at: Path, k: string)
    requires e.Obj? && a.Obj?
  {
    forall p :: at + [Key(k)] <= p ==>
      Find(ds, p) == if k in e.fields || k in a.fields then Find(DiffField(e, a, k, at), p) else None
  }

  lemma FieldReport(e: Json, a: Json, ds: seq<Change>, at: Path, k: string)
    requires e.Obj? && a.Obj? && Agree(ds, Diff(e, a, at), at)
    ensures ReportsField(e, a, ds, at, k)
  {
    FieldReportOver(e, a, ds, at, k, SortedNames(e.fields.Keys + a.fields.Keys));
  }

  lemma FieldReportOver(e: Json, a: Json, ds: seq<Change>, at: Path, k: string, keys: seq<string>)
    requires e.Obj? && a.Obj? && (forall x :: x in keys <==> x in e.fields || x in a.fields)
    requires (forall i, j :: 0 <= i < j < |keys| ==> keys[i] != keys[j]) && Agree(ds, DiffFields(e, a, keys, at), at)
    ensures ReportsField(e, a, ds, at, k)
  {
    FieldsAgree(e, a, keys, at, k);
    var whole := DiffFields(e, a, keys, at);
    forall p | at + [Key(k)] <= p
      ensures Find(ds, p) == if k in e.fields || k in a.fields then Find(DiffField(e, a, k, at), p) else None
    {
      assert at <= p by { assert at == (at + [Key(k)])[..|at|] == p[..|at|]; }
      assert Find(ds, p) == Find(whole, p);
    }
  }

  lemma {:induction false} PatchFields(e: Json, a: Json, ds: seq<Change>, at: Path)
    requires e.Obj? && a.Obj? && Find(ds, at) == None
    requires Agree(ds, Diff(e, a, at), at)
    ensures PyEq(Patch(e, ds, at), a)
    decreases e, 0, 2
  {
    forall k ensures ReportsField(e, a, ds, at, k) { FieldReport(e, a, ds, at, k); }
    PatchEachField(e, a, ds, at);
  }

  lemma {:induction false} PatchEachField(e: Json, a: Json, ds: seq<Change>, at: Path)
    requires e.Obj? && a.Obj? && Find(ds, at) == None
    requires forall k :: ReportsField(e, a, ds, at, k)
    ensures PyEq(Patch(e, ds, at), a)
    decreases e, 0, 1
  {
    var got := Patch(e, ds, at).fields;
    forall k ensures k in got <==> k in a.fields
             ensures k in a.fields ==> PyEq(got[k], a.fields[k])
    {
      PatchField(e, a, ds, at, k);
    }
    assert got.Keys == a.fields.Keys;
  }

  lemma {:induction false} PatchField(e: Json, a: Json, ds: seq<Change>, at: Path, k: string)
    requires e.Obj? && a.Obj? && Find(ds, at) == None && ReportsField(e, a, ds, at, k)
    ensures var got := Patch(e, ds, at).fields;
            && (k in got <==> k in a.fields)
            && (k in a.fields ==> PyEq(got[k], a.fields[k]))
    decreases e, 0, 0
  {
    var here := at + [Key(k)];
    assert Find(ds, here) == if k in e.fields || k in a.fields then Find(DiffField(e, a, k, at), here) else None;
    if k in a.fields && k !in e.fields {
      PyEqReflexive(a.fields[k]);
      FindMember(ds, here);
      assert Change(here, Added(a.fields[k])) in ds && here[|at|] == Key(k);
    } else if k in a.fields {
      assert Agree(ds, Diff(e.fields[k], a.fields[k], here), here);
      NotAddedOrRemoved(e.fields[k], a.fields[k], here);
      PatchAgreeing(e.fields[k], a.fields[k], ds, here);
    } else if k !in e.fields {
      NoneAdded(ds, at, k);
    }
  }

  lemma NoneAdded(ds: seq<Change>, at: Path, k: string)
    requires Find(ds, at + [Key(k)]) == None
    ensures forall c :: c in ds && c.edit.Added? && |c.path| == |at| + 1 && at <= c.path && c.path[|at|].Key?
              ==> c.path[|at|].name != k
  {
    FindMember(ds, at + [Key(k)]);
    forall c | c in ds && |c.path| == |at| + 1 && at <= c.path && c.path[|at|].Key?
      ensures c.path[|at|].name != k
    {
      assert c.path == at + [c.path[|at|]];
    }
  }

  /** A nested report never says of its own root that it was added or removed. */
  lemma NotAddedOrRemoved(e: Json, a: Json, at: Path)
    ensures match Find(Diff(e, a, at), at) case Some(Added(_)) => false case Some(Removed(_)) => false case _ => true
  {
    var ds := Diff(e, a, at);
    FindMember(ds, at);
    if Find(ds, at).Some? {
      DiffSound(e, a, at, Change(at, Find(ds, at).value));
      assert at[|at|..] == [];
    }
  }

  lemma {:induction false} PatchAllItems(e: Json, a: Json, ds: seq<Change>, at: Path)
    requires e.Arr? && a.Arr? && Find(ds, at) == None
    requires Agree(ds, Diff(e, a, at), at)
    ensures PyEq(Patch(e, ds, at), a)
    decreases e, 0, |e.items| + 1
  {
    var n := |e.items|;
    PatchPrefix(e, a, ds, at, n);
    AddedSuffix(e, a, ds, at, n);
    JoinedItems(PatchItems(e, ds, at, n), AddedItems(ds, at, n), a.items);
  }

  lemma JoinedItems(front: seq<Json>, back: seq<Json>, items: seq<Json>)
    requires |front| + |back| == |items| && forall i :: 0 <= i < |front| ==> PyEq(front[i], items[i])
    requires forall j :: 0 <= j < |back| ==> PyEq(back[j], items[|front| + j])
    ensures PyEq(Arr(front + back), Arr(items))
  {
    forall i | 0 <= i < |items| ensures PyEq((front + back)[i], items[i]) {
      if i >= |front| { assert (front + back)[i] == back[i - |front|]; }
    }
  }

  lemma ItemReport(e: Json, a: Json, ds: seq<Change>, at: Path, i: nat)
    requires e.Arr? && a.Arr? && Agree(ds, Diff(e, a, at), at)
    ensures forall p :: at + [Index(i)] <= p ==>
              Find(ds, p) == if i < Max(|e.items|, |a.items|) then Find(DiffItem(e, a, i, at), p) else None
  {
    ItemsAgree(e, a, Max(|e.items|, |a.items|), at, i);
    var whole := Diff(e, a, at);
    assert whole == DiffItems(e, a, Max(|e.items|, |a.items|), at);
    forall p | at + [Index(i)] <= p
      ensures Find(ds, p) == if i < Max(|e.items|, |a.items|) then Find(DiffItem(e, a, i, at), p) else None
    {
      assert at <= p by { assert at == (at + [Index(i)])[..|at|] == p[..|at|]; }
      assert Find(ds, p) == Find(whole, p);
    }
  }

  lemma {:induction false} PatchPrefix(e: Json, a: Json, ds: seq<Change>, at: Path, n: nat)
    requires e.Arr? && a.Arr? && n <= |e.items| && Agree(ds, Diff(e, a, at), at)
    ensures var got := PatchItems(e, ds, at, n);
            && |got| == (if n <= |a.items| then n else |a.items|)
            && forall i :: 0 <= i < |got| ==> PyEq(got[i], a.items[i])
    decreases e, 0, n
  {
    if n > 0 {
      var i := n - 1;
      var here := at + [Index(i)];
      PatchPrefix(e, a, ds, at, i);
      ItemReport(e, a, ds, at, i);
      if i < |a.items| {
        assert Agree(ds, Diff(e.items[i], a.items[i], here), here);
        NotAddedOrRemoved(e.items[i], a.items[i], here);
        PatchAgreeing(e.items[i], a.items[i], ds, here);
      }
    }
  }

  lemma {:induction false} AddedSuffix(e: Json, a: Json, ds: seq<Change>, at: Path, i: nat)
    requires e.Arr? && a.Arr? && i >= |e.items| && Agree(ds, Diff(e, a, at), at)
    ensures var got := AddedItems(ds, at, i);
            && |got| == (if i < |a.items| then |a.items| - i else 0)
            && forall j :: 0 <= j < |got| ==> PyEq(got[j], a.items[i + j])
    decreases |a.items| - i
  {
    ItemReport(e, a, ds, at, i);
    assert Find(ds, at + [Index(i)]) ==
           if i < |a.items| then Some(Added(a.items[i])) else None;
    if i < |a.items| {
      AddedSuffix(e, a, ds, at, i + 1);
      PyEqReflexive(a.items[i]);
    }
  }
}
