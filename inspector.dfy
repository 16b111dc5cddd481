/**
 * The field inspector (inspector.go): a depth-first walk over a request record that
 * flattens its primitive leaf fields into an ordered list of field descriptors, and the
 * split of such a list into required and optional fields.
 *
 * Go reflection is replaced by an explicit record tree: a `Value` is a primitive, a
 * struct (`Record`) whose declared fields carry a name, struct tags and a value, or a
 * value of some other kind, kept by its reflect.Kind name. The writable reference that
 * the source keeps for each leaf is a path of field positions from the top-level record.
 */
module Inspector {
  import opened Wrappers
  import opened Text

  datatype Value =
    | IntValue(i: int)
    | StringValue(s: string)
    | BoolValue(b: bool)
    | Record(fields: seq<Field>)
    | OtherValue(kind: string)  // "float64", "ptr", "slice", ...: any kind the core does not support

  /** The struct tags the core reads; a tag that is absent reads as "". */
  datatype Tags = Tags(valid: string, sFlag: string, lFlag: string, hint: string)

  /** One declared field of a struct. */
  datatype Field = Field(name: string, tags: Tags, value: Value)

  /** What a command's Request or Response holds: nil or a non-pointer, or a pointer to a value. */
  datatype Handle = NotPointer | Pointer(target: Value)

  /** The metadata of one leaf field (FieldInfo in the source). */
  datatype FieldInfo = FieldInfo(
    index: nat,
    required: bool,
    zero: bool,
    namespace: string,
    name: string,
    hint: string,
    sFlag: string,
    lFlag: string,
    value: Value,        // the value at inspection time; its constructor is the field's kind
    path: seq<nat>,      // where the field lives in the top-level record
    settable: bool,      // reflect's CanSet
    nested: seq<FieldInfo>)

  const NoTags := Tags("", "", "", "")
  const ErrStructPtrExpected := "pointer to struct expected"
  const ExcludedFieldNames: set<string> := {"XMLName", "Local", "Space"}

  predicate IsLeaf(v: Value)
  {
    v.IntValue? || v.StringValue? || v.BoolValue?
  }

  /** The zero value of `v`'s type (reflect.Zero), field by field for a struct. */
  function ZeroOf(v: Value): Value
  {
    match v
    case IntValue(_) => IntValue(0)
    case StringValue(_) => StringValue("")
    case BoolValue(_) => BoolValue(false)
    case Record(fs) =>
      Record(seq(|fs|, i requires 0 <= i < |fs| => Field(fs[i].name, fs[i].tags, ZeroOf(fs[i].value))))
    case OtherValue(k) => OtherValue(k)
  }

  /** A field is required when its `valid` tag begins with the word "required". */
  function IsRequired(valid: string): (r: bool)
    ensures r <==> "required" <= valid
  {
    IndexZeroIffPrefix(valid, "required");
    valid != "" && Index(valid, "required") == 0
  }

  /** The descriptor collected for a leaf field found at `path` under namespace `ns`. */
  function Describe(index: nat, ns: string, f: Field, path: seq<nat>): FieldInfo
  {
    FieldInfo(index, IsRequired(f.tags.valid), f.value == ZeroOf(f.value), ns, f.name,
      f.tags.hint, f.tags.sFlag, f.tags.lFlag, f.value, path, true, [])
  }

  /** The namespace of the fields of struct field `name` nested in namespace `ns`. */
  function ChildNamespace(ns: string, name: string): string
  {
    if name != "" then ns + name + "->" else ""
  }

  // ---------------------------------------------------------------------------
  // The walk, as a function of the index the shared counter holds when it starts

  /** What `inspect` appends for field `f`, or the error that stops it. */
  function Walk(ns: string, f: Field, path: seq<nat>, start: nat): Result<seq<FieldInfo>>
    decreases f.value, 1
  {
    if IsLeaf(f.value) then
      if f.name in ExcludedFieldNames then Success([]) else Success([Describe(start, ns, f, path)])
    else if f.value.Record? then
      WalkFields(ChildNamespace(ns, f.name), f.value, path, |f.value.fields|, start)
    else
      Failure("Unsupported kind: " + f.value.kind)
  }

  /** What `inspect` appends for the first `n` fields of struct `v`, or the first error. */
  function WalkFields(ns: string, v: Value, path: seq<nat>, n: nat, start: nat): Result<seq<FieldInfo>>
    requires v.Record? && n <= |v.fields|
    decreases v, 0, n
  {
    if n == 0 then Success([])
    else
      match WalkFields(ns, v, path, n - 1, start)
      case Failure(e) => Failure(e)
      case Success(xs) =>
        match Walk(ns, v.fields[n - 1], path + [n - 1], start + |xs|)
        case Failure(e) => Failure(e)
        case Success(ys) => Success(xs + ys)
  }

  /** The result InspectStruct must return for handle `h`. */
  function Flatten(h: Handle): Result<seq<FieldInfo>>
  {
    if !h.Pointer? || !h.target.Record? then Failure(ErrStructPtrExpected)
    else Walk("", Field("", NoTags, h.target), [], 0)
  }

  /**
   * The slice and the index counter that `inspect` receives by pointer and shares with
   * every recursive call.
   */
  class Inspection {
    var fields: seq<FieldInfo>
    var index: nat

    constructor ()
      ensures fields == [] && index == 0
    {
      fields := [];
      index := 0;
    }

    /** inspect: appends the descriptors of `f`'s leaves, advancing the counter once per leaf. */
    method Inspect(ns: string, f: Field, path: seq<nat>) returns (err: Option<string>)
      modifies this
      ensures match Walk(ns, f, path, old(index))
        case Success(xs) => err == None && fields == old(fields) + xs && index == old(index) + |xs|
        case Failure(e) => err == Some(e)
      decreases f.value, 1
    {
      if IsLeaf(f.value) {
        if f.name in ExcludedFieldNames {
          return None;
        }
        fields := fields + [Describe(index, ns, f, path)];
        index := index + 1;
        return None;
      } else if f.value.Record? {
        var newNs := if f.name != "" then ns + f.name + "->" else "";
        err := InspectFields(newNs, f.value, path);
      } else {
        return Some("Unsupported kind: " + f.value.kind);
      }
    }

    /** The loop of `inspect` over the fields of struct `v`, stopping at the first error. */
    method InspectFields(ns: string, v: Value, path: seq<nat>) returns (err: Option<string>)
      requires v.Record?
      modifies this
      ensures match WalkFields(ns, v, path, |v.fields|, old(index))
        case Success(xs) => err == None && fields == old(fields) + xs && index == old(index) + |xs|
        case Failure(e) => err == Some(e)
      decreases v, 0
    {
      var children := v.fields;
      var i := 0;
      while i < |children|
        invariant 0 <= i <= |children|
        invariant WalkFields(ns, v, path, i, old(index)).Success?
        invariant fields == old(fields) + WalkFields(ns, v, path, i, old(index)).value
        invariant index == old(index) + |WalkFields(ns, v, path, i, old(index)).value|
      {
        ghost var done := WalkFields(ns, v, path, i, old(index)).value;
        ghost var next := Walk(ns, children[i], path + [i], old(index) + |done|);
        assert WalkFields(ns, v, path, i + 1, old(index)) == if next.Success? then Success(done + next.value) else Failure(next.error);
        err := Inspect(ns, children[i], path + [i]);
        if err.Some? {
          WalkFieldsFailurePersists(ns, v, path, i + 1, |children|, old(index));
          return;
        }
        i := i + 1;
      }
      return None;
    }
  }

  /** Once the walk over a struct's fields fails, walking further fields fails the same way. */
  lemma {:induction false} WalkFieldsFailurePersists(ns: string, v: Value, path: seq<nat>, n: nat, m: nat, start: nat)
    requires v.Record? && n <= m <= |v.fields|
    requires WalkFields(ns, v, path, n, start).Failure?
    ensures WalkFields(ns, v, path, m, start) == WalkFields(ns, v, path, n, start)
    decreases m
  {
    if m > n {
      WalkFieldsFailurePersists(ns, v, path, n, m - 1, start);
    }
  }

  /** InspectStruct: the descriptors of every leaf of the record `h` points to. */
  method InspectStruct(h: Handle) returns (r: Result<seq<FieldInfo>>)
    ensures r == Flatten(h)
  {
    if !h.Pointer? {
      return Failure(ErrStructPtrExpected);
    }
    if !h.target.Record? {
      return Failure(ErrStructPtrExpected);
    }
    var inspection := new Inspection();
    var err := inspection.Inspect("", Field("", NoTags, h.target), []);
    if err.Some? {
      return Failure(err.value);
    }
    assert Flatten(h).Success?;
    assert inspection.fields == [] + Flatten(h).value == Flatten(h).value;
    return Success(inspection.fields);
  }

  // ---------------------------------------------------------------------------
  // What the walk produces

  /** Every descriptor is a settable, non-excluded primitive leaf numbered by its position. */
  predicate WellNumbered(xs: seq<FieldInfo>, start: nat)
  {
    forall k :: 0 <= k < |xs| ==>
      && xs[k].index == start + k
      && IsLeaf(xs[k].value)
      && xs[k].name !in ExcludedFieldNames
      && xs[k].settable
      && xs[k].nested == []
  }

  lemma {:induction false} WalkWellNumbered(ns: string, f: Field, path: seq<nat>, start: nat)
    ensures Walk(ns, f, path, start).Success? ==> WellNumbered(Walk(ns, f, path, start).value, start)
    decreases f.value, 1
  {
    if f.value.Record? {
      WalkFieldsWellNumbered(ChildNamespace(ns, f.name), f.value, path, |f.value.fields|, start);
    }
  }

  lemma {:induction false} WalkFieldsWellNumbered(ns: string, v: Value, path: seq<nat>, n: nat, start: nat)
    requires v.Record? && n <= |v.fields|
    ensures WalkFields(ns, v, path, n, start).Success? ==> WellNumbered(WalkFields(ns, v, path, n, start).value, start)
    decreases v, 0, n
  {
    if n > 0 {
      WalkFieldsWellNumbered(ns, v, path, n - 1, start);
      var prev := WalkFields(ns, v, path, n - 1, start);
      if prev.Success? {
        WalkWellNumbered(ns, v.fields[n - 1], path + [n - 1], start + |prev.value|);
      }
    }
  }

  /**
   * A successful InspectStruct numbers its descriptors 0..N-1 in output order, and every
   * descriptor is a settable int, string or bool leaf whose name is not XMLName, Local or Space.
   */
  lemma InspectStructNumbering(h: Handle)
    ensures Flatten(h).Success? ==> WellNumbered(Flatten(h).value, 0)
  {
    if h.Pointer? && h.target.Record? {
      WalkWellNumbered("", Field("", NoTags, h.target), [], 0);
    }
  }

  /** Whether a field of kind other than int, string, bool or struct occurs anywhere in `v`. */
  predicate HasUnsupported(v: Value)
  {
    match v
    case Record(fs) => exists i :: 0 <= i < |fs| && HasUnsupported(fs[i].value)
    case OtherValue(_) => true
    case _ => false
  }

  lemma {:induction false} WalkFailsIffUnsupported(ns: string, f: Field, path: seq<nat>, start: nat)
    ensures Walk(ns, f, path, start).Failure? <==> HasUnsupported(f.value)
    decreases f.value, 1
  {
    if f.value.Record? {
      WalkFieldsFailsIffUnsupported(ChildNamespace(ns, f.name), f.value, path, |f.value.fields|, start);
    }
  }

  lemma {:induction false} WalkFieldsFailsIffUnsupported(ns: string, v: Value, path: seq<nat>, n: nat, start: nat)
    requires v.Record? && n <= |v.fields|
    ensures WalkFields(ns, v, path, n, start).Failure? <==> exists i :: 0 <= i < n && HasUnsupported(v.fields[i].value)
    decreases v, 0, n
  {
    if n > 0 {
      WalkFieldsFailsIffUnsupported(ns, v, path, n - 1, start);
      var prev := WalkFields(ns, v, path, n - 1, start);
      if prev.Success? {
        WalkFailsIffUnsupported(ns, v.fields[n - 1], path + [n - 1], start + |prev.value|);
      }
    }
  }

  /**
   * InspectStruct fails with ErrStructPtrExpected unless it is given a pointer to a struct,
   * and otherwise fails exactly when some field anywhere in the struct has an unsupported kind.
   */
  lemma InspectStructFailures(h: Handle)
    ensures !(h.Pointer? && h.target.Record?) ==> Flatten(h) == Failure(ErrStructPtrExpected)
    ensures h.Pointer? && h.target.Record? ==> (Flatten(h).Failure? <==> HasUnsupported(h.target))
  {
    if h.Pointer? && h.target.Record? {
      WalkFailsIffUnsupported("", Field("", NoTags, h.target), [], 0);
      WalkFieldsFailsIffUnsupported("", h.target, [], |h.target.fields|, 0);
    }
  }

  // ---------------------------------------------------------------------------
  // A reference definition: the eligible leaves and the names of the structs enclosing them

  /** A leaf field, the names of the nested struct fields enclosing it, and its path. */
  datatype Leaf = Leaf(chain: seq<string>, field: Field, path: seq<nat>)

  /** "A->B->" for the chain ["A", "B"]. */
  function Arrow(chain: seq<string>): string
  {
    if chain == [] then "" else Arrow(chain[..|chain| - 1]) + chain[|chain| - 1] + "->"
  }

  /** Every struct field below `v`, at any depth, has a non-empty name (as Go guarantees). */
  predicate Named(v: Value)
  {
    match v
    case Record(fs) => forall i :: 0 <= i < |fs| ==> fs[i].name != "" && Named(fs[i].value)
    case _ => true
  }

  /** The int, string and bool leaves of `f` that are not excluded, depth-first in declaration order. */
  function Leaves(f: Field, chain: seq<string>, path: seq<nat>): seq<Leaf>
    decreases f.value, 1
  {
    if IsLeaf(f.value) then
      if f.name in ExcludedFieldNames then [] else [Leaf(chain, f, path)]
    else if f.value.Record? then
      LeavesUpTo(f.value, chain + [f.name], path, |f.value.fields|)
    else []
  }

  function LeavesUpTo(v: Value, chain: seq<string>, path: seq<nat>, n: nat): seq<Leaf>
    requires v.Record? && n <= |v.fields|
    decreases v, 0, n
  {
    if n == 0 then [] else LeavesUpTo(v, chain, path, n - 1) + Leaves(v.fields[n - 1], chain, path + [n - 1])
  }

  /** The descriptors `xs`, numbered from `start`, describe the leaves `ls` one for one. */
  predicate Matches(xs: seq<FieldInfo>, ls: seq<Leaf>, start: nat)
  {
    |xs| == |ls| &&
    forall k :: 0 <= k < |xs| ==> xs[k] == Describe(start + k, Arrow(ls[k].chain), ls[k].field, ls[k].path)
  }

  lemma MatchesAppend(xs: seq<FieldInfo>, ls: seq<Leaf>, ys: seq<FieldInfo>, ms: seq<Leaf>, start: nat)
    requires Matches(xs, ls, start) && Matches(ys, ms, start + |xs|)
    ensures Matches(xs + ys, ls + ms, start)
  {
    forall k | 0 <= k < |xs + ys|
      ensures (xs + ys)[k] == Describe(start + k, Arrow((ls + ms)[k].chain), (ls + ms)[k].field, (ls + ms)[k].path)
    {
      if k >= |xs| {
        assert (xs + ys)[k] == ys[k - |xs|] && (ls + ms)[k] == ms[k - |xs|];
      }
    }
  }

  lemma {:induction false} WalkMatchesLeaves(chain: seq<string>, f: Field, path: seq<nat>, start: nat)
    requires f.name != "" && Named(f.value)
    ensures Walk(Arrow(chain), f, path, start).Success? ==>
      Matches(Walk(Arrow(chain), f, path, start).value, Leaves(f, chain, path), start)
    decreases f.value, 1
  {
    if f.value.Record? {
      var inner := chain + [f.name];
      assert inner[..|inner| - 1] == chain;
      assert ChildNamespace(Arrow(chain), f.name) == Arrow(inner);
      WalkFieldsMatchesLeaves(inner, f.value, path, |f.value.fields|, start);
    }
  }

  lemma {:induction false} WalkFieldsMatchesLeaves(chain: seq<string>, v: Value, path: seq<nat>, n: nat, start: nat)
    requires v.Record? && n <= |v.fields| && Named(v)
    ensures WalkFields(Arrow(chain), v, path, n, start).Success? ==>
      Matches(WalkFields(Arrow(chain), v, path, n, start).value, LeavesUpTo(v, chain, path, n), start)
    decreases v, 0, n
  {
    if n > 0 {
      WalkFieldsMatchesLeaves(chain, v, path, n - 1, start);
      var prev := WalkFields(Arrow(chain), v, path, n - 1, start);
      if prev.Success? {
        var f := v.fields[n - 1];
        WalkMatchesLeaves(chain, f, path + [n - 1], start + |prev.value|);
        var next := Walk(Arrow(chain), f, path + [n - 1], start + |prev.value|);
        if next.Success? {
          MatchesAppend(prev.value, LeavesUpTo(v, chain, path, n - 1), next.value, Leaves(f, chain, path + [n - 1]), start);
        }
      }
    }
  }

  /**
   * A successful InspectStruct yields one descriptor per eligible leaf, in depth-first
   * declaration order: descriptor k has index k, the leaf's own name, tags and value, and the
   * namespace "P1->P2->...->" built from the nested struct fields enclosing it ("" directly
   * under the top-level record).
   */
  lemma InspectStructDescribesLeaves(v: Value)
    requires v.Record? && Named(v)
    ensures Flatten(Pointer(v)).Success? ==> Matches(Flatten(Pointer(v)).value, LeavesUpTo(v, [], [], |v.fields|), 0)
  {
    WalkFieldsMatchesLeaves([], v, [], |v.fields|, 0);
  }

  // ---------------------------------------------------------------------------
  // Zero values

  /** Every primitive in `v` is the zero value of its kind. */
  predicate Zeroed(v: Value)
  {
    match v
    case Record(fs) => forall i :: 0 <= i < |fs| ==> Zeroed(fs[i].value)
    case _ => v == ZeroOf(v)
  }

  lemma {:induction false} ZeroOfIsZeroed(v: Value)
    ensures Zeroed(ZeroOf(v))
  {
    match v
    case Record(fs) =>
      forall i | 0 <= i < |fs| ensures Zeroed(ZeroOf(v).fields[i].value) {
        ZeroOfIsZeroed(fs[i].value);
      }
    case _ =>
  }

  lemma {:induction false} WalkZeroed(ns: string, f: Field, path: seq<nat>, start: nat)
    requires Zeroed(f.value)
    ensures Walk(ns, f, path, start).Success? ==>
      forall k :: 0 <= k < |Walk(ns, f, path, start).value| ==> Walk(ns, f, path, start).value[k].zero
    decreases f.value, 1
  {
    if f.value.Record? {
      WalkFieldsZeroed(ChildNamespace(ns, f.name), f.value, path, |f.value.fields|, start);
    }
  }

  lemma {:induction false} WalkFieldsZeroed(ns: string, v: Value, path: seq<nat>, n: nat, start: nat)
    requires v.Record? && n <= |v.fields| && Zeroed(v)
    ensures WalkFields(ns, v, path, n, start).Success? ==>
      forall k :: 0 <= k < |WalkFields(ns, v, path, n, start).value| ==> WalkFields(ns, v, path, n, start).value[k].zero
    decreases v, 0, n
  {
    if n > 0 {
      WalkFieldsZeroed(ns, v, path, n - 1, start);
      var prev := WalkFields(ns, v, path, n - 1, start);
      if prev.Success? {
        WalkZeroed(ns, v.fields[n - 1], path + [n - 1], start + |prev.value|);
      }
    }
  }

  /** Inspecting a freshly zeroed record marks every descriptor Zero. */
  lemma InspectZeroRecord(v: Value)
    requires v.Record?
    ensures Flatten(Pointer(ZeroOf(v))).Success? ==>
      forall k :: 0 <= k < |Flatten(Pointer(ZeroOf(v))).value| ==> Flatten(Pointer(ZeroOf(v))).value[k].zero
  {
    ZeroOfIsZeroed(v);
    WalkZeroed("", Field("", NoTags, ZeroOf(v)), [], 0);
  }

  /** A descriptor is Zero exactly when its leaf holds 0, "" or false. */
  lemma DescribeZero(index: nat, ns: string, f: Field, path: seq<nat>)
    requires IsLeaf(f.value)
    ensures Describe(index, ns, f, path).zero <==> f.value in {IntValue(0), StringValue(""), BoolValue(false)}
  {
  }

  // ---------------------------------------------------------------------------
  // Field storage: the path a descriptor keeps leads to the field it describes

  /** The value stored at `path` inside `v`, if the path leads to a field. */
  function ValueAt(v: Value, path: seq<nat>): Option<Value>
    decreases |path|
  {
    if path == [] then Some(v)
    else if v.Record? && path[0] < |v.fields| then ValueAt(v.fields[path[0]].value, path[1..])
    else None
  }

  /** `v` with the value at `path` replaced by `x` (a write through the field's reference). */
  function SetAt(v: Value, path: seq<nat>, x: Value): Value
    decreases |path|
  {
    if path == [] then x
    else if v.Record? && path[0] < |v.fields| then
      var f := v.fields[path[0]];
      Record(v.fields[path[0] := Field(f.name, f.tags, SetAt(f.value, path[1..], x))])
    else v
  }

  /** Writing through a reference that leads to a field stores exactly the written value there. */
  lemma {:induction false} SetAtThenValueAt(v: Value, path: seq<nat>, x: Value)
    requires ValueAt(v, path).Some?
    ensures ValueAt(SetAt(v, path, x), path) == Some(x)
    decreases |path|
  {
    if path != [] {
      SetAtThenValueAt(v.fields[path[0]].value, path[1..], x);
    }
  }

  /** Writing through one reference leaves every field off that path as it was. */
  lemma {:induction false} SetAtLeavesOthers(v: Value, path: seq<nat>, other: seq<nat>, x: Value)
    requires ValueAt(v, path).Some?
    requires !(path <= other) && !(other <= path)
    ensures ValueAt(SetAt(v, path, x), other) == ValueAt(v, other)
    decreases |path|
  {
    if path[0] == other[0] {
      assert !(path[1..] <= other[1..]) && !(other[1..] <= path[1..]) by {
        assert path == [path[0]] + path[1..] && other == [other[0]] + other[1..];
      }
      SetAtLeavesOthers(v.fields[path[0]].value, path[1..], other[1..], x);
    }
  }

  /** Each descriptor's path, below the path of the field walked, leads to its own value. */
  predicate PathsLeadHome(xs: seq<FieldInfo>, root: Value, path: seq<nat>)
  {
    forall k :: 0 <= k < |xs| ==>
      path <= xs[k].path && ValueAt(root, xs[k].path[|path|..]) == Some(xs[k].value)
  }

  lemma {:induction false} WalkPaths(ns: string, f: Field, path: seq<nat>, start: nat)
    ensures Walk(ns, f, path, start).Success? ==> PathsLeadHome(Walk(ns, f, path, start).value, f.value, path)
    decreases f.value, 1
  {
    if f.value.Record? {
      WalkFieldsPaths(ChildNamespace(ns, f.name), f.value, path, |f.value.fields|, start);
    }
  }

  lemma {:induction false} WalkFieldsPaths(ns: string, v: Value, path: seq<nat>, n: nat, start: nat)
    requires v.Record? && n <= |v.fields|
    ensures WalkFields(ns, v, path, n, start).Success? ==> PathsLeadHome(WalkFields(ns, v, path, n, start).value, v, path)
    decreases v, 0, n
  {
    if n > 0 {
      WalkFieldsPaths(ns, v, path, n - 1, start);
      var prev := WalkFields(ns, v, path, n - 1, start);
      if prev.Success? {
        var child := path + [n - 1];
        WalkPaths(ns, v.fields[n - 1], child, start + |prev.value|);
        var next := Walk(ns, v.fields[n - 1], child, start + |prev.value|);
        if next.Success? {
          var all := prev.value + next.value;
          forall k | 0 <= k < |all| ensures path <= all[k].path && ValueAt(v, all[k].path[|path|..]) == Some(all[k].value) {
            if k >= |prev.value| {
              var x := next.value[k - |prev.value|];
              assert all[k] == x;
              assert child <= x.path;
              var rest := x.path[|path|..];
              assert rest[0] == n - 1 && rest[1..] == x.path[|child|..];
            }
          }
        }
      }
    }
  }

  /** The reference of every descriptor InspectStruct returns leads to that field in the record. */
  lemma InspectStructPaths(v: Value)
    ensures Flatten(Pointer(v)).Success? ==>
      forall k :: 0 <= k < |Flatten(Pointer(v)).value| ==>
        ValueAt(v, Flatten(Pointer(v)).value[k].path) == Some(Flatten(Pointer(v)).value[k].value)
  {
    if v.Record? {
      WalkPaths("", Field("", NoTags, v), [], 0);
      var r := Flatten(Pointer(v));
      if r.Success? {
        forall k | 0 <= k < |r.value| ensures ValueAt(v, r.value[k].path) == Some(r.value[k].value) {
          assert r.value[k].path[0..] == r.value[k].path;
        }
      }
    }
  }

  // ---------------------------------------------------------------------------
  // splitRequiredFields

  /** The leaf descriptors of `fis`, expanding any nested descriptor lists in place. */
  function LeafInfos(fis: seq<FieldInfo>): seq<FieldInfo>
  {
    if fis == [] then []
    else
      var last := fis[|fis| - 1];
      LeafInfos(fis[..|fis| - 1]) + (if |last.nested| > 0 then LeafInfos(last.nested) else [last])
  }

  /** The descriptors of `fis` whose Required flag is `required`, in their original order. */
  function Filter(fis: seq<FieldInfo>, required: bool): seq<FieldInfo>
  {
    if fis == [] then []
    else (if fis[0].required == required then [fis[0]] else []) + Filter(fis[1..], required)
  }

  lemma {:induction false} FilterAppend(a: seq<FieldInfo>, b: seq<FieldInfo>, required: bool)
    ensures Filter(a + b, required) == Filter(a, required) + Filter(b, required)
  {
    if a != [] {
      var head := if a[0].required == required then [a[0]] else [];
      assert (a + b)[0] == a[0] && (a + b)[1..] == a[1..] + b;
      FilterAppend(a[1..], b, required);
      assert Filter(a + b, required) == head + (Filter(a[1..], required) + Filter(b, required));
    } else {
      assert a + b == b;
    }
  }

  /** splitRequiredFields: the required and the optional leaves, each in encounter order. */
  method SplitRequiredFields(fis: seq<FieldInfo>) returns (required: seq<FieldInfo>, optional: seq<FieldInfo>)
    ensures required == Filter(LeafInfos(fis), true)
    ensures optional == Filter(LeafInfos(fis), false)
  {
    required, optional := [], [];
    for i := 0 to |fis|
      invariant required == Filter(LeafInfos(fis[..i]), true)
      invariant optional == Filter(LeafInfos(fis[..i]), false)
    {
      var fi := fis[i];
      assert fis[..i + 1][..i] == fis[..i];
      var done := LeafInfos(fis[..i]);
      if |fi.nested| > 0 {
        var r, o := SplitRequiredFields(fi.nested);
        FilterAppend(done, LeafInfos(fi.nested), true);
        FilterAppend(done, LeafInfos(fi.nested), false);
        required := required + r;
        optional := optional + o;
      } else {
        FilterAppend(done, [fi], true);
        FilterAppend(done, [fi], false);
        if fi.required {
          required := required + [fi];
        } else {
          optional := optional + [fi];
        }
      }
    }
    assert fis[..|fis|] == fis;
  }

  /**
   * The split is a partition: every leaf lands in exactly one of the two lists, each list
   * holds only leaves of its own kind, and together they hold every leaf.
   */
  lemma {:induction false} FilterPartition(s: seq<FieldInfo>)
    ensures multiset(Filter(s, true)) + multiset(Filter(s, false)) == multiset(s)
    ensures forall x :: x in Filter(s, true) ==> x in s && x.required
    ensures forall x :: x in Filter(s, false) ==> x in s && !x.required
  {
    if s != [] {
      FilterPartition(s[1..]);
      assert s == [s[0]] + s[1..];
    }
  }

  /** The inspector's own output has no nested lists, so splitting it partitions exactly it. */
  lemma {:induction false} FlatLeafInfos(xs: seq<FieldInfo>)
    requires forall k :: 0 <= k < |xs| ==> xs[k].nested == []
    ensures LeafInfos(xs) == xs
  {
    if xs != [] {
      FlatLeafInfos(xs[..|xs| - 1]);
      assert xs == xs[..|xs| - 1] + [xs[|xs| - 1]];
    }
  }
}
