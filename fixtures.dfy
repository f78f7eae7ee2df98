/**
 * The fixtures of the test suite: its test classes as heap objects, the
 * heap each test starts from, the paths the tests write, and small lemmas
 * that walk concrete paths. Address 0 always holds the def registered under
 * guid "a".
 */
module Fixtures {
  import opened Wrappers
  import opened Errors
  import opened Values
  import opened FieldPath
  import opened ObjectGraph
  import opened Resolver
  import opened Applier

  // ----- Fixtures: the test classes as heap objects -----

  /** An instance of TestClass. */
  function TestClassObj(intValue: int, doubleValue: real, boolValue: bool, stringValue: string, nested: Value): Obj
  {
    Instance(map["intValue" := Prim(IntV(intValue)), "doubleValue" := Prim(DoubleV(doubleValue)),
                 "boolValue" := Prim(BoolV(boolValue)), "stringValue" := Prim(StrV(stringValue)),
                 "nested" := nested])
  }

  /** The fields of a TestClass, looked up by name. */
  lemma TestClassFields(intValue: int, doubleValue: real, boolValue: bool, stringValue: string, nested: Value)
    ensures var f := TestClassObj(intValue, doubleValue, boolValue, stringValue, nested).fields;
      && f["intValue"] == Prim(IntV(intValue)) && f["doubleValue"] == Prim(DoubleV(doubleValue))
      && f["boolValue"] == Prim(BoolV(boolValue)) && f["stringValue"] == Prim(StrV(stringValue))
      && f["nested"] == nested && "wrong" !in f
  {
    assert |"intValue"| == 8 && |"doubleValue"| == 11 && |"boolValue"| == 9 && |"stringValue"| == 11;
    assert |"nested"| == 6 && |"wrong"| == 5;
    assert "doubleValue"[0] != "stringValue"[0];
  }

  /** An instance of TestClass.Nested. */
  function NestedObj(intValue: int, anotherNest: Value): Obj
  {
    Instance(map["intValue" := Prim(IntV(intValue)), "anotherNest" := anotherNest])
  }

  /** An instance of TestClass.Nested.AnotherNest. */
  function AnotherNestObj(intValue: int): Obj
  {
    Instance(map["intValue" := Prim(IntV(intValue))])
  }

  /** The assembly-qualified name of TestClass.Nested, whose static fields the holder carries. */
  const NestedClassName := "PPDefModifierTests.ApplyModTests+TestClass+Nested, PPDefModifierTests"

  /** The holder of TestClass.Nested's static fields. */
  function NestedStatics(staticIntValue: int): Obj
  {
    Instance(map["staticIntValue" := Prim(IntV(staticIntValue))])
  }

  /** An instance of ArrayTestClass. */
  function ArrayTestObj(arr: Value, values: Value): Obj
  {
    Instance(map["arr" := arr, "values" := values])
  }

  /** The references an ArrayTestClass holds are those of arr and values. */
  lemma ArrayTestRefs(arr: Value, values: Value, dom: set<Addr>)
    requires RefsIn(arr, dom) && RefsIn(values, dom)
    ensures ObjRefsIn(ArrayTestObj(arr, values), dom)
  {
    var fs := ArrayTestObj(arr, values).fields;
    assert forall n :: n in fs ==> n == "arr" || n == "values";
  }

  /** An instance of ArrayTestClass.Nested. */
  function ArrayNestedObj(value: int, nestedValues: Value): Obj
  {
    Instance(map["value" := Prim(IntV(value)), "nestedValues" := nestedValues])
  }

  /** The references an ArrayTestClass.Nested holds are those of nestedValues. */
  lemma ArrayNestedRefs(value: int, nestedValues: Value, dom: set<Addr>)
    requires RefsIn(nestedValues, dom)
    ensures ObjRefsIn(ArrayNestedObj(value, nestedValues), dom)
  {
    var fs := ArrayNestedObj(value, nestedValues).fields;
    assert forall n :: n in fs ==> n == "value" || n == "nestedValues";
  }

  function Doubles(ds: seq<real>): (r: Obj)
    ensures r.Indexable? && r.kind == Array && |r.elems| == |ds|
    ensures forall k :: 0 <= k < |ds| ==> r.elems[k] == Prim(DoubleV(ds[k]))
  {
    Indexable(Array, seq(|ds|, k requires 0 <= k < |ds| => Prim(DoubleV(ds[k]))))
  }

  lemma DoublesRefs(ds: seq<real>, dom: set<Addr>)
    ensures ObjRefsIn(Doubles(ds), dom)
  {
  }

  /** A value of the struct NestedStruct.Nested, with its struct field further. */
  function NestedStructValue(value: int, value2: int): Value
  {
    Struct(map["Value" := Prim(IntV(value)), "further" := Struct(map["Value2" := Prim(IntV(value2))])])
  }

  lemma NestedStructValueRefs(value: int, value2: int, dom: set<Addr>)
    ensures RefsIn(NestedStructValue(value, value2), dom)
  {
    var further := Struct(map["Value2" := Prim(IntV(value2))]);
    assert RefsIn(further, dom) by {
      assert forall n :: n in further.fields ==> n == "Value2";
    }
    var fs := NestedStructValue(value, value2).fields;
    assert forall n :: n in fs ==> n == "Value" || n == "further";
  }

  /** An instance of NestedStruct. */
  function NestedStructObj(nested: Value, nestedArray: Value, nestedList: Value): Obj
  {
    Instance(map["nested" := nested, "nestedArray" := nestedArray, "nestedList" := nestedList])
  }

  /** The repository of every test: one def, registered under guid "a", at address 0. */
  const Defs: map<string, Addr> := map["a" := 0]

  const NoStatics: map<string, Addr> := map[]

  function SingleEdit(field: string, raw: Scalar): ModifierDefinition
  {
    ModifierDefinition(ByGuid("a"), Single(field, raw))
  }

  /** The static namespaces of every test: TestClass.Nested's static fields at address 1. */
  const Statics: map<string, Addr> := map[NestedClassName := 1]

  // ----- Heaps: each test's fixture, with the def at address 0 -----

  /** A TestClass with no nested object. */
  function FlatHeap(intValue: int, doubleValue: real, boolValue: bool, stringValue: string): (h: Heap)
    ensures StateValid(h, Defs, NoStatics)
  {
    map[0 := TestClassObj(intValue, doubleValue, boolValue, stringValue, Null)]
  }

  /** A TestClass whose nested object has no anotherNest. */
  function NestedHeap(): (h: Heap)
    ensures StateValid(h, Defs, NoStatics)
  {
    map[0 := TestClassObj(0, 0.0, false, "", Ref(1)), 1 := NestedObj(0, Null)]
  }

  /** A TestClass with nested and nested.anotherNest. */
  function DoubleNestedHeap(): (h: Heap)
    ensures StateValid(h, Defs, NoStatics)
  {
    map[0 := TestClassObj(0, 0.0, false, "", Ref(1)), 1 := NestedObj(0, Ref(2)), 2 := AnotherNestObj(0)]
  }

  /** An empty TestClass, and the static fields of TestClass.Nested at address 1. */
  function StaticHeap(): (h: Heap)
    ensures StateValid(h, Defs, Statics)
  {
    map[0 := TestClassObj(0, 0.0, false, "", Null), 1 := NestedStatics(0)]
  }

  /** An ArrayTestClass whose arr holds three ArrayTestClass.Nested with values 7, 8, 9. */
  function ArrayHeap(): (h: Heap)
    ensures StateValid(h, Defs, NoStatics)
  {
    var h := map[0 := ArrayTestObj(Ref(1), Null), 1 := Indexable(Array, [Ref(2), Ref(3), Ref(4)]),
                 2 := ArrayNestedObj(7, Null), 3 := ArrayNestedObj(8, Null), 4 := ArrayNestedObj(9, Null)];
    assert h.Keys == {0, 1, 2, 3, 4};
    ArrayTestRefs(Ref(1), Null, h.Keys);
    ArrayNestedRefs(7, Null, h.Keys);
    ArrayNestedRefs(8, Null, h.Keys);
    ArrayNestedRefs(9, Null, h.Keys);
    h
  }

  /** An ArrayTestClass whose values are 7.0, 8.0, 9.0. */
  function ValuesHeap(): (h: Heap)
    ensures StateValid(h, Defs, NoStatics)
  {
    map[0 := ArrayTestObj(Null, Ref(1)), 1 := Doubles([7.0, 8.0, 9.0])]
  }

  /** The objects of MultiArrayHeap. */
  function MultiArrayObjects(): Heap
  {
    map[0 := ArrayTestObj(Ref(1), Null), 1 := Indexable(Array, [Ref(2), Ref(3), Ref(4)]),
        2 := ArrayNestedObj(0, Ref(5)), 3 := ArrayNestedObj(0, Ref(6)), 4 := ArrayNestedObj(0, Ref(7)),
        5 := Doubles([7.0, 8.0]), 6 := Doubles([17.0, 18.0, 19.0]), 7 := Doubles([27.0, 28.0, 29.0, 30.0])]
  }

  lemma MultiArrayKeys()
    ensures MultiArrayObjects().Keys == {0, 1, 2, 3, 4, 5, 6, 7}
  {
  }

  lemma MultiArrayClosed()
    ensures Closed(MultiArrayObjects()) && 0 in MultiArrayObjects()
  {
    var h := MultiArrayObjects();
    MultiArrayKeys();
    ArrayTestRefs(Ref(1), Null, h.Keys);
    ArrayNestedRefs(0, Ref(5), h.Keys);
    ArrayNestedRefs(0, Ref(6), h.Keys);
    ArrayNestedRefs(0, Ref(7), h.Keys);
    DoublesRefs([7.0, 8.0], h.Keys);
    DoublesRefs([17.0, 18.0, 19.0], h.Keys);
    DoublesRefs([27.0, 28.0, 29.0, 30.0], h.Keys);
  }

  /** An ArrayTestClass whose three elements hold nestedValues of lengths 2, 3 and 4. */
  function MultiArrayHeap(): (h: Heap)
    ensures StateValid(h, Defs, NoStatics)
  {
    MultiArrayClosed();
    MultiArrayObjects()
  }

  /** A NestedStruct whose struct field nested holds Value and further.Value2. */
  function StructHeap(value: int, value2: int): (h: Heap)
    ensures StateValid(h, Defs, NoStatics)
  {
    var h := map[0 := NestedStructObj(NestedStructValue(value, value2), Null, Null)];
    NestedStructValueRefs(value, value2, h.Keys);
    h
  }

  /** A NestedStruct whose nestedArray (or nestedList) holds two structs with Value 7 and 8. */
  function StructSeqHeap(kind: SeqKind): (h: Heap)
    ensures StateValid(h, Defs, NoStatics)
  {
    var elems := Indexable(kind, [NestedStructValue(7, 0), NestedStructValue(8, 0)]);
    var h := if kind == Array then map[0 := NestedStructObj(NestedStructValue(0, 0), Ref(1), Null), 1 := elems]
             else map[0 := NestedStructObj(NestedStructValue(0, 0), Null, Ref(1)), 1 := elems];
    NestedStructValueRefs(0, 0, h.Keys);
    NestedStructValueRefs(7, 0, h.Keys);
    NestedStructValueRefs(8, 0, h.Keys);
    h
  }

  // ----- Member names and paths -----

  lemma FlatNames()
    ensures IsName("intValue") && IsName("doubleValue") && IsName("boolValue") && IsName("stringValue")
  {
  }

  lemma NestedNames()
    ensures IsName("nested") && IsName("intValue") && IsName("anotherNest") && IsName("wrong")
  {
  }

  lemma ArrayNames()
    ensures IsName("arr") && IsName("value") && IsName("values") && IsName("nestedValues")
  {
  }

  lemma StructNames()
    ensures IsName("nested") && IsName("Value") && IsName("further") && IsName("Value2")
    ensures IsName("nestedArray") && IsName("nestedList")
  {
  }

  /** A path of one member is its name. */
  lemma ParseOne(a: string)
    requires IsName(a)
    ensures ParsePath(a) == Ok([Member(a)])
  {
    ParseRender([Member(a)]);
    assert Render([Member(a)]) == a;
  }

  /**
   * Longer paths are written as the text of their segments, Render(p):
   * "nested.intValue" is Render([Member("nested"), Member("intValue")]),
   * "arr[1].value" is Render([Member("arr"), Index(1), Member("value")]).
   * Since that text parses back to p, the path it addresses is p.
   */
  lemma RenderedTarget(h: Heap, root: Addr, p: seq<Segment>)
    requires Closed(h) && root in h && WellFormed(p)
    ensures TargetOf(h, root, Render(p)) == Resolve(h, root, p)
  {
    ParseRender(p);
  }

  function Members2(a: string, b: string): (p: seq<Segment>)
    requires IsName(a) && IsName(b)
    ensures WellFormed(p)
  {
    [Member(a), Member(b)]
  }

  function Members3(a: string, b: string, c: string): (p: seq<Segment>)
    requires IsName(a) && IsName(b) && IsName(c)
    ensures WellFormed(p)
  {
    var p := [Member(a), Member(b), Member(c)];
    assert forall k :: 0 <= k < |p| ==> p[k] in {Member(a), Member(b), Member(c)};
    p
  }

  /** The segments of a[i].b. */
  function IndexedMember(a: string, i: nat, b: string): (p: seq<Segment>)
    requires IsName(a) && IsName(b)
    ensures WellFormed(p)
  {
    var p := [Member(a), Index(i), Member(b)];
    assert forall k :: 0 <= k < |p| && p[k].Member? ==> k == 0 || k == 2;
    p
  }

  /** The segments of a[i]. */
  function Indexed(a: string, i: nat): (p: seq<Segment>)
    requires IsName(a)
    ensures WellFormed(p)
  {
    [Member(a), Index(i)]
  }

  /** The segments of a[i].b[j]. */
  function IndexedTwice(a: string, i: nat, b: string, j: nat): (p: seq<Segment>)
    requires IsName(a) && IsName(b)
    ensures WellFormed(p)
  {
    var p := [Member(a), Index(i), Member(b), Index(j)];
    assert forall k :: 0 <= k < |p| && p[k].Member? ==> k == 0 || k == 2;
    p
  }

  // ----- Helpers for walking concrete paths -----

  /** A path whose first step succeeds continues from the cursor that step reaches. */
  lemma ResolveCons(h: Heap, c: Cursor, g: Segment, rest: seq<Segment>)
    requires Closed(h) && CursorValid(h, c) && Step(h, c, g).Ok?
    ensures ResolveFrom(h, c, [g] + rest) == ResolveFrom(h, Step(h, c, g).value, rest)
  {
    assert ([g] + rest)[0] == g && ([g] + rest)[1..] == rest;
  }

  /** The last segment names a primitive field of the instance the walk stands at. */
  lemma LastMember(h: Heap, a: Addr, n: string)
    requires Closed(h) && a in h && h[a].Instance? && n in h[a].fields && h[a].fields[n].Prim?
    ensures ResolveFrom(h, AtObject(a), [Member(n)]) == Ok(Target(a, Field(n), [], KindOf(h[a].fields[n].x)))
  {
    var c := InSlot(a, Field(n), [], h[a].fields[n]);
    assert Step(h, AtObject(a), Member(n)) == Ok(c);
    assert [Member(n)][1..] == [];
  }

  /** The last segment indexes a primitive element of the array or list the walk stands at. */
  lemma LastIndex(h: Heap, a: Addr, i: nat)
    requires Closed(h) && a in h && h[a].Indexable? && i < |h[a].elems| && h[a].elems[i].Prim?
    ensures ResolveFrom(h, AtObject(a), [Index(i)]) == Ok(Target(a, Element(i), [], KindOf(h[a].elems[i].x)))
  {
    var c := InSlot(a, Element(i), [], h[a].elems[i]);
    assert Step(h, AtObject(a), Index(i)) == Ok(c);
    assert [Index(i)][1..] == [];
  }

  /** The last segment names a primitive field of the struct the walk stands in. */
  lemma LastStructMember(h: Heap, c: Cursor, n: string)
    requires Closed(h) && CursorValid(h, c) && c.InSlot? && c.v.Struct? && n in c.v.fields && c.v.fields[n].Prim?
    ensures ResolveFrom(h, c, [Member(n)]) == Ok(Target(c.owner, c.slot, c.names + [n], KindOf(c.v.fields[n].x)))
  {
    var d := InSlot(c.owner, c.slot, c.names + [n], c.v.fields[n]);
    assert Step(h, c, Member(n)) == Ok(d);
    assert [Member(n)][1..] == [];
  }

  /** A one-member path to a primitive field of kind k of an instance addresses that field. */
  lemma MemberTarget(h: Heap, root: Addr, n: string, k: Kind)
    requires Closed(h) && root in h && IsName(n)
    requires h[root].Instance? && n in h[root].fields && h[root].fields[n].Prim? && KindOf(h[root].fields[n].x) == k
    ensures TargetOf(h, root, n) == Ok(Target(root, Field(n), [], k))
  {
    ParseOne(n);
    LastMember(h, root, n);
  }

}
