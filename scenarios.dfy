/**
 * The test methods of the suite as lemmas: each one starts from the test's
 * fixture, calls ApplyModifier, and states what the test asserts afterwards
 * (the values read back, or the error and the exception it surfaces as).
 * Where a test checks one instance of a rule, the lemma states the rule.
 */
module Scenarios {
  import opened Wrappers
  import opened Errors
  import opened Values
  import opened FieldPath
  import opened ObjectGraph
  import opened Resolver
  import opened Applier
  import opened Fixtures
  import opened EditFacts
  import Runtime

  // ----- Writes through one member -----

  lemma IntValueTarget(intValue: int, doubleValue: real, boolValue: bool, stringValue: string)
    ensures TargetOf(FlatHeap(intValue, doubleValue, boolValue, stringValue), 0, "intValue")
         == Ok(Target(0, Field("intValue"), [], KInt))
  {
    FlatNames();
    TestClassFields(intValue, doubleValue, boolValue, stringValue, Null);
    MemberTarget(FlatHeap(intValue, doubleValue, boolValue, stringValue), 0, "intValue", KInt);
  }

  lemma DoubleValueTarget(intValue: int, doubleValue: real, boolValue: bool, stringValue: string)
    ensures TargetOf(FlatHeap(intValue, doubleValue, boolValue, stringValue), 0, "doubleValue")
         == Ok(Target(0, Field("doubleValue"), [], KDouble))
  {
    FlatNames();
    TestClassFields(intValue, doubleValue, boolValue, stringValue, Null);
    MemberTarget(FlatHeap(intValue, doubleValue, boolValue, stringValue), 0, "doubleValue", KDouble);
  }

  lemma BoolValueTarget(intValue: int, doubleValue: real, boolValue: bool, stringValue: string)
    ensures TargetOf(FlatHeap(intValue, doubleValue, boolValue, stringValue), 0, "boolValue")
         == Ok(Target(0, Field("boolValue"), [], KBool))
  {
    FlatNames();
    TestClassFields(intValue, doubleValue, boolValue, stringValue, Null);
    MemberTarget(FlatHeap(intValue, doubleValue, boolValue, stringValue), 0, "boolValue", KBool);
  }

  lemma StringValueTarget(intValue: int, doubleValue: real, boolValue: bool, stringValue: string)
    ensures TargetOf(FlatHeap(intValue, doubleValue, boolValue, stringValue), 0, "stringValue")
         == Ok(Target(0, Field("stringValue"), [], KString))
  {
    FlatNames();
    TestClassFields(intValue, doubleValue, boolValue, stringValue, Null);
    MemberTarget(FlatHeap(intValue, doubleValue, boolValue, stringValue), 0, "stringValue", KString);
  }

  /** TestSimpleInt: intValue reads 5 after the write (the test starts from 10). */
  lemma SimpleInt(intValue: int, doubleValue: real, boolValue: bool, stringValue: string)
    ensures var r := ApplyModifier(FlatHeap(intValue, doubleValue, boolValue, stringValue), Defs, NoStatics,
                                   SingleEdit("intValue", IntV(5)));
      r.outcome == Pass && ReadField(r.heap, 0, "intValue") == Ok(IntV(5))
  {
    IntValueTarget(intValue, doubleValue, boolValue, stringValue);
    EditWrites(FlatHeap(intValue, doubleValue, boolValue, stringValue), Defs, NoStatics, SingleEdit("intValue", IntV(5)), 0,
               Target(0, Field("intValue"), [], KInt));
  }

  /** TestSimpleDouble: doubleValue reads 50.0 after the write (the test starts from 20.0). */
  lemma SimpleDouble(intValue: int, doubleValue: real, boolValue: bool, stringValue: string)
    ensures var r := ApplyModifier(FlatHeap(intValue, doubleValue, boolValue, stringValue), Defs, NoStatics,
                                   SingleEdit("doubleValue", DoubleV(50.0)));
      r.outcome == Pass && ReadField(r.heap, 0, "doubleValue") == Ok(DoubleV(50.0))
  {
    DoubleValueTarget(intValue, doubleValue, boolValue, stringValue);
    EditWrites(FlatHeap(intValue, doubleValue, boolValue, stringValue), Defs, NoStatics, SingleEdit("doubleValue", DoubleV(50.0)), 0,
               Target(0, Field("doubleValue"), [], KDouble));
  }

  /** TestSimpleBool: the number 1 written to a bool field reads true (the test starts from false). */
  lemma SimpleBool(intValue: int, doubleValue: real, boolValue: bool, stringValue: string)
    ensures var r := ApplyModifier(FlatHeap(intValue, doubleValue, boolValue, stringValue), Defs, NoStatics,
                                   SingleEdit("boolValue", IntV(1)));
      r.outcome == Pass && ReadField(r.heap, 0, "boolValue") == Ok(BoolV(true))
  {
    BoolValueTarget(intValue, doubleValue, boolValue, stringValue);
    EditWrites(FlatHeap(intValue, doubleValue, boolValue, stringValue), Defs, NoStatics, SingleEdit("boolValue", IntV(1)), 0,
               Target(0, Field("boolValue"), [], KBool));
  }

  /** TestSimpleString: stringValue reads "bar" after the write (the test starts from "foo"). */
  lemma SimpleString(intValue: int, doubleValue: real, boolValue: bool, stringValue: string)
    ensures var r := ApplyModifier(FlatHeap(intValue, doubleValue, boolValue, stringValue), Defs, NoStatics,
                                   SingleEdit("stringValue", StrV("bar")));
      r.outcome == Pass && ReadField(r.heap, 0, "stringValue") == Ok(StrV("bar"))
  {
    StringValueTarget(intValue, doubleValue, boolValue, stringValue);
    EditWrites(FlatHeap(intValue, doubleValue, boolValue, stringValue), Defs, NoStatics, SingleEdit("stringValue", StrV("bar")), 0,
               Target(0, Field("stringValue"), [], KString));
  }

  // ----- Writes through nested objects and static fields -----

  /** The path nested.intValue. */
  function NestedIntPath(): string
  {
    NestedNames();
    Render(Members2("nested", "intValue"))
  }

  /** The path nested.anotherNest.intValue. */
  function DoubleNestedPath(): string
  {
    NestedNames();
    Render(Members3("nested", "anotherNest", "intValue"))
  }

  /** In NestedHeap, nested.intValue walks to the intValue field of the object at address 1. */
  lemma NestedIntResolve()
    ensures Resolve(NestedHeap(), 0, [Member("nested"), Member("intValue")]) == Ok(Target(1, Field("intValue"), [], KInt))
  {
    var h := NestedHeap();
    TestClassFields(0, 0.0, false, "", Ref(1));
    assert Step(h, AtObject(0), Member("nested")) == Ok(AtObject(1));
    ResolveCons(h, AtObject(0), Member("nested"), [Member("intValue")]);
    assert [Member("nested")] + [Member("intValue")] == [Member("nested"), Member("intValue")];
    LastMember(h, 1, "intValue");
  }

  lemma NestedIntTarget()
    ensures TargetOf(NestedHeap(), 0, NestedIntPath()) == Ok(Target(1, Field("intValue"), [], KInt))
  {
    NestedNames();
    RenderedTarget(NestedHeap(), 0, Members2("nested", "intValue"));
    NestedIntResolve();
  }

  /** TestNestedInt: nested.intValue, a field of a referenced object, reads 10 after the write. */
  lemma NestedInt()
    ensures var r := ApplyModifier(NestedHeap(), Defs, NoStatics, SingleEdit(NestedIntPath(), IntV(10)));
      r.outcome == Pass && ReadField(r.heap, 0, NestedIntPath()) == Ok(IntV(10))
  {
    NestedIntTarget();
    EditWrites(NestedHeap(), Defs, NoStatics, SingleEdit(NestedIntPath(), IntV(10)), 0, Target(1, Field("intValue"), [], KInt));
  }

  /** In DoubleNestedHeap, anotherNest.intValue walks from address 1 to the intValue field at address 2. */
  lemma AnotherNestResolve()
    ensures ResolveFrom(DoubleNestedHeap(), AtObject(1), [Member("anotherNest"), Member("intValue")])
         == Ok(Target(2, Field("intValue"), [], KInt))
  {
    var h := DoubleNestedHeap();
    assert Step(h, AtObject(1), Member("anotherNest")) == Ok(AtObject(2));
    ResolveCons(h, AtObject(1), Member("anotherNest"), [Member("intValue")]);
    assert [Member("anotherNest")] + [Member("intValue")] == [Member("anotherNest"), Member("intValue")];
    LastMember(h, 2, "intValue");
  }

  lemma DoubleNestedResolve()
    ensures Resolve(DoubleNestedHeap(), 0, [Member("nested"), Member("anotherNest"), Member("intValue")])
         == Ok(Target(2, Field("intValue"), [], KInt))
  {
    var h := DoubleNestedHeap();
    TestClassFields(0, 0.0, false, "", Ref(1));
    assert Step(h, AtObject(0), Member("nested")) == Ok(AtObject(1));
    ResolveCons(h, AtObject(0), Member("nested"), [Member("anotherNest"), Member("intValue")]);
    assert [Member("nested")] + [Member("anotherNest"), Member("intValue")]
        == [Member("nested"), Member("anotherNest"), Member("intValue")];
    AnotherNestResolve();
  }

  lemma DoubleNestedTarget()
    ensures TargetOf(DoubleNestedHeap(), 0, DoubleNestedPath()) == Ok(Target(2, Field("intValue"), [], KInt))
  {
    NestedNames();
    RenderedTarget(DoubleNestedHeap(), 0, Members3("nested", "anotherNest", "intValue"));
    DoubleNestedResolve();
  }

  /** TestDoubleNestedInt: nested.anotherNest.intValue reads 10 after the write. */
  lemma DoubleNestedInt()
    ensures var r := ApplyModifier(DoubleNestedHeap(), Defs, NoStatics, SingleEdit(DoubleNestedPath(), IntV(10)));
      r.outcome == Pass && ReadField(r.heap, 0, DoubleNestedPath()) == Ok(IntV(10))
  {
    DoubleNestedTarget();
    EditWrites(DoubleNestedHeap(), Defs, NoStatics, SingleEdit(DoubleNestedPath(), IntV(10)), 0,
               Target(2, Field("intValue"), [], KInt));
  }

  /** TestWrongGuid: an unknown guid is an ArgumentException and nothing changes. */
  lemma WrongGuid()
    ensures var mod := ModifierDefinition(ByGuid("b"), Single(DoubleNestedPath(), IntV(10)));
      var r := ApplyModifier(DoubleNestedHeap(), Defs, NoStatics, mod);
      r == Applied(DoubleNestedHeap(), Fail(UnknownDef("b"))) && Thrown(r.outcome.error) == ArgumentException
  {
    assert "b" !in Defs;
  }

  /** DoubleNestedHeap's TestClass has no member named wrong. */
  lemma WrongIsNoField()
    ensures TargetOf(DoubleNestedHeap(), 0, "wrong") == Err(TargetResolution)
  {
    var h := DoubleNestedHeap();
    NestedNames();
    TestClassFields(0, 0.0, false, "", Ref(1));
    ParseOne("wrong");
    assert Step(h, AtObject(0), Member("wrong")).Err?;
  }

  /** TestBadField: a member the class does not have is a ModException and nothing changes. */
  lemma BadField()
    ensures var r := ApplyModifier(DoubleNestedHeap(), Defs, NoStatics, SingleEdit("wrong", IntV(10)));
      r == Applied(DoubleNestedHeap(), Fail(TargetResolution)) && Thrown(r.outcome.error) == ModException
  {
    WrongIsNoField();
    EditFails(DoubleNestedHeap(), Defs, NoStatics, SingleEdit("wrong", IntV(10)), 0, TargetResolution);
  }

  /** nested, a reference to an object, is not a primitive leaf. */
  lemma NestedIsNoLeaf()
    ensures TargetOf(DoubleNestedHeap(), 0, "nested") == Err(TargetResolution)
  {
    var h := DoubleNestedHeap();
    NestedNames();
    TestClassFields(0, 0.0, false, "", Ref(1));
    ParseOne("nested");
    assert Step(h, AtObject(0), Member("nested")) == Ok(AtObject(1));
    ResolveCons(h, AtObject(0), Member("nested"), []);
    assert [Member("nested")] + [] == [Member("nested")];
  }

  /** TestNonPrimitiveField: a path ending at an object, not a leaf, is a ModException and nothing changes. */
  lemma NonPrimitiveField()
    ensures var r := ApplyModifier(DoubleNestedHeap(), Defs, NoStatics, SingleEdit("nested", IntV(10)));
      r == Applied(DoubleNestedHeap(), Fail(TargetResolution)) && Thrown(r.outcome.error) == ModException
  {
    NestedIsNoLeaf();
    EditFails(DoubleNestedHeap(), Defs, NoStatics, SingleEdit("nested", IntV(10)), 0, TargetResolution);
  }

  /** TestStaticInt: a class's static field, selected by the class name, reads 5 after the write. */
  lemma StaticInt()
    ensures var mod := ModifierDefinition(ByClass(NestedClassName), Single("staticIntValue", IntV(5)));
      var r := ApplyModifier(StaticHeap(), Defs, Statics, mod);
      r.outcome == Pass && ReadField(r.heap, 1, "staticIntValue") == Ok(IntV(5))
  {
    var h := StaticHeap();
    var mod := ModifierDefinition(ByClass(NestedClassName), Single("staticIntValue", IntV(5)));
    assert IsName("staticIntValue");
    MemberTarget(h, 1, "staticIntValue", KInt);
    EditWrites(h, Defs, Statics, mod, 1, Target(1, Field("staticIntValue"), [], KInt));
  }

  // ----- Arrays and lists -----

  /** The path arr[k].value. */
  function ArrValuePath(k: nat): string
  {
    ArrayNames();
    Render(IndexedMember("arr", k, "value"))
  }

  /** The path values[k]. */
  function ValuesPath(k: nat): string
  {
    ArrayNames();
    Render(Indexed("values", k))
  }

  /** The path arr[i].nestedValues[j]. */
  function NestedValuesPath(i: nat, j: nat): string
  {
    ArrayNames();
    Render(IndexedTwice("arr", i, "nestedValues", j))
  }

  /** arr[k] leads from the root of ArrayHeap to element k's object, or fails past the end. */
  lemma ArrayHead(k: nat, rest: seq<Segment>)
    ensures ResolveFrom(ArrayHeap(), AtObject(0), [Member("arr"), Index(k)] + rest)
         == if k < 3 then ResolveFrom(ArrayHeap(), AtObject(2 + k), rest) else Err(IndexOutOfRange(k, 3))
  {
    var h := ArrayHeap();
    assert Step(h, AtObject(0), Member("arr")) == Ok(AtObject(1));
    ResolveCons(h, AtObject(0), Member("arr"), [Index(k)] + rest);
    assert [Member("arr")] + ([Index(k)] + rest) == [Member("arr"), Index(k)] + rest;
    assert ([Index(k)] + rest)[0] == Index(k) && ([Index(k)] + rest)[1..] == rest;
    if k < 3 {
      assert Step(h, AtObject(1), Index(k)) == Ok(AtObject(2 + k));
    } else {
      assert Step(h, AtObject(1), Index(k)) == Err(IndexOutOfRange(k, 3));
    }
  }

  /** Element j of arr is the object at address 2 + j, with value 7 + j. */
  lemma ArrayElementObj(j: nat)
    requires j < 3
    ensures 2 + j in ArrayHeap() && ArrayHeap()[2 + j] == ArrayNestedObj(7 + j, Null)
  {
    if j == 0 {
    } else if j == 1 {
    } else {
    }
  }

  /** Element j's object holds value 7 + j. */
  lemma ArrayElement(j: nat)
    requires j < 3
    ensures ValidTarget(ArrayHeap(), Target(2 + j, Field("value"), [], KInt))
    ensures Read(ArrayHeap(), Target(2 + j, Field("value"), [], KInt)) == IntV(7 + j)
  {
    var h := ArrayHeap();
    ArrayElementObj(j);
    assert SlotValue(h[2 + j], Field("value")) == Some(Prim(IntV(7 + j)));
  }

  lemma ArrValueTarget(k: nat)
    requires k < 3
    ensures TargetOf(ArrayHeap(), 0, ArrValuePath(k)) == Ok(Target(2 + k, Field("value"), [], KInt))
  {
    var h := ArrayHeap();
    ArrayNames();
    RenderedTarget(h, 0, IndexedMember("arr", k, "value"));
    ArrayHead(k, [Member("value")]);
    assert [Member("arr"), Index(k)] + [Member("value")] == IndexedMember("arr", k, "value");
    ArrayElementObj(k);
    var fields := ArrayNestedObj(7 + k, Null).fields;
    assert "value" in fields && fields["value"] == Prim(IntV(7 + k));
    LastMember(h, 2 + k, "value");
  }

  lemma ArrayObjectKeeps(k: nat, j: nat)
    requires k < 3 && j < 3 && j != k
    ensures ApplyEdit(ArrayHeap(), 0, ArrValuePath(k), IntV(10)).Ok?
    ensures ReadField(ApplyEdit(ArrayHeap(), 0, ArrValuePath(k), IntV(10)).value, 0, ArrValuePath(j)) == Ok(IntV(7 + j))
  {
    var h := ArrayHeap();
    var p, q := ArrValuePath(k), ArrValuePath(j);
    var t, u := Target(2 + k, Field("value"), [], KInt), Target(2 + j, Field("value"), [], KInt);
    ArrValueTarget(k);
    ArrValueTarget(j);
    EditSucceeds(h, 0, p, IntV(10), t);
    ArrayElement(j);
    EditKeeps(h, 0, p, IntV(10), t, q, u);
  }

  /**
   * TestFirstArrayObject, TestArrayObject, TestLastArrayObject: writing 10 to
   * arr[k].value changes that element's object and no other.
   */
  lemma ArrayObject(k: nat)
    requires k < 3
    ensures var r := ApplyModifier(ArrayHeap(), Defs, NoStatics, SingleEdit(ArrValuePath(k), IntV(10)));
      && r.outcome == Pass
      && forall j :: 0 <= j < 3 ==> ReadField(r.heap, 0, ArrValuePath(j)) == Ok(IntV(if j == k then 10 else 7 + j))
  {
    ArrValueTarget(k);
    EditWrites(ArrayHeap(), Defs, NoStatics, SingleEdit(ArrValuePath(k), IntV(10)), 0, Target(2 + k, Field("value"), [], KInt));
    forall j | 0 <= j < 3 && j != k
      ensures ReadField(ApplyEdit(ArrayHeap(), 0, ArrValuePath(k), IntV(10)).value, 0, ArrValuePath(j)) == Ok(IntV(7 + j))
    {
      ArrayObjectKeeps(k, j);
    }
  }

  lemma ValuesResolve(k: nat)
    requires k < 3
    ensures Resolve(ValuesHeap(), 0, [Member("values"), Index(k)]) == Ok(Target(1, Element(k), [], KDouble))
  {
    var h := ValuesHeap();
    assert Step(h, AtObject(0), Member("values")) == Ok(AtObject(1));
    ResolveCons(h, AtObject(0), Member("values"), [Index(k)]);
    assert [Member("values")] + [Index(k)] == [Member("values"), Index(k)];
    LastIndex(h, 1, k);
  }

  /** Element k of values holds 7.0 + k. */
  lemma ValuesElement(k: nat)
    requires k < 3
    ensures ValidTarget(ValuesHeap(), Target(1, Element(k), [], KDouble))
    ensures Read(ValuesHeap(), Target(1, Element(k), [], KDouble)) == DoubleV(7.0 + k as real)
  {
    assert [7.0, 8.0, 9.0][k] == 7.0 + k as real;
  }

  lemma ValuesTarget(k: nat)
    requires k < 3
    ensures TargetOf(ValuesHeap(), 0, ValuesPath(k)) == Ok(Target(1, Element(k), [], KDouble))
  {
    ArrayNames();
    RenderedTarget(ValuesHeap(), 0, Indexed("values", k));
    ValuesResolve(k);
  }

  lemma ArrayValueKeeps(k: nat, j: nat)
    requires k < 3 && j < 3 && j != k
    ensures ApplyEdit(ValuesHeap(), 0, ValuesPath(k), IntV(10)).Ok?
    ensures ReadField(ApplyEdit(ValuesHeap(), 0, ValuesPath(k), IntV(10)).value, 0, ValuesPath(j)) == Ok(DoubleV(7.0 + j as real))
  {
    ValuesTarget(k);
    ValuesTarget(j);
    ValuesElement(j);
    EditSucceeds(ValuesHeap(), 0, ValuesPath(k), IntV(10), Target(1, Element(k), [], KDouble));
    EditKeeps(ValuesHeap(), 0, ValuesPath(k), IntV(10), Target(1, Element(k), [], KDouble),
              ValuesPath(j), Target(1, Element(j), [], KDouble));
  }

  /**
   * TestFirstArrayValue, TestLastArrayValue: the int 10 written to values[k]
   * of a double array reads 10.0 there; the other elements keep their values.
   */
  lemma ArrayValue(k: nat)
    requires k < 3
    ensures var r := ApplyModifier(ValuesHeap(), Defs, NoStatics, SingleEdit(ValuesPath(k), IntV(10)));
      && r.outcome == Pass
      && forall j :: 0 <= j < 3 ==> ReadField(r.heap, 0, ValuesPath(j)) == Ok(DoubleV(if j == k then 10.0 else 7.0 + j as real))
  {
    ValuesTarget(k);
    EditWrites(ValuesHeap(), Defs, NoStatics, SingleEdit(ValuesPath(k), IntV(10)), 0, Target(1, Element(k), [], KDouble));
    assert Coerce(IntV(10), KDouble) == Ok(DoubleV(10.0));
    forall j | 0 <= j < 3 && j != k
      ensures ReadField(ApplyEdit(ValuesHeap(), 0, ValuesPath(k), IntV(10)).value, 0, ValuesPath(j)) == Ok(DoubleV(7.0 + j as real))
    {
      ArrayValueKeeps(k, j);
    }
  }

  /** From element i of arr, nestedValues[j] is element j of that element's double array. */
  lemma NestedValuesTail(i: nat, j: nat)
    requires i < 3 && j < 2 + i
    ensures ResolveFrom(MultiArrayHeap(), AtObject(2 + i), [Member("nestedValues"), Index(j)])
         == Ok(Target(5 + i, Element(j), [], KDouble))
  {
    var h := MultiArrayHeap();
    assert h[2 + i] == ArrayNestedObj(0, Ref(5 + i));
    assert Step(h, AtObject(2 + i), Member("nestedValues")) == Ok(AtObject(5 + i));
    ResolveCons(h, AtObject(2 + i), Member("nestedValues"), [Index(j)]);
    assert [Member("nestedValues")] + [Index(j)] == [Member("nestedValues"), Index(j)];
    assert |h[5 + i].elems| == 2 + i;
    LastIndex(h, 5 + i, j);
  }

  /** arr[i] leads from the root of MultiArrayHeap to element i's object. */
  lemma MultiArrayHead(i: nat, rest: seq<Segment>)
    requires i < 3
    ensures ResolveFrom(MultiArrayHeap(), AtObject(0), [Member("arr"), Index(i)] + rest)
         == ResolveFrom(MultiArrayHeap(), AtObject(2 + i), rest)
  {
    var h := MultiArrayHeap();
    assert Step(h, AtObject(0), Member("arr")) == Ok(AtObject(1));
    assert Step(h, AtObject(1), Index(i)) == Ok(AtObject(2 + i));
    ResolveCons(h, AtObject(0), Member("arr"), [Index(i)] + rest);
    ResolveCons(h, AtObject(1), Index(i), rest);
    assert [Member("arr")] + ([Index(i)] + rest) == [Member("arr"), Index(i)] + rest;
  }

  lemma NestedValuesTarget(i: nat, j: nat)
    requires i < 3 && j < 2 + i
    ensures TargetOf(MultiArrayHeap(), 0, NestedValuesPath(i, j)) == Ok(Target(5 + i, Element(j), [], KDouble))
  {
    ArrayNames();
    RenderedTarget(MultiArrayHeap(), 0, IndexedTwice("arr", i, "nestedValues", j));
    var rest := [Member("nestedValues"), Index(j)];
    MultiArrayHead(i, rest);
    assert [Member("arr"), Index(i)] + rest == IndexedTwice("arr", i, "nestedValues", j);
    NestedValuesTail(i, j);
  }

  /**
   * TestMultiArrayValues: arr[i].nestedValues[j], an element of an array held
   * by an element of an array, reads 10.0 after the write (the test uses i = 0, j = 1).
   */
  lemma MultiArrayValues(i: nat, j: nat)
    requires i < 3 && j < 2 + i
    ensures var r := ApplyModifier(MultiArrayHeap(), Defs, NoStatics, SingleEdit(NestedValuesPath(i, j), IntV(10)));
      r.outcome == Pass && ReadField(r.heap, 0, NestedValuesPath(i, j)) == Ok(DoubleV(10.0))
  {
    NestedValuesTarget(i, j);
    EditWrites(MultiArrayHeap(), Defs, NoStatics, SingleEdit(NestedValuesPath(i, j), IntV(10)), 0,
               Target(5 + i, Element(j), [], KDouble));
  }

  /**
   * TestOutOfBound: an index at or past the array's length (the test uses 3)
   * is an IndexOutOfRangeException and nothing changes.
   */
  lemma OutOfBound(k: nat)
    requires k >= 3
    ensures var r := ApplyModifier(ArrayHeap(), Defs, NoStatics, SingleEdit(ArrValuePath(k), IntV(10)));
      r == Applied(ArrayHeap(), Fail(IndexOutOfRange(k, 3))) && Thrown(r.outcome.error) == IndexOutOfRangeException
  {
    var h := ArrayHeap();
    ArrayNames();
    RenderedTarget(h, 0, IndexedMember("arr", k, "value"));
    ArrayHead(k, [Member("value")]);
    assert [Member("arr"), Index(k)] + [Member("value")] == IndexedMember("arr", k, "value");
    EditFails(h, Defs, NoStatics, SingleEdit(ArrValuePath(k), IntV(10)), 0, IndexOutOfRange(k, 3));
  }

  // ----- Malformed paths -----

  /** The path made of the member arr alone renders as arr. */
  lemma ArrHead()
    ensures WellFormed([Member("arr")]) && Render([Member("arr")]) == "arr"
  {
    ArrayNames();
    assert [Member("arr")][1..] == [];
  }

  /** TestNegativeIndex: arr[-n].value is malformed for every n > 0; a ModException, and nothing changes. */
  lemma NegativeIndex(n: nat)
    requires n > 0
    ensures var field := "arr" + "[" + ("-" + NatToString(n)) + "]" + ".value";
      var r := ApplyModifier(ArrayHeap(), Defs, NoStatics, SingleEdit(field, IntV(10)));
      r == Applied(ArrayHeap(), Fail(MalformedPath(field))) && Thrown(r.outcome.error) == ModException
  {
    var lit := "-" + NatToString(n);
    var field := "arr" + "[" + lit + "]" + ".value";
    ArrayNames();
    NegativeIndexRejected(n);
    assert NoClose(lit) by {
      assert forall k :: 1 <= k < |lit| ==> lit[k] == NatToString(n)[k - 1];
    }
    ArrHead();
    BadIndexRejected([Member("arr")], lit, ".value");
    EditFails(ArrayHeap(), Defs, NoStatics, SingleEdit(field, IntV(10)), 0, MalformedPath(field));
  }

  /** TestNonIntIndex: arr[1.0].value is malformed; a ModException, and nothing changes. */
  lemma NonIntIndex()
    ensures var field := "arr" + "[" + "1.0" + "]" + ".value";
      var r := ApplyModifier(ArrayHeap(), Defs, NoStatics, SingleEdit(field, IntV(10)));
      r == Applied(ArrayHeap(), Fail(MalformedPath(field))) && Thrown(r.outcome.error) == ModException
  {
    var field := "arr" + "[" + "1.0" + "]" + ".value";
    ArrayNames();
    assert !IsDigit("1.0"[1]);
    ArrHead();
    BadIndexRejected([Member("arr")], "1.0", ".value");
    EditFails(ArrayHeap(), Defs, NoStatics, SingleEdit(field, IntV(10)), 0, MalformedPath(field));
  }

  /** TestNonNumberIndex: arr[foo].value is malformed; a ModException, and nothing changes. */
  lemma NonNumberIndex()
    ensures var field := "arr" + "[" + "foo" + "]" + ".value";
      var r := ApplyModifier(ArrayHeap(), Defs, NoStatics, SingleEdit(field, IntV(10)));
      r == Applied(ArrayHeap(), Fail(MalformedPath(field))) && Thrown(r.outcome.error) == ModException
  {
    var field := "arr" + "[" + "foo" + "]" + ".value";
    ArrayNames();
    assert !IsDigit("foo"[0]);
    ArrHead();
    BadIndexRejected([Member("arr")], "foo", ".value");
    EditFails(ArrayHeap(), Defs, NoStatics, SingleEdit(field, IntV(10)), 0, MalformedPath(field));
  }

  /** TestBadBracket: arr[.value never closes its bracket; a ModException, and nothing changes. */
  lemma BadBracket()
    ensures var field := "arr" + "[" + ".value";
      var r := ApplyModifier(ArrayHeap(), Defs, NoStatics, SingleEdit(field, IntV(10)));
      r == Applied(ArrayHeap(), Fail(MalformedPath(field))) && Thrown(r.outcome.error) == ModException
  {
    var field := "arr" + "[" + ".value";
    ArrayNames();
    ArrHead();
    UnclosedBracketRejected([Member("arr")], ".value");
    EditFails(ArrayHeap(), Defs, NoStatics, SingleEdit(field, IntV(10)), 0, MalformedPath(field));
  }

  // ----- Structs: writes are written back into the owning slot -----

  /** The path nested.Value. */
  function StructValuePath(): string
  {
    StructNames();
    Render(Members2("nested", "Value"))
  }

  /** The path nested.further.Value2. */
  function StructInStructPath(): string
  {
    StructNames();
    Render(Members3("nested", "further", "Value2"))
  }

  /** The field of NestedStruct that holds the array or the list of structs. */
  function StructSeqField(kind: SeqKind): (n: string)
    ensures IsName(n)
  {
    StructNames();
    if kind == Array then "nestedArray" else "nestedList"
  }

  /** The path nestedArray[k].Value or nestedList[k].Value. */
  function StructSeqPath(kind: SeqKind, k: nat): string
  {
    StructNames();
    Render(IndexedMember(StructSeqField(kind), k, "Value"))
  }

  lemma StructValueResolve(value: int, value2: int)
    ensures Resolve(StructHeap(value, value2), 0, [Member("nested"), Member("Value")])
         == Ok(Target(0, Field("nested"), ["Value"], KInt))
  {
    var h := StructHeap(value, value2);
    var c := InSlot(0, Field("nested"), [], NestedStructValue(value, value2));
    assert Step(h, AtObject(0), Member("nested")) == Ok(c);
    ResolveCons(h, AtObject(0), Member("nested"), [Member("Value")]);
    assert [Member("nested")] + [Member("Value")] == [Member("nested"), Member("Value")];
    LastStructMember(h, c, "Value");
    assert [] + ["Value"] == ["Value"];
  }

  lemma StructValueTarget(value: int, value2: int)
    ensures TargetOf(StructHeap(value, value2), 0, StructValuePath()) == Ok(Target(0, Field("nested"), ["Value"], KInt))
  {
    StructNames();
    RenderedTarget(StructHeap(value, value2), 0, Members2("nested", "Value"));
    StructValueResolve(value, value2);
  }

  /**
   * TestStructMember: nested.Value, a field of a struct field, reads 10
   * after the write (the test starts from the default struct).
   */
  lemma StructMember(value: int, value2: int)
    ensures var r := ApplyModifier(StructHeap(value, value2), Defs, NoStatics, SingleEdit(StructValuePath(), IntV(10)));
      r.outcome == Pass && ReadField(r.heap, 0, StructValuePath()) == Ok(IntV(10))
  {
    StructValueTarget(value, value2);
    EditWrites(StructHeap(value, value2), Defs, NoStatics, SingleEdit(StructValuePath(), IntV(10)), 0,
               Target(0, Field("nested"), ["Value"], KInt));
  }

  /** Inside the struct held by nested, further.Value2 walks to the leaf Value2 of the inner struct. */
  lemma FurtherResolve(value: int, value2: int)
    ensures var c := InSlot(0, Field("nested"), [], NestedStructValue(value, value2));
      ResolveFrom(StructHeap(value, value2), c, [Member("further"), Member("Value2")])
      == Ok(Target(0, Field("nested"), ["further", "Value2"], KInt))
  {
    var h := StructHeap(value, value2);
    var c := InSlot(0, Field("nested"), [], NestedStructValue(value, value2));
    var d := InSlot(0, Field("nested"), ["further"], Struct(map["Value2" := Prim(IntV(value2))]));
    assert [] + ["further"] == ["further"];
    assert Step(h, c, Member("further")) == Ok(d);
    ResolveCons(h, c, Member("further"), [Member("Value2")]);
    assert [Member("further")] + [Member("Value2")] == [Member("further"), Member("Value2")];
    LastStructMember(h, d, "Value2");
    assert ["further"] + ["Value2"] == ["further", "Value2"];
  }

  lemma StructInStructResolve(value: int, value2: int)
    ensures Resolve(StructHeap(value, value2), 0, [Member("nested"), Member("further"), Member("Value2")])
         == Ok(Target(0, Field("nested"), ["further", "Value2"], KInt))
  {
    var h := StructHeap(value, value2);
    var c := InSlot(0, Field("nested"), [], NestedStructValue(value, value2));
    assert Step(h, AtObject(0), Member("nested")) == Ok(c);
    ResolveCons(h, AtObject(0), Member("nested"), [Member("further"), Member("Value2")]);
    assert [Member("nested")] + [Member("further"), Member("Value2")]
        == [Member("nested"), Member("further"), Member("Value2")];
    FurtherResolve(value, value2);
  }

  lemma StructInStructTarget(value: int, value2: int)
    ensures TargetOf(StructHeap(value, value2), 0, StructInStructPath())
         == Ok(Target(0, Field("nested"), ["further", "Value2"], KInt))
  {
    StructNames();
    RenderedTarget(StructHeap(value, value2), 0, Members3("nested", "further", "Value2"));
    StructInStructResolve(value, value2);
  }

  /**
   * TestStructInStruct: nested.further.Value2, two structs deep, reads 10
   * after the write (the test starts from Value2 = 7).
   */
  lemma StructInStruct(value: int, value2: int)
    ensures var r := ApplyModifier(StructHeap(value, value2), Defs, NoStatics, SingleEdit(StructInStructPath(), IntV(10)));
      r.outcome == Pass && ReadField(r.heap, 0, StructInStructPath()) == Ok(IntV(10))
  {
    StructInStructTarget(value, value2);
    EditWrites(StructHeap(value, value2), Defs, NoStatics, SingleEdit(StructInStructPath(), IntV(10)), 0,
               Target(0, Field("nested"), ["further", "Value2"], KInt));
  }

  /** From the array or list of StructSeqHeap, element k's Value is a leaf inside the struct the element holds. */
  lemma StructSeqTail(kind: SeqKind, k: nat)
    requires k < 2
    ensures ResolveFrom(StructSeqHeap(kind), AtObject(1), [Index(k), Member("Value")])
         == Ok(Target(1, Element(k), ["Value"], KInt))
  {
    var h := StructSeqHeap(kind);
    StructNames();
    var c := InSlot(1, Element(k), [], NestedStructValue(7 + k, 0));
    assert Step(h, AtObject(1), Index(k)) == Ok(c);
    ResolveCons(h, AtObject(1), Index(k), [Member("Value")]);
    assert [Index(k)] + [Member("Value")] == [Index(k), Member("Value")];
    LastStructMember(h, c, "Value");
    assert [] + ["Value"] == ["Value"];
  }

  lemma StructSeqTarget(kind: SeqKind, k: nat)
    requires k < 2
    ensures TargetOf(StructSeqHeap(kind), 0, StructSeqPath(kind, k)) == Ok(Target(1, Element(k), ["Value"], KInt))
  {
    var h := StructSeqHeap(kind);
    var a := StructSeqField(kind);
    StructNames();
    RenderedTarget(h, 0, IndexedMember(a, k, "Value"));
    assert Step(h, AtObject(0), Member(a)) == Ok(AtObject(1));
    ResolveCons(h, AtObject(0), Member(a), [Index(k), Member("Value")]);
    assert [Member(a)] + [Index(k), Member("Value")] == IndexedMember(a, k, "Value");
    StructSeqTail(kind, k);
  }

  /**
   * TestStructArray, TestStructList: writing 10 to element 1's Value, a
   * struct held by an array or a list, stores the changed copy back: element
   * 1 reads 10 and element 0 still reads 7.
   */
  lemma StructSeq(kind: SeqKind)
    ensures var r := ApplyModifier(StructSeqHeap(kind), Defs, NoStatics, SingleEdit(StructSeqPath(kind, 1), IntV(10)));
      && r.outcome == Pass
      && ReadField(r.heap, 0, StructSeqPath(kind, 1)) == Ok(IntV(10))
      && ReadField(r.heap, 0, StructSeqPath(kind, 0)) == Ok(IntV(7))
  {
    var t := Target(1, Element(1), ["Value"], KInt);
    StructSeqTarget(kind, 1);
    EditWrites(StructSeqHeap(kind), Defs, NoStatics, SingleEdit(StructSeqPath(kind, 1), IntV(10)), 0, t);
    StructSeqKeeps(kind);
  }

  /** Element 0 of the array or list still reads 7 after element 1 is written. */
  lemma StructSeqKeeps(kind: SeqKind)
    ensures ApplyEdit(StructSeqHeap(kind), 0, StructSeqPath(kind, 1), IntV(10)).Ok?
    ensures ReadField(ApplyEdit(StructSeqHeap(kind), 0, StructSeqPath(kind, 1), IntV(10)).value, 0, StructSeqPath(kind, 0))
         == Ok(IntV(7))
  {
    var h := StructSeqHeap(kind);
    var t, u := Target(1, Element(1), ["Value"], KInt), Target(1, Element(0), ["Value"], KInt);
    StructSeqTarget(kind, 1);
    StructSeqTarget(kind, 0);
    EditSucceeds(h, 0, StructSeqPath(kind, 1), IntV(10), t);
    StructSeqElement(kind);
    EditKeeps(h, 0, StructSeqPath(kind, 1), IntV(10), t, StructSeqPath(kind, 0), u);
  }

  /** Element 0 of the array or list holds a struct whose Value is 7. */
  lemma StructSeqElement(kind: SeqKind)
    ensures ValidTarget(StructSeqHeap(kind), Target(1, Element(0), ["Value"], KInt))
    ensures Read(StructSeqHeap(kind), Target(1, Element(0), ["Value"], KInt)) == IntV(7)
  {
    var h := StructSeqHeap(kind);
    assert SlotValue(h[1], Element(0)) == Some(NestedStructValue(7, 0));
    assert Lookup(NestedStructValue(7, 0), ["Value"]) == Some(Prim(IntV(7)));
  }

  // ----- Modlet lists -----

  const SetInt := ModletStep(Some("intValue"), Some(IntV(20)))
  const SetBool := ModletStep(Some("boolValue"), Some(BoolV(true)))

  /** The two steps of TestModletList, run in order on a TestClass, whatever intValue and boolValue were. */
  lemma TwoSteps(intValue: int, boolValue: bool)
    ensures var r := RunSteps(FlatHeap(intValue, 0.0, boolValue, ""), 0, [SetInt, SetBool]);
      && r.outcome == Pass
      && ReadField(r.heap, 0, "intValue") == Ok(IntV(20))
      && ReadField(r.heap, 0, "boolValue") == Ok(BoolV(true))
  {
    IntValueTarget(intValue, 0.0, boolValue, "");
    BoolValueTarget(intValue, 0.0, boolValue, "");
    assert Coerce(IntV(20), KInt) == Ok(IntV(20));
    assert Coerce(BoolV(true), KBool) == Ok(BoolV(true));
    TwoEdits(FlatHeap(intValue, 0.0, boolValue, ""), 0, "intValue", IntV(20), Target(0, Field("intValue"), [], KInt),
             "boolValue", BoolV(true), Target(0, Field("boolValue"), [], KBool));
  }

  /** TestModletList: both steps of the list are applied (the test starts from intValue 10, boolValue false). */
  lemma ModletList(intValue: int, boolValue: bool)
    ensures var mod := ModifierDefinition(ByGuid("a"), Batch([SetInt, SetBool]));
      var r := ApplyModifier(FlatHeap(intValue, 0.0, boolValue, ""), Defs, NoStatics, mod);
      && r.outcome == Pass
      && ReadField(r.heap, 0, "intValue") == Ok(IntV(20))
      && ReadField(r.heap, 0, "boolValue") == Ok(BoolV(true))
  {
    TwoSteps(intValue, boolValue);
  }

  /** The list of TestModletListWithMalformedSteps: the two steps, with three incomplete steps between them. */
  const StepsWithMalformed := [SetInt, ModletStep(None, Some(IntV(20))), ModletStep(Some("NoValue"), None),
                               ModletStep(None, None), SetBool]

  /** Of a well-formed step, three malformed ones and a well-formed one, the two well-formed steps are kept. */
  lemma KeepsOuterTwo(a: ModletStep, m1: ModletStep, m2: ModletStep, m3: ModletStep, b: ModletStep)
    requires !Malformed(a) && Malformed(m1) && Malformed(m2) && Malformed(m3) && !Malformed(b)
    ensures WellFormedSteps([a, m1, m2, m3, b]) == [a, b]
  {
    var t3 := [m3] + [b];
    var t2 := [m2] + t3;
    var t1 := [m1] + t2;
    assert [a, m1, m2, m3, b] == [a] + t1;
    WellFormedStep(a);
    WellFormedStep(m1);
    WellFormedStep(m2);
    WellFormedStep(m3);
    WellFormedStep(b);
    WellFormedStepsAppend([m3], [b]);
    WellFormedStepsAppend([m2], t3);
    WellFormedStepsAppend([m1], t2);
    WellFormedStepsAppend([a], t1);
  }

  lemma OnlyTwoWellFormed()
    ensures WellFormedSteps(StepsWithMalformed) == [SetInt, SetBool]
  {
    KeepsOuterTwo(SetInt, ModletStep(None, Some(IntV(20))), ModletStep(Some("NoValue"), None), ModletStep(None, None), SetBool);
  }

  /**
   * TestModletListWithMalformedSteps: steps without a field or without a
   * value are skipped, and the list does what its two complete steps do.
   */
  lemma ModletListWithMalformedSteps(intValue: int, boolValue: bool)
    ensures var mod := ModifierDefinition(ByGuid("a"), Batch(StepsWithMalformed));
      var r := ApplyModifier(FlatHeap(intValue, 0.0, boolValue, ""), Defs, NoStatics, mod);
      && r.outcome == Pass
      && ReadField(r.heap, 0, "intValue") == Ok(IntV(20))
      && ReadField(r.heap, 0, "boolValue") == Ok(BoolV(true))
  {
    OnlyTwoWellFormed();
    MalformedStepsSkipped(FlatHeap(intValue, 0.0, boolValue, ""), 0, StepsWithMalformed);
    TwoSteps(intValue, boolValue);
  }

  // ----- A test run against the stateful repository and heap -----

  /**
   * TestSimpleInt as the test performs it: a repository receives the def
   * under "a", a ModFile applies the modifier, and the object's intValue is
   * read back from the heap that ApplyModifier changed in place.
   */
  method RunSimpleInt() returns (r: Outcome<ModError>, intValue: Result<Scalar, ModError>)
    ensures r == Pass && intValue == Ok(IntV(5))
  {
    var repo := new Runtime.DefRepository();
    var heap := new Runtime.ManagedHeap(FlatHeap(10, 0.0, false, ""), NoStatics);
    var added := repo.AddDef("a", 0);
    assert repo.defs == Defs;
    var m := new Runtime.ModFile(repo, heap);
    r := m.ApplyModifier(SingleEdit("intValue", IntV(5)));
    SimpleInt(10, 0.0, false, "");
    intValue := ReadField(heap.objects, 0, "intValue");
  }
}
