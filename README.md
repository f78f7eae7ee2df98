# PPDefModifier: a verified model of the def-patching engine

PPDefModifier patches game definitions ("defs") at load time. A
*modifier definition* names a root object and a field path into it:

- The root is either a def, looked up by guid in the def repository, or
  the static fields of a class, selected by class name.
- The path is dotted member names with optional bracketed indices,
  such as `arr[0].nestedValues[1]` or `nested.further.Value2`.

The engine proceeds in four steps:

1. It parses the path.
2. It walks the object graph from the root.
3. It converts the supplied value to the type of the leaf field it reaches.
4. It writes the value there.

When the path passes through structs (value types), the changed copy is
written back into the slot of the reference object that holds it. A
modifier may also carry a *modlet list*: a batch of field/value steps.
These are applied in order, and steps with no field or no value are
skipped.

The model has these modules:

- `Wrappers`: the `Option`, `Result` and `Outcome` types.
- `Errors`: the error classes and the .NET exception each one surfaces
  as.
- `FieldPath`: the path grammar and its parser. Parsing is proved to undo
  rendering: the rendered text of every well-formed path parses back to
  that path. The converse does not hold, since `a[01]` parses and renders
  back as `a[1]`. Every syntax defect is proved to be rejected after any
  well-formed path prefix: a bad index literal, an unclosed bracket, a
  stray `]`, an empty segment, and text glued after an index.
- `Values`: leaf scalars and the value coercer.
- `ObjectGraph`: the heap of reference objects, struct values, and the
  struct write-back `SetPath`.
- `Resolver`: the walk from a root to a leaf `Target`, reads and writes
  of a target, and the proof that a write never changes what any path
  resolves to. The walk is specified against `ValueAt`, a direct reader
  that follows a path through references and struct fields. A path
  resolves exactly when `ValueAt` reaches a primitive, and the target
  reads that primitive.
- `Applier`: `ApplyModifier` as a function of the heap, the repository
  and the static namespaces. This covers root selection, single edits
  and modlet batches.
- `Runtime`: the stateful side, proved to compute exactly what
  `Applier` specifies:
  - `DefRepository` is the test suite's `MockRepo`, a mutable dictionary.
  - `ManagedHeap` has a loop that walks paths and a `Store` that updates
    the heap in place.
  - `ModFile.ApplyModifier` has a loop over the modlet steps.
- `EditFacts`: what one edit or two edits in a row do to a given target,
  stated once for the scenarios to use.
- `Reapply`: applying the same modifier twice is proved to give the state
  and outcome of applying it once. This covers single edits and modlet
  lists, including a list that stops at a failing step.
- `Fixtures`: the test classes `TestClass`, `ArrayTestClass` and
  `NestedStruct` laid out as heaps, plus the proof helpers the scenarios
  share.
- `Scenarios`: each test method of `ApplyModTests` as a lemma. Where a
  test checks one instance of a rule, the lemma states the rule for
  every instance, for example every index of the array or every initial
  value.

The engine's own source files are not part of this model. Its behaviour
is taken from the test suite `PPDefModifierTests/ApplyModTests.cs`, which
drives it: each test shows which input succeeds and what it reads back
afterwards, or which exception is thrown.

## Model

| member | source | states |
|---|---|---|
| Errors.Thrown | PPDefModifierTests/ApplyModTests.cs:129-160 | An unknown guid or a duplicate guid surfaces as ArgumentException. An index past the end surfaces as IndexOutOfRangeException. Every other failure surfaces as ModException. |
| FieldPath.ParsePath | PPDefModifierTests/ApplyModTests.cs:284-326 | A parsed path is non-empty, starts with a member, and has only non-empty names without delimiters. Every error is a MalformedPath error carrying the path text. Which defects are rejected is stated by the rejection lemmas below. |
| FieldPath.ParseRender | PPDefModifierTests/ApplyModTests.cs:258-271 | For every well-formed path, parsing its rendered text (`a[i].b[j]` form) gives back exactly that path. |
| FieldPath.NegativeIndexRejected | PPDefModifierTests/ApplyModTests.cs:284-293 | `-n` with n > 0 is never accepted as an index literal. |
| FieldPath.IndexLiteralRejected | PPDefModifierTests/ApplyModTests.cs:295-315 | A bracketed literal that is not an index makes the index parser fail, whatever follows the bracket. |
| FieldPath.SuffixRejected | PPDefModifierTests/ApplyModTests.cs:284-326 | A rejected continuation placed after the rendering of any well-formed path makes the whole text unparsable. A rejected continuation is text starting with `[` or `]` that the index parser rejects, or a `.` followed by text the segment parser rejects. |
| FieldPath.BadIndexRejected | PPDefModifierTests/ApplyModTests.cs:284-315 | For every well-formed path p, `p[lit]rest` is a MalformedPath error whenever lit is not a non-negative integer literal. |
| FieldPath.UnclosedBracketRejected | PPDefModifierTests/ApplyModTests.cs:317-326 | For every well-formed path p, `p[rest` with no `]` in rest is a MalformedPath error. |
| FieldPath.LeadingDelimiterRejected | PPDefModifierTests/ApplyModTests.cs:284-326 | An empty path, or one starting with `.`, `[` or `]`, is a MalformedPath error. |
| FieldPath.EmptySegmentRejected | PPDefModifierTests/ApplyModTests.cs:284-326 | For every well-formed path p, `p.` followed by nothing or by a delimiter is a MalformedPath error. |
| FieldPath.StrayCloseRejected | PPDefModifierTests/ApplyModTests.cs:317-326 | For every well-formed path p, `p]rest` is a MalformedPath error. |
| FieldPath.IndexThenTextRejected | PPDefModifierTests/ApplyModTests.cs:284-326 | After a valid bracketed index, text that starts with neither `.` nor `[` makes the index parser fail. |
| FieldPath.TextAfterIndexRejected | PPDefModifierTests/ApplyModTests.cs:284-326 | For every well-formed path p, `p[lit]rest` with a valid lit is a MalformedPath error when rest starts with neither `.` nor `[`. |
| FieldPath.EmptySegmentsRejected | PPDefModifierTests/ApplyModTests.cs:284-326 | `a..b`, `a.` and `.a` are MalformedPath errors. |
| FieldPath.StrayTextRejected | PPDefModifierTests/ApplyModTests.cs:317-326 | `a]` and `a[0]x` are MalformedPath errors. |
| FieldPath.NatToString | PPDefModifierTests/ApplyModTests.cs:195-223 | The rendered index is a non-empty digit string whose decimal value is the index. |
| Values.Coerce | PPDefModifierTests/ApplyModTests.cs:81-91 | Succeeds exactly when the field's type accepts the value: numbers go to int (integral values only), double or bool, and strings go only to strings. The result has the field's type. Numbers keep their value. A number written to a bool is true exactly when it is non-zero. A value already of the field's type is unchanged. A failure is a Coercion error. |
| ObjectGraph.SetPath | PPDefModifierTests/ApplyModTests.cs:347-369 | The copy rebuilt around the written leaf reads the new scalar at that leaf. |
| ObjectGraph.SetPathFrame | PPDefModifierTests/ApplyModTests.cs:359-369 | The write-back leaves every other leaf path of the struct unchanged. |
| ObjectGraph.SetPathOverride | PPDefModifierTests/ApplyModTests.cs:347-357 | Writing a struct leaf and then writing it again is the same as the second write alone. |
| ObjectGraph.SetPathCommute | PPDefModifierTests/ApplyModTests.cs:359-369 | Writes to two different leaves of a struct give the same struct in either order. |
| ObjectGraph.SetPathSameShape | PPDefModifierTests/ApplyModTests.cs:347-369 | A write that keeps the leaf's type changes no struct field set, reference or null. |
| ObjectGraph.HeapSameShapeTrans | PPDefModifierTests/ApplyModTests.cs:347-395 | Two heaps of the same shape as a third, one after the other, have the same shape as each other. |
| ObjectGraph.HeapSameShapeClosed | PPDefModifierTests/ApplyModTests.cs:347-395 | A heap of the same shape as one with no dangling references also has none. |
| Resolver.Step | PPDefModifierTests/ApplyModTests.cs:140-160 | A member step succeeds exactly when the instance or struct has that field. An index step on an array or list succeeds exactly when the index is below the length, and otherwise fails with IndexOutOfRange(i, length). Any other step is a TargetResolution error. A successful step stands on the value the segment reaches directly (`Child`). Inside an object it enters the slot the segment names; inside a struct it stays in the same slot and adds the field name. |
| Resolver.Finish | PPDefModifierTests/ApplyModTests.cs:151-160 | A walk ends successfully exactly when it stands on a primitive leaf. Ending on an object or a struct is a TargetResolution error. |
| Resolver.ResolveFrom | PPDefModifierTests/ApplyModTests.cs:105-127 | From any place of the heap, the walk succeeds exactly when following the rest of the path directly (`ValueAt`) reaches a primitive, and the target reads that primitive. A failure is TargetResolution or IndexOutOfRange. |
| Resolver.Resolve | PPDefModifierTests/ApplyModTests.cs:105-127 | A path resolves exactly when following it from the root through references and struct fields reaches a primitive. The target is a leaf of the heap of the recorded type, and it reads that primitive. A failure is TargetResolution or IndexOutOfRange. |
| Resolver.WriteSlot | PPDefModifierTests/ApplyModTests.cs:371-395 | The slot receives the value, and every other slot of the object is unchanged. |
| Resolver.Assign | PPDefModifierTests/ApplyModTests.cs:347-395 | The written leaf holds the new scalar, read through the owner's slot. No other object changes, and no other slot of the owner changes. |
| Resolver.AssignReadBack | PPDefModifierTests/ApplyModTests.cs:57-67 | After a write, the target reads back the written scalar. |
| Resolver.AssignFrame | PPDefModifierTests/ApplyModTests.cs:188-228 | After a write, every other leaf reads what it read before. |
| Resolver.AssignOverride | PPDefModifierTests/ApplyModTests.cs:57-67 | A second write to the same leaf, through any target that addresses it, overrides the first: the result is the second write alone. |
| Resolver.AssignCommute | PPDefModifierTests/ApplyModTests.cs:188-228 | Writes to two different leaves keep each other's targets valid, and give the same heap in either order. This holds also when both leaves sit in the same struct slot. |
| Resolver.AssignSameShape | PPDefModifierTests/ApplyModTests.cs:347-395 | A write of the leaf's own type keeps the heap's shape. |
| Resolver.ValidTargetSameShape | PPDefModifierTests/ApplyModTests.cs:347-395 | A target valid in one heap is valid in every heap of the same shape. |
| Resolver.ResolveSameShape | PPDefModifierTests/ApplyModTests.cs:188-228 | Every path resolves to the same target in two heaps of the same shape. |
| Applier.SelectRoot | PPDefModifierTests/ApplyModTests.cs:162-173 | A guid selects the repository's def, and a class name selects that class's static holder. An unknown guid fails with UnknownDef, and an unknown name fails with UnknownClass. |
| Applier.TargetOf | PPDefModifierTests/ApplyModTests.cs:105-127 | A field path has a target exactly when it parses and following it from the root reaches a primitive. The target is a valid leaf of the heap that reads that primitive. |
| Applier.ApplyEdit | PPDefModifierTests/ApplyModTests.cs:140-160 | A malformed path is a MalformedPath error. The edit succeeds exactly when the path resolves and the value coerces to the leaf's type. Resolution errors come before coercion errors. A success keeps the heap's shape and has no dangling references. |
| Applier.ApplyEditReadBack | PPDefModifierTests/ApplyModTests.cs:57-103 | After an edit, the field reads the supplied value coerced to the field's type. Following the path directly from the root through the new heap reaches that value, so every struct on the way has been written back. |
| Applier.ApplyEditFrame | PPDefModifierTests/ApplyModTests.cs:188-256 | After an edit, every field path from every root reads what it read before, unless it addresses the written leaf. A path that aliases the leaf reads the new value. |
| Applier.ApplyEditIdempotent | PPDefModifierTests/ApplyModTests.cs:57-67 | Applying the same edit again leaves the heap as the first application left it. |
| Applier.RunSteps | PPDefModifierTests/ApplyModTests.cs:397-414 | Running a batch keeps the heap's objects and leaves no dangling reference. |
| Applier.ApplyModifier | PPDefModifierTests/ApplyModTests.cs:129-173 | An unknown root fails with the heap unchanged. A failed single edit leaves the heap unchanged. The heap's objects and the validity of the repository and the static namespaces are kept. |
| Applier.WellFormedSteps | PPDefModifierTests/ApplyModTests.cs:416-437 | A step is in the result exactly when it is in the batch and has both a field and a value. |
| Applier.WellFormedStepsAppend | PPDefModifierTests/ApplyModTests.cs:416-437 | The filter keeps order: the well-formed steps of a + b are those of a, then those of b. |
| Applier.WellFormedStep | PPDefModifierTests/ApplyModTests.cs:426-432 | A single step is kept exactly when it has both a field and a value. |
| Applier.MalformedStepsSkipped | PPDefModifierTests/ApplyModTests.cs:416-437 | A batch does exactly what its well-formed steps alone do. |
| Applier.RunStepsAppend | PPDefModifierTests/ApplyModTests.cs:397-414 | Steps run in order: a batch is its first part, then, if that passed, its second part from the state the first part left. |
| Applier.OneStepBatch | PPDefModifierTests/ApplyModTests.cs:397-414 | A batch of one complete step is the single edit of that field and value. |
| Runtime.DefRepository.constructor | PPDefModifierTests/ApplyModTests.cs:28 | A new repository is empty. |
| Runtime.DefRepository.AddDef | PPDefModifierTests/ApplyModTests.cs:23-26 | A new guid is added under its object. A guid already present is a DuplicateDef error, like Dictionary.Add, and changes nothing. |
| Runtime.DefRepository.GetDef | PPDefModifierTests/ApplyModTests.cs:13-21 | Returns the stored object exactly when the guid is present. Otherwise it fails with UnknownDef, which surfaces as ArgumentException. |
| Runtime.ManagedHeap.constructor | PPDefModifierTests/ApplyModTests.cs:60 | The managed objects start as the given heap, and the statics as the given class-name map. |
| Runtime.ManagedHeap.Walk | PPDefModifierTests/ApplyModTests.cs:105-127 | The segment-by-segment loop returns exactly Resolve's target or error. |
| Runtime.ManagedHeap.Store | PPDefModifierTests/ApplyModTests.cs:347-395 | The heap is updated in place to Assign of the old heap. Statics and heap validity are kept. |
| Runtime.ModFile.constructor | PPDefModifierTests/ApplyModTests.cs:63 | `new ModFile(name, repo)`: the mod file holds the given repository. Where the source takes the name, the model takes the heap the edits act on. |
| Runtime.ModFile.ApplyEdit | PPDefModifierTests/ApplyModTests.cs:57-160 | In-place parse, walk, coerce and store. On success the heap becomes Applier.ApplyEdit's heap. On failure the same error is returned and the heap is unchanged. |
| Runtime.ModFile.ApplyModifier | PPDefModifierTests/ApplyModTests.cs:397-437 | The in-place call, including its loop over modlet steps, ends in the state and outcome given by Applier.ApplyModifier. |
| Reapply.ApplyWrites | PPDefModifierTests/ApplyModTests.cs:397-414 | A sequence of leaf writes, performed in order, keeps the heap's shape. |
| Reapply.PushThrough | PPDefModifierTests/ApplyModTests.cs:397-414 | A write before a sequence of writes is overridden when the sequence writes the same leaf later, and otherwise moves to the end. |
| Reapply.ApplyWritesTwice | PPDefModifierTests/ApplyModTests.cs:397-414 | A sequence of writes performed a second time changes nothing more. |
| Reapply.PlanOf | PPDefModifierTests/ApplyModTests.cs:397-437 | The writes a modlet list performs and how it ends. Each planned write goes to a valid target of the starting heap, with a value of the target's type. |
| Reapply.PlanSameShape | PPDefModifierTests/ApplyModTests.cs:397-414 | Two heaps of the same shape give a modlet list the same plan. |
| Reapply.RunStepsPlan | PPDefModifierTests/ApplyModTests.cs:397-437 | Running a modlet list performs exactly its planned writes and ends with the planned outcome. |
| Reapply.RunStepsIdempotent | PPDefModifierTests/ApplyModTests.cs:397-437 | Running a modlet list again from the state it left gives the same state and outcome, also when a step fails. |
| Reapply.ApplyModifierIdempotent | PPDefModifierTests/ApplyModTests.cs:57-173 | Applying a modifier again to the state it left gives the same state and outcome, for an unknown root, a single edit and a modlet list. |
| Scenarios.SimpleInt | PPDefModifierTests/ApplyModTests.cs:57-67 | For any initial intValue, doubleValue, boolValue and stringValue, writing 5 to intValue passes and intValue reads 5. |
| Scenarios.SimpleDouble | PPDefModifierTests/ApplyModTests.cs:69-79 | Writing 50.0 to doubleValue passes and it reads 50.0. |
| Scenarios.SimpleBool | PPDefModifierTests/ApplyModTests.cs:81-91 | The number 1 written to boolValue reads true. |
| Scenarios.SimpleString | PPDefModifierTests/ApplyModTests.cs:93-103 | Writing "bar" to stringValue passes and it reads "bar". |
| Scenarios.NestedInt | PPDefModifierTests/ApplyModTests.cs:105-115 | `nested.intValue` reads 10 after the write. |
| Scenarios.DoubleNestedInt | PPDefModifierTests/ApplyModTests.cs:117-127 | `nested.anotherNest.intValue` reads 10 after the write. |
| Scenarios.WrongGuid | PPDefModifierTests/ApplyModTests.cs:129-138 | Guid "b" is UnknownDef, an ArgumentException, and the heap is unchanged. |
| Scenarios.BadField | PPDefModifierTests/ApplyModTests.cs:140-149 | The field "wrong" is TargetResolution, a ModException, and the heap is unchanged. |
| Scenarios.NonPrimitiveField | PPDefModifierTests/ApplyModTests.cs:151-160 | A path ending at the object `nested` is TargetResolution, a ModException, and the heap is unchanged. |
| Scenarios.StaticInt | PPDefModifierTests/ApplyModTests.cs:162-173 | Selected by class name, the static staticIntValue reads 5 after the write. |
| Scenarios.ArrayObject | PPDefModifierTests/ApplyModTests.cs:188-228 | For each k < 3, writing 10 to `arr[k].value` changes element k only: it reads 10, and every other element j reads 7 + j. |
| Scenarios.ArrayValue | PPDefModifierTests/ApplyModTests.cs:230-256 | For each k < 3, the int 10 written to `values[k]` reads 10.0, and the other doubles keep 7.0 + j. |
| Scenarios.MultiArrayValues | PPDefModifierTests/ApplyModTests.cs:258-271 | For every i and every j in range, `arr[i].nestedValues[j]` reads 10.0 after the write. |
| Scenarios.OutOfBound | PPDefModifierTests/ApplyModTests.cs:273-282 | Every index of at least 3 into the 3-element arr is IndexOutOfRange, an IndexOutOfRangeException, and the heap is unchanged. |
| Scenarios.NegativeIndex | PPDefModifierTests/ApplyModTests.cs:284-293 | `arr[-n].value` for every n > 0 is MalformedPath, a ModException, and the heap is unchanged. |
| Scenarios.NonIntIndex | PPDefModifierTests/ApplyModTests.cs:295-304 | `arr[1.0].value` is MalformedPath, a ModException, and the heap is unchanged. |
| Scenarios.NonNumberIndex | PPDefModifierTests/ApplyModTests.cs:306-315 | `arr[foo].value` is MalformedPath, a ModException, and the heap is unchanged. |
| Scenarios.BadBracket | PPDefModifierTests/ApplyModTests.cs:317-326 | `arr[.value` is MalformedPath, a ModException, and the heap is unchanged. |
| Scenarios.StructMember | PPDefModifierTests/ApplyModTests.cs:347-357 | `nested.Value`, a field of a struct field, reads 10 after the write-back. |
| Scenarios.StructInStruct | PPDefModifierTests/ApplyModTests.cs:359-369 | `nested.further.Value2`, two structs deep, reads 10 after the write-back. |
| Scenarios.StructSeq | PPDefModifierTests/ApplyModTests.cs:371-395 | For both the struct array and the struct list, element 1's Value reads 10 after the write-back and element 0 still reads 7. |
| Scenarios.ModletList | PPDefModifierTests/ApplyModTests.cs:397-414 | Both steps apply: intValue reads 20 and boolValue reads true. |
| Scenarios.OnlyTwoWellFormed | PPDefModifierTests/ApplyModTests.cs:426-432 | Of the five steps, exactly the first and last are well formed. |
| Scenarios.ModletListWithMalformedSteps | PPDefModifierTests/ApplyModTests.cs:416-437 | The three incomplete steps are skipped. intValue reads 20 and boolValue reads true. |
| Scenarios.RunSimpleInt | PPDefModifierTests/ApplyModTests.cs:57-67 | Through the stateful repository, heap and ModFile, the call passes and intValue reads 5 from the heap updated in place. |

## Left out

- Reflection and type-name resolution: a class is selected through a map from class name to the object holding its static fields. Parsing assembly-qualified names and nested-type names (`A+B, Assembly`) is not modelled.
- The engine's own source files (ModFile, ModifierDefinition, the resolver) are not part of this model. Their behaviour is taken from what the tests drive and assert.
- Errors.Thrown: no test shows which exception an unknown class name or a failed coercion surfaces as. The model maps both to ModException. This is a modelling choice, not taken from the tests.
- Floating point: doubles are exact reals, so there is no rounding or NaN.
- Values.Coerce: does not model 32-bit overflow or out-of-range doubles cast to int. Integers are unbounded.
- Numeric types other than int, double and bool, and enums, are not modelled. None is exercised by the tests.
- A null string field is modelled as the empty string. A null reference met on a path is a TargetResolution error.
- A failing step in a modlet list ends the batch with its error and keeps the steps before it. The tests do not pin this policy.
- Index literals are read as non-negative integers. The literal grammar is an optional `-` followed by digits. It admits no whitespace and no `+`, and literals are unbounded. `-0` reads as index 0.
- The ModFile name, logging, loading of modifier files and concurrency are not modelled. The MSTest harness is replaced by lemmas.
- Scenarios state each test's property for every initial value, or every index, that the fixture allows. The paths are written as the rendering of their segments, which ParseRender proves to parse back.
