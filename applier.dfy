/**
 * The mod applier, as a function of the state it starts from. A modifier
 * selects a root (a def by guid, or a class's static fields by class name)
 * and either writes one value through one field path or runs a batch of
 * modlet steps in order. The imperative ModFile.ApplyModifier is proved
 * to compute exactly this.
 */
module Applier {
  import opened Wrappers
  import opened Errors
  import opened Values
  import opened FieldPath
  import opened ObjectGraph
  import opened Resolver

  datatype RootSelector =
    | ByGuid(guid: string)      // a def looked up in the repository
    | ByClass(name: string)     // the static fields of a class

  /** One step of a modlet list; either part may be missing. */
  datatype ModletStep = ModletStep(field: Option<string>, value: Option<Scalar>)

  datatype Edit =
    | Single(field: string, value: Scalar)
    | Batch(steps: seq<ModletStep>)

  datatype ModifierDefinition = ModifierDefinition(root: RootSelector, edit: Edit)

  /** The final state and how the call ended. */
  datatype Applied = Applied(heap: Heap, outcome: Outcome<ModError>)

  /** A step with no field or no value is skipped without an error. */
  predicate Malformed(s: ModletStep)
  {
    s.field.None? || s.value.None?
  }

  /** A heap together with the repository's defs and the static namespaces, none dangling. */
  predicate StateValid(h: Heap, defs: map<string, Addr>, statics: map<string, Addr>)
  {
    Closed(h) && defs.Values <= h.Keys && statics.Values <= h.Keys
  }

  /**
   * Finds the root object. A guid the repository does not know fails with
   * the repository's own error, unchanged; so does an unknown class name.
   */
  function SelectRoot(defs: map<string, Addr>, statics: map<string, Addr>, sel: RootSelector): (r: Result<Addr, ModError>)
    ensures sel.ByGuid? ==> (r.Ok? <==> sel.guid in defs) && (r.Ok? ==> r.value == defs[sel.guid])
    ensures sel.ByGuid? && r.Err? ==> r.error == UnknownDef(sel.guid)
    ensures sel.ByClass? ==> (r.Ok? <==> sel.name in statics) && (r.Ok? ==> r.value == statics[sel.name])
    ensures sel.ByClass? && r.Err? ==> r.error == UnknownClass(sel.name)
  {
    match sel
    case ByGuid(g) => if g in defs then Ok(defs[g]) else Err(UnknownDef(g))
    case ByClass(n) => if n in statics then Ok(statics[n]) else Err(UnknownClass(n))
  }

  /** The target a field path addresses from a root. */
  function TargetOf(h: Heap, root: Addr, field: string): (r: Result<Target, ModError>)
    requires Closed(h) && root in h
    ensures r.Ok? ==> ValidTarget(h, r.value)
    ensures r.Ok? <==> ParsePath(field).Ok? && ValueAt(h, Ref(root), ParsePath(field).value).Some?
                       && ValueAt(h, Ref(root), ParsePath(field).value).value.Prim?
    ensures r.Ok? ==> ValueAt(h, Ref(root), ParsePath(field).value) == Some(Prim(Read(h, r.value)))
  {
    var path :- ParsePath(field);
    Resolve(h, root, path)
  }

  /** What a field path reads from a root: the scalar at its leaf, or why there is none. */
  function ReadField(h: Heap, root: Addr, field: string): Result<Scalar, ModError>
    requires Closed(h) && root in h
  {
    var t :- TargetOf(h, root, field);
    Ok(Read(h, t))
  }

  /**
   * One edit: parse the path, resolve it, coerce the value to the leaf's
   * kind, write it. Errors come in that order, and an error leaves the
   * heap as it was.
   */
  function ApplyEdit(h: Heap, root: Addr, field: string, raw: Scalar): (r: Result<Heap, ModError>)
    requires Closed(h) && root in h
    ensures r.Ok? ==> Closed(r.value) && HeapSameShape(h, r.value)
    ensures ParsePath(field).Err? ==> r == Err(MalformedPath(field))
    ensures r.Ok? <==> TargetOf(h, root, field).Ok? && Coerce(raw, TargetOf(h, root, field).value.kind).Ok?
    ensures r.Err? && TargetOf(h, root, field).Err? ==> r.error == TargetOf(h, root, field).error
    ensures r.Err? && TargetOf(h, root, field).Ok? ==> r.error == Coercion
  {
    var t :- TargetOf(h, root, field);
    var x :- Coerce(raw, t.kind);
    AssignSameShape(h, t, x);
    HeapSameShapeClosed(h, Assign(h, t, x));
    Ok(Assign(h, t, x))
  }

  /**
   * Runs modlet steps in order. Malformed steps are skipped; the first step
   * that fails ends the batch with its error, keeping the steps before it.
   */
  function RunSteps(h: Heap, root: Addr, steps: seq<ModletStep>): (r: Applied)
    requires Closed(h) && root in h
    ensures Closed(r.heap) && r.heap.Keys == h.Keys
  {
    if steps == [] then Applied(h, Pass)
    else if Malformed(steps[0]) then RunSteps(h, root, steps[1..])
    else
      match ApplyEdit(h, root, steps[0].field.value, steps[0].value.value)
      case Err(e) => Applied(h, Fail(e))
      case Ok(h') => RunSteps(h', root, steps[1..])
  }

  /** The whole call: select the root, then apply the single edit or the batch. */
  function ApplyModifier(h: Heap, defs: map<string, Addr>, statics: map<string, Addr>,
                         mod: ModifierDefinition): (r: Applied)
    requires StateValid(h, defs, statics)
    ensures StateValid(r.heap, defs, statics) && r.heap.Keys == h.Keys
    ensures SelectRoot(defs, statics, mod.root).Err? ==>
      r == Applied(h, Fail(SelectRoot(defs, statics, mod.root).error))
    ensures mod.edit.Single? && r.outcome.Fail? ==> r.heap == h
  {
    match SelectRoot(defs, statics, mod.root)
    case Err(e) => Applied(h, Fail(e))
    case Ok(root) =>
      match mod.edit
      case Single(field, raw) =>
        (match ApplyEdit(h, root, field, raw)
         case Err(e) => Applied(h, Fail(e))
         case Ok(h') => Applied(h', Pass))
      case Batch(steps) => RunSteps(h, root, steps)
  }

  // ----- Properties of a single edit -----

  /**
   * After a successful edit the field reads back the value coerced to the
   * field's type, both through the resolver and when the path is followed
   * directly through the objects and structs of the new heap.
   */
  lemma ApplyEditReadBack(h: Heap, root: Addr, field: string, raw: Scalar)
    requires Closed(h) && root in h && ApplyEdit(h, root, field, raw).Ok?
    ensures var h' := ApplyEdit(h, root, field, raw).value;
      && ReadField(h, root, field).Ok?
      && ReadField(h', root, field) == Coerce(raw, KindOf(ReadField(h, root, field).value))
      && ValueAt(h', Ref(root), ParsePath(field).value)
         == Some(Prim(Coerce(raw, KindOf(ReadField(h, root, field).value)).value))
  {
    var h' := ApplyEdit(h, root, field, raw).value;
    var t := TargetOf(h, root, field).value;
    var x := Coerce(raw, t.kind).value;
    var path := ParsePath(field).value;
    ResolveSameShape(h, h', root, path);
    AssignReadBack(h, t, x);
  }

  /**
   * Every path reads after an edit what it read before, except a path that
   * addresses the written leaf, which reads the written value. This covers
   * aliases: a path from another root through a shared reference object to
   * the same leaf sees the write too.
   */
  lemma ApplyEditFrame(h: Heap, root: Addr, field: string, raw: Scalar, root2: Addr, field2: string)
    requires Closed(h) && root in h && root2 in h && ApplyEdit(h, root, field, raw).Ok?
    ensures var h' := ApplyEdit(h, root, field, raw).value;
      ReadField(h', root2, field2)
      == if TargetOf(h, root2, field2).Ok? && SameLeaf(TargetOf(h, root, field).value, TargetOf(h, root2, field2).value)
         then ReadField(h', root, field)
         else ReadField(h, root2, field2)
  {
    var h' := ApplyEdit(h, root, field, raw).value;
    var t := TargetOf(h, root, field).value;
    var x := Coerce(raw, t.kind).value;
    ResolveSameShape(h, h', root, ParsePath(field).value);
    if ParsePath(field2).Ok? {
      ResolveSameShape(h, h', root2, ParsePath(field2).value);
      if TargetOf(h, root2, field2).Ok? {
        var u := TargetOf(h, root2, field2).value;
        if !SameLeaf(t, u) {
          AssignFrame(h, t, x, u);
        }
      }
    }
  }

  /** Applying the same edit twice gives the same state as applying it once. */
  lemma ApplyEditIdempotent(h: Heap, root: Addr, field: string, raw: Scalar)
    requires Closed(h) && root in h && ApplyEdit(h, root, field, raw).Ok?
    ensures var h' := ApplyEdit(h, root, field, raw).value;
      ApplyEdit(h', root, field, raw) == Ok(h')
  {
    var h' := ApplyEdit(h, root, field, raw).value;
    var t := TargetOf(h, root, field).value;
    var x := Coerce(raw, t.kind).value;
    ResolveSameShape(h, h', root, ParsePath(field).value);
    AssignOverride(h, t, x, t, x);
  }

  // ----- Properties of a batch -----

  /** The well-formed steps of a batch, in their order. */
  function WellFormedSteps(steps: seq<ModletStep>): (r: seq<ModletStep>)
    ensures forall s :: s in r <==> s in steps && !Malformed(s)
    ensures |r| <= |steps|
  {
    if steps == [] then []
    else if Malformed(steps[0]) then WellFormedSteps(steps[1..])
    else [steps[0]] + WellFormedSteps(steps[1..])
  }

  /** Filtering keeps order: the well-formed steps of a + b are those of a, then those of b. */
  lemma {:induction false} WellFormedStepsAppend(a: seq<ModletStep>, b: seq<ModletStep>)
    ensures WellFormedSteps(a + b) == WellFormedSteps(a) + WellFormedSteps(b)
    decreases |a|
  {
    if a == [] {
      assert a + b == b;
    } else {
      assert (a + b)[0] == a[0] && (a + b)[1..] == a[1..] + b;
      WellFormedStepsAppend(a[1..], b);
    }
  }

  /** A single step is kept exactly when it is well formed. */
  lemma WellFormedStep(s: ModletStep)
    ensures WellFormedSteps([s]) == if Malformed(s) then [] else [s]
  {
    assert [s][1..] == [];
  }

  /** Malformed steps have no effect: a batch does what its well-formed steps alone do. */
  lemma {:induction false} MalformedStepsSkipped(h: Heap, root: Addr, steps: seq<ModletStep>)
    requires Closed(h) && root in h
    ensures RunSteps(h, root, steps) == RunSteps(h, root, WellFormedSteps(steps))
    decreases |steps|
  {
    if steps != [] {
      if Malformed(steps[0]) {
        MalformedStepsSkipped(h, root, steps[1..]);
      } else {
        var w := WellFormedSteps(steps);
        assert w[0] == steps[0] && w[1..] == WellFormedSteps(steps[1..]);
        match ApplyEdit(h, root, steps[0].field.value, steps[0].value.value)
        case Err(_) =>
        case Ok(h') => MalformedStepsSkipped(h', root, steps[1..]);
      }
    }
  }

  /** Steps run in order: a batch is its first part followed by its second part. */
  lemma {:induction false} RunStepsAppend(h: Heap, root: Addr, first: seq<ModletStep>, second: seq<ModletStep>)
    requires Closed(h) && root in h
    ensures var a := RunSteps(h, root, first);
      RunSteps(h, root, first + second)
      == if a.outcome.Fail? then a else RunSteps(a.heap, root, second)
    decreases |first|
  {
    if first == [] {
      assert first + second == second;
    } else {
      assert (first + second)[0] == first[0];
      assert (first + second)[1..] == first[1..] + second;
      if Malformed(first[0]) {
        RunStepsAppend(h, root, first[1..], second);
      } else {
        match ApplyEdit(h, root, first[0].field.value, first[0].value.value)
        case Err(_) =>
        case Ok(h') => RunStepsAppend(h', root, first[1..], second);
      }
    }
  }

  /** A batch of one well-formed step is the single edit of that field and value. */
  lemma OneStepBatch(h: Heap, root: Addr, field: string, raw: Scalar)
    requires Closed(h) && root in h
    ensures RunSteps(h, root, [ModletStep(Some(field), Some(raw))])
         == match ApplyEdit(h, root, field, raw)
            case Err(e) => Applied(h, Fail(e))
            case Ok(h') => Applied(h', Pass)
  {
    var s := [ModletStep(Some(field), Some(raw))];
    assert s[1..] == [];
  }
}
