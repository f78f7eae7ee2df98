/**
 * General facts about single edits and short batches, stated once and used
 * by the scenarios: when an edit passes, what it reads back, what it leaves
 * alone, and how a batch of two well-formed steps unfolds.
 */
module EditFacts {
  import opened Wrappers
  import opened Errors
  import opened Values
  import opened FieldPath
  import opened ObjectGraph
  import opened Resolver
  import opened Applier

  /** A single edit whose field resolves and whose value fits passes and reads back the coerced value. */
  lemma EditWrites(h: Heap, defs: map<string, Addr>, statics: map<string, Addr>, mod: ModifierDefinition,
                   root: Addr, t: Target)
    requires StateValid(h, defs, statics) && SelectRoot(defs, statics, mod.root) == Ok(root)
    requires mod.edit.Single? && TargetOf(h, root, mod.edit.field) == Ok(t) && Accepts(t.kind, mod.edit.value)
    ensures ApplyEdit(h, root, mod.edit.field, mod.edit.value).Ok?
    ensures var r := ApplyModifier(h, defs, statics, mod);
      && r == Applied(ApplyEdit(h, root, mod.edit.field, mod.edit.value).value, Pass)
      && ReadField(r.heap, root, mod.edit.field) == Coerce(mod.edit.value, t.kind)
  {
    ApplyEditReadBack(h, root, mod.edit.field, mod.edit.value);
  }

  /** An edit whose path resolves to a leaf that accepts the raw value succeeds. */
  lemma EditSucceeds(h: Heap, root: Addr, field: string, raw: Scalar, t: Target)
    requires Closed(h) && root in h && TargetOf(h, root, field) == Ok(t) && Accepts(t.kind, raw)
    ensures ApplyEdit(h, root, field, raw).Ok?
  {
  }

  /** After an edit, a path to another leaf reads what it read before. */
  lemma EditKeeps(h: Heap, root: Addr, field: string, raw: Scalar, t: Target, other: string, u: Target)
    requires Closed(h) && root in h && ApplyEdit(h, root, field, raw).Ok?
    requires TargetOf(h, root, field) == Ok(t) && TargetOf(h, root, other) == Ok(u) && !SameLeaf(t, u)
    ensures ValidTarget(h, u) && ReadField(ApplyEdit(h, root, field, raw).value, root, other) == Ok(Read(h, u))
  {
    ApplyEditFrame(h, root, field, raw, root, other);
  }

  /** A single edit that fails leaves the heap as it was and reports the error. */
  lemma EditFails(h: Heap, defs: map<string, Addr>, statics: map<string, Addr>, mod: ModifierDefinition,
                  root: Addr, e: ModError)
    requires StateValid(h, defs, statics) && SelectRoot(defs, statics, mod.root) == Ok(root)
    requires mod.edit.Single? && ApplyEdit(h, root, mod.edit.field, mod.edit.value) == Err(e)
    ensures ApplyModifier(h, defs, statics, mod) == Applied(h, Fail(e))
  {
  }

  /** An edit leaves every path resolving to the target it resolved to before. */
  lemma EditKeepsTarget(h: Heap, root: Addr, f: string, x: Scalar, g: string, u: Target)
    requires Closed(h) && root in h && ApplyEdit(h, root, f, x).Ok? && TargetOf(h, root, g) == Ok(u)
    ensures Closed(ApplyEdit(h, root, f, x).value) && root in ApplyEdit(h, root, f, x).value
    ensures TargetOf(ApplyEdit(h, root, f, x).value, root, g) == Ok(u)
  {
    ResolveSameShape(h, ApplyEdit(h, root, f, x).value, root, ParsePath(g).value);
  }

  /** A batch of two well-formed steps is the first edit followed by the second. */
  lemma TwoStepBatch(h: Heap, root: Addr, f1: string, x1: Scalar, f2: string, x2: Scalar)
    requires Closed(h) && root in h && ApplyEdit(h, root, f1, x1).Ok?
    ensures var h1 := ApplyEdit(h, root, f1, x1).value;
      RunSteps(h, root, [ModletStep(Some(f1), Some(x1)), ModletStep(Some(f2), Some(x2))])
      == match ApplyEdit(h1, root, f2, x2)
         case Err(e) => Applied(h1, Fail(e))
         case Ok(h2) => Applied(h2, Pass)
  {
    FirstStepApplied(h, root, ModletStep(Some(f1), Some(x1)), ModletStep(Some(f2), Some(x2)));
    OneStepBatch(ApplyEdit(h, root, f1, x1).value, root, f2, x2);
  }

  /** A well-formed first step that succeeds hands its heap to the second step. */
  lemma FirstStepApplied(h: Heap, root: Addr, s1: ModletStep, s2: ModletStep)
    requires Closed(h) && root in h && !Malformed(s1) && ApplyEdit(h, root, s1.field.value, s1.value.value).Ok?
    ensures RunSteps(h, root, [s1, s2]) == RunSteps(ApplyEdit(h, root, s1.field.value, s1.value.value).value, root, [s2])
  {
    assert [s1, s2][1..] == [s2];
  }


  /**
   * Two well-formed steps that write different leaves both pass, and after
   * the batch each leaf reads its own step's value.
   */
  lemma TwoEdits(h: Heap, root: Addr, f1: string, x1: Scalar, t1: Target, f2: string, x2: Scalar, t2: Target)
    requires Closed(h) && root in h
    requires TargetOf(h, root, f1) == Ok(t1) && TargetOf(h, root, f2) == Ok(t2) && !SameLeaf(t2, t1)
    requires Accepts(t1.kind, x1) && Accepts(t2.kind, x2)
    ensures var r := RunSteps(h, root, [ModletStep(Some(f1), Some(x1)), ModletStep(Some(f2), Some(x2))]);
      && r.outcome == Pass
      && ReadField(r.heap, root, f1) == Coerce(x1, t1.kind)
      && ReadField(r.heap, root, f2) == Coerce(x2, t2.kind)
  {
    ApplyEditReadBack(h, root, f1, x1);
    var h1 := ApplyEdit(h, root, f1, x1).value;
    EditKeepsTarget(h, root, f1, x1, f1, t1);
    EditKeepsTarget(h, root, f1, x1, f2, t2);
    ApplyEditReadBack(h1, root, f2, x2);
    EditKeeps(h1, root, f2, x2, t2, f1, t1);
    TwoStepBatch(h, root, f1, x1, f2, x2);
  }
}
