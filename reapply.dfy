/**
 * Applying the same modifier twice gives the same final state as applying
 * it once, for a single edit and for a modlet list alike, including a list
 * that stops at a failing step.
 *
 * A modlet list is described by its plan: the writes its steps perform, in
 * order, and how it ends. Every write keeps the heap's shape, and resolution
 * looks only at the shape, so each step resolves in the heap the earlier
 * steps left to the target it has in the heap the list started from. The
 * plan therefore depends on the shape alone, and a second run carries out
 * the same writes once more; a sequence of writes applied twice has the
 * effect of applying it once.
 */
module Reapply {
  import opened Wrappers
  import opened Errors
  import opened Values
  import opened FieldPath
  import opened ObjectGraph
  import opened Resolver
  import opened Applier

  /** One leaf write: the scalar x, already of the target's kind, stored at the target. */
  datatype Write = Write(target: Target, x: Scalar)

  predicate WriteValid(h: Heap, w: Write)
  {
    ValidTarget(h, w.target) && KindOf(w.x) == w.target.kind
  }

  predicate WritesValid(h: Heap, ws: seq<Write>)
  {
    forall k :: 0 <= k < |ws| ==> WriteValid(h, ws[k])
  }

  lemma WritesValidSameShape(h: Heap, g: Heap, ws: seq<Write>)
    requires HeapSameShape(h, g) && WritesValid(h, ws)
    ensures WritesValid(g, ws)
  {
    forall k | 0 <= k < |ws| ensures WriteValid(g, ws[k]) {
      ValidTargetSameShape(h, g, ws[k].target);
    }
  }

  /** Performs the writes in order. */
  function ApplyWrites(h: Heap, ws: seq<Write>): (g: Heap)
    requires WritesValid(h, ws)
    ensures HeapSameShape(h, g)
    decreases |ws|
  {
    if ws == [] then
      HeapSameShapeRefl(h);
      h
    else
      var h1 := Assign(h, ws[0].target, ws[0].x);
      AssignSameShape(h, ws[0].target, ws[0].x);
      WritesValidSameShape(h, h1, ws[1..]);
      var g := ApplyWrites(h1, ws[1..]);
      HeapSameShapeTrans(h, h1, g);
      g
  }

  /** Some write of ws addresses the leaf of t. */
  predicate Touches(ws: seq<Write>, t: Target)
    decreases |ws|
  {
    ws != [] && (SameLeaf(ws[0].target, t) || Touches(ws[1..], t))
  }

  /**
   * A write performed before a sequence of writes is overridden when the
   * sequence writes the same leaf later, and otherwise commutes to its end.
   */
  lemma {:induction false} PushThrough(h: Heap, w: Write, ws: seq<Write>)
    requires WriteValid(h, w) && WritesValid(h, ws)
    ensures WritesValid(Assign(h, w.target, w.x), ws) && WriteValid(ApplyWrites(h, ws), w)
    ensures ApplyWrites(Assign(h, w.target, w.x), ws)
         == if Touches(ws, w.target) then ApplyWrites(h, ws) else Assign(ApplyWrites(h, ws), w.target, w.x)
    decreases |ws|
  {
    var hw := Assign(h, w.target, w.x);
    AssignSameShape(h, w.target, w.x);
    WritesValidSameShape(h, hw, ws);
    ValidTargetSameShape(h, ApplyWrites(h, ws), w.target);
    if ws != [] {
      var v := ws[0];
      var hv := Assign(h, v.target, v.x);
      AssignSameShape(h, v.target, v.x);
      WritesValidSameShape(h, hv, ws[1..]);
      if SameLeaf(w.target, v.target) {
        AssignOverride(h, w.target, w.x, v.target, v.x);
      } else {
        AssignCommute(h, w.target, w.x, v.target, v.x);
        ValidTargetSameShape(h, hv, w.target);
        PushThrough(hv, w, ws[1..]);
      }
    }
  }

  /** A sequence of writes applied a second time changes nothing more. */
  lemma {:induction false} ApplyWritesTwice(h: Heap, ws: seq<Write>)
    requires WritesValid(h, ws)
    ensures WritesValid(ApplyWrites(h, ws), ws)
    ensures ApplyWrites(ApplyWrites(h, ws), ws) == ApplyWrites(h, ws)
    decreases |ws|
  {
    var g := ApplyWrites(h, ws);
    WritesValidSameShape(h, g, ws);
    if ws != [] {
      var w, rest := ws[0], ws[1..];
      var h1 := Assign(h, w.target, w.x);
      AssignSameShape(h, w.target, w.x);
      WritesValidSameShape(h, h1, rest);
      PushThrough(g, w, rest);
      ApplyWritesTwice(h1, rest);
      if !Touches(rest, w.target) {
        PushThrough(h, w, rest);
        AssignOverride(ApplyWrites(h, rest), w.target, w.x, w.target, w.x);
      }
    }
  }

  /** What a modlet list does: the writes of its steps, in order, and how it ends. */
  datatype Plan = Plan(writes: seq<Write>, outcome: Outcome<ModError>)

  /**
   * The plan of a modlet list run from h. Every step's target is resolved in
   * h itself; RunStepsPlan shows this is what running the steps does.
   */
  function PlanOf(h: Heap, root: Addr, steps: seq<ModletStep>): (r: Plan)
    requires Closed(h) && root in h
    ensures WritesValid(h, r.writes)
    decreases |steps|
  {
    if steps == [] then Plan([], Pass)
    else if Malformed(steps[0]) then PlanOf(h, root, steps[1..])
    else
      match TargetOf(h, root, steps[0].field.value)
      case Err(e) => Plan([], Fail(e))
      case Ok(t) =>
        match Coerce(steps[0].value.value, t.kind)
        case Err(e) => Plan([], Fail(e))
        case Ok(x) =>
          var rest := PlanOf(h, root, steps[1..]);
          Plan([Write(t, x)] + rest.writes, rest.outcome)
  }

  /** The plan depends only on the shape of the heap. */
  lemma {:induction false} PlanSameShape(h: Heap, g: Heap, root: Addr, steps: seq<ModletStep>)
    requires Closed(h) && Closed(g) && HeapSameShape(h, g) && root in h
    ensures PlanOf(h, root, steps) == PlanOf(g, root, steps)
    decreases |steps|
  {
    if steps != [] {
      if !Malformed(steps[0]) {
        var path := ParsePath(steps[0].field.value);
        if path.Ok? {
          ResolveSameShape(h, g, root, path.value);
        }
      }
      PlanSameShape(h, g, root, steps[1..]);
    }
  }

  /** Running a modlet list carries out its plan. */
  lemma {:induction false} RunStepsPlan(h: Heap, root: Addr, steps: seq<ModletStep>)
    requires Closed(h) && root in h
    ensures RunSteps(h, root, steps)
         == Applied(ApplyWrites(h, PlanOf(h, root, steps).writes), PlanOf(h, root, steps).outcome)
    decreases |steps|
  {
    if steps != [] {
      if Malformed(steps[0]) {
        RunStepsPlan(h, root, steps[1..]);
      } else {
        var field, raw := steps[0].field.value, steps[0].value.value;
        match ApplyEdit(h, root, field, raw)
        case Err(_) =>
        case Ok(h') =>
          var t := TargetOf(h, root, field).value;
          var x := Coerce(raw, t.kind).value;
          assert h' == Assign(h, t, x);
          RunStepsPlan(h', root, steps[1..]);
          PlanSameShape(h, h', root, steps[1..]);
          var ws := PlanOf(h, root, steps[1..]).writes;
          assert ([Write(t, x)] + ws)[0] == Write(t, x) && ([Write(t, x)] + ws)[1..] == ws;
      }
    }
  }

  /** Running a modlet list again from the state it left ends in the same state, with the same outcome. */
  lemma RunStepsIdempotent(h: Heap, root: Addr, steps: seq<ModletStep>)
    requires Closed(h) && root in h
    ensures var r := RunSteps(h, root, steps);
      RunSteps(r.heap, root, steps) == r
  {
    var p := PlanOf(h, root, steps);
    RunStepsPlan(h, root, steps);
    var g := ApplyWrites(h, p.writes);
    HeapSameShapeClosed(h, g);
    PlanSameShape(h, g, root, steps);
    RunStepsPlan(g, root, steps);
    ApplyWritesTwice(h, p.writes);
  }

  /**
   * Applying the same modifier twice gives the state and outcome of applying
   * it once: for an unknown root, a single edit, or a modlet list.
   */
  lemma ApplyModifierIdempotent(h: Heap, defs: map<string, Addr>, statics: map<string, Addr>, mod: ModifierDefinition)
    requires StateValid(h, defs, statics)
    ensures var r := ApplyModifier(h, defs, statics, mod);
      ApplyModifier(r.heap, defs, statics, mod) == r
  {
    match SelectRoot(defs, statics, mod.root)
    case Err(_) =>
    case Ok(root) =>
      match mod.edit
      case Single(field, raw) =>
        if ApplyEdit(h, root, field, raw).Ok? {
          ApplyEditIdempotent(h, root, field, raw);
        }
      case Batch(steps) =>
        RunStepsIdempotent(h, root, steps);
  }
}
