/**
 * The stateful side of the engine: the repository of defs, the process
 * heap that ApplyModifier changes in place, and ModFile, which applies
 * modifiers against them. Each method is proved to compute what the
 * functions of module Applier specify.
 */
module Runtime {
  import opened Wrappers
  import opened Errors
  import opened Values
  import opened FieldPath
  import opened ObjectGraph
  import opened Resolver
  import Applier

  /** The repository of defs: a dictionary from guid to root object. */
  class DefRepository {
    var defs: map<string, Addr>

    constructor ()
      ensures defs == map[]
    {
      defs := map[];
    }

    /**
     * Registers a def. As with Dictionary.Add, a guid that is already
     * present is an ArgumentException and changes nothing.
     */
    method AddDef(guid: string, obj: Addr) returns (r: Outcome<ModError>)
      modifies this
      ensures guid in old(defs) ==> r == Fail(DuplicateDef(guid)) && defs == old(defs)
      ensures guid !in old(defs) ==> r == Pass && defs == old(defs)[guid := obj]
    {
      if guid in defs {
        r := Fail(DuplicateDef(guid));
      } else {
        defs := defs[guid := obj];
        r := Pass;
      }
    }

    /** Looks a def up; an unknown guid is an ArgumentException. */
    method GetDef(guid: string) returns (r: Result<Addr, ModError>)
      ensures r.Ok? <==> guid in defs
      ensures r.Ok? ==> r.value == defs[guid]
      ensures r.Err? ==> r.error == UnknownDef(guid) && Thrown(r.error) == ArgumentException
    {
      if guid in defs {
        r := Ok(defs[guid]);
      } else {
        r := Err(UnknownDef(guid));
      }
    }
  }

  /** The process heap: every reference object, and the holder of each class's static fields. */
  class ManagedHeap {
    var objects: Heap
    var statics: map<string, Addr>

    ghost predicate Valid()
      reads this
    {
      Closed(objects) && statics.Values <= objects.Keys
    }

    constructor (objects: Heap, statics: map<string, Addr>)
      requires Closed(objects) && statics.Values <= objects.Keys
      ensures Valid() && this.objects == objects && this.statics == statics
    {
      this.objects := objects;
      this.statics := statics;
    }

    /** Walks a parsed path from a root object, one segment per iteration. */
    method Walk(root: Addr, path: seq<Segment>) returns (r: Result<Target, ModError>)
      requires Valid() && root in objects
      ensures r == Resolve(objects, root, path)
      ensures r.Ok? ==> ValidTarget(objects, r.value)
    {
      var c := AtObject(root);
      var i := 0;
      while i < |path|
        invariant 0 <= i <= |path|
        invariant CursorValid(objects, c)
        invariant ResolveFrom(objects, c, path[i..]) == Resolve(objects, root, path)
      {
        var step := Step(objects, c, path[i]);
        if step.Err? {
          return Err(step.error);
        }
        c := step.value;
        i := i + 1;
      }
      r := Finish(objects, c);
    }

    /**
     * Stores x at the target: the owner's slot receives the copy of its
     * value rebuilt around the new leaf.
     */
    method Store(t: Target, x: Scalar)
      requires Valid() && ValidTarget(objects, t) && KindOf(x) == t.kind
      modifies this
      ensures Valid() && statics == old(statics)
      ensures objects == Assign(old(objects), t, x)
    {
      var o := objects[t.owner];
      var copy := SetPath(SlotValue(o, t.slot).value, t.names, x);
      AssignSameShape(objects, t, x);
      HeapSameShapeClosed(objects, Assign(objects, t, x));
      objects := objects[t.owner := WriteSlot(o, t.slot, copy)];
    }
  }

  /** Applies modifiers against a repository of defs and the process heap. */
  class ModFile {
    const repo: DefRepository
    const heap: ManagedHeap

    constructor (repo: DefRepository, heap: ManagedHeap)
      ensures this.repo == repo && this.heap == heap
    {
      this.repo := repo;
      this.heap := heap;
    }

    /** One edit: parse, walk, coerce, store. On an error nothing changes. */
    method ApplyEdit(root: Addr, field: string, raw: Scalar) returns (r: Outcome<ModError>)
      requires heap.Valid() && root in heap.objects
      modifies heap
      ensures heap.Valid() && heap.statics == old(heap.statics)
      ensures match Applier.ApplyEdit(old(heap.objects), root, field, raw)
              case Ok(h') => r == Pass && heap.objects == h'
              case Err(e) => r == Fail(e) && heap.objects == old(heap.objects)
    {
      var path := ParsePath(field);
      if path.Err? {
        return Fail(path.error);
      }
      var t := heap.Walk(root, path.value);
      if t.Err? {
        return Fail(t.error);
      }
      var x := Coerce(raw, t.value.kind);
      if x.Err? {
        return Fail(x.error);
      }
      heap.Store(t.value, x.value);
      r := Pass;
    }

    /**
     * Applies a modifier: selects the root, then writes the single edit or
     * runs the modlet steps in order, skipping malformed ones and stopping
     * at the first step that fails.
     */
    method ApplyModifier(mod: Applier.ModifierDefinition) returns (r: Outcome<ModError>)
      requires heap.Valid() && repo.defs.Values <= heap.objects.Keys
      modifies heap
      ensures heap.Valid() && heap.statics == old(heap.statics)
      ensures Applier.Applied(heap.objects, r)
           == Applier.ApplyModifier(old(heap.objects), repo.defs, heap.statics, mod)
    {
      var root: Addr;
      match mod.root {
        case ByGuid(guid) =>
          var found := repo.GetDef(guid);
          if found.Err? {
            return Fail(found.error);
          }
          root := found.value;
        case ByClass(name) =>
          if name !in heap.statics {
            return Fail(UnknownClass(name));
          }
          root := heap.statics[name];
      }
      match mod.edit {
        case Single(field, raw) =>
          r := ApplyEdit(root, field, raw);
        case Batch(steps) =>
          var i := 0;
          while i < |steps|
            invariant 0 <= i <= |steps|
            invariant heap.Valid() && heap.statics == old(heap.statics)
            invariant heap.objects.Keys == old(heap.objects).Keys
            invariant Applier.RunSteps(heap.objects, root, steps[i..])
                   == Applier.RunSteps(old(heap.objects), root, steps)
          {
            var s := steps[i];
            if !Applier.Malformed(s) {
              var o := ApplyEdit(root, s.field.value, s.value.value);
              if o.Fail? {
                return o;
              }
            }
            i := i + 1;
          }
          r := Pass;
      }
    }
  }
}
