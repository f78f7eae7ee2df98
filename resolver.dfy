/**
 * The object resolver. Starting at a root object it consumes the path one
 * segment at a time. A step into a reference object moves the walk to that
 * object; a step into a struct stays inside the slot that holds the struct
 * and records the field name, because a write there has to be written back
 * into that slot. The walk ends at a Target: the nearest reference object
 * that owns the slot, the slot, the struct fields below it, and the kind of
 * the primitive leaf at the end.
 */
module Resolver {
  import opened Wrappers
  import opened Errors
  import opened Values
  import opened FieldPath
  import opened ObjectGraph

  /** A slot of a reference object: a named field, or an array or list element. */
  datatype Slot = Field(name: string) | Element(index: nat)

  /** A resolved leaf, ready to be written. */
  datatype Target = Target(owner: Addr, slot: Slot, names: seq<string>, kind: Kind)

  /** Where the walk stands between two segments. */
  datatype Cursor =
    | AtObject(addr: Addr)                                        // at a reference object
    | InSlot(owner: Addr, slot: Slot, names: seq<string>, v: Value) // inside a slot, below structs

  function SlotValue(o: Obj, s: Slot): Option<Value>
  {
    match s
    case Field(n) => if o.Instance? && n in o.fields then Some(o.fields[n]) else None
    case Element(i) => if o.Indexable? && i < |o.elems| then Some(o.elems[i]) else None
  }

  /** The cursor describes a real place of the heap. */
  predicate CursorValid(h: Heap, c: Cursor)
  {
    match c
    case AtObject(a) => a in h
    case InSlot(o, s, names, v) =>
      o in h && SlotValue(h[o], s).Some? && Lookup(SlotValue(h[o], s).value, names) == Some(v)
      && !v.Ref? && RefsIn(v, h.Keys)
  }

  /** The target names a primitive leaf of the heap whose kind it records. */
  predicate ValidTarget(h: Heap, t: Target)
  {
    t.owner in h && SlotValue(h[t.owner], t.slot).Some?
    && IsLeafPath(SlotValue(h[t.owner], t.slot).value, t.names)
    && KindOf(Lookup(SlotValue(h[t.owner], t.slot).value, t.names).value.x) == t.kind
  }

  // ----- The reference reader -----

  /**
   * What one segment reaches from a value, read directly off the object
   * graph: a member of an instance or of a struct, or an element of an
   * array or list below its length. Anything else reaches nothing.
   */
  function Child(h: Heap, v: Value, g: Segment): Option<Value>
  {
    match v
    case Ref(a) =>
      if a !in h then None
      else (match g
        case Member(n) => if h[a].Instance? && n in h[a].fields then Some(h[a].fields[n]) else None
        case Index(i) => if h[a].Indexable? && i < |h[a].elems| then Some(h[a].elems[i]) else None)
    case Struct(fs) => if g.Member? && g.name in fs then Some(fs[g.name]) else None
    case _ => None
  }

  /** The value a path reaches from v, following references and struct fields alike. */
  function ValueAt(h: Heap, v: Value, p: seq<Segment>): Option<Value>
    decreases |p|
  {
    if p == [] then Some(v)
    else match Child(h, v, p[0])
      case None => None
      case Some(w) => ValueAt(h, w, p[1..])
  }

  /** The value the walk stands on: the object it is at, or the value inside the slot. */
  function CursorValue(c: Cursor): Value
  {
    if c.AtObject? then Ref(c.addr) else c.v
  }

  // ----- The walk -----

  /** A reference moves the walk to its object; any other value is stepped into in place. */
  function Enter(owner: Addr, slot: Slot, names: seq<string>, v: Value): Cursor
  {
    if v.Ref? then AtObject(v.addr) else InSlot(owner, slot, names, v)
  }

  /**
   * Consumes one segment. A member must be a field of an instance or of a
   * struct; an index needs an array or list and must be below its length.
   */
  function Step(h: Heap, c: Cursor, g: Segment): (r: Result<Cursor, ModError>)
    requires Closed(h) && CursorValid(h, c)
    ensures r.Ok? ==> CursorValid(h, r.value)
    ensures r.Err? ==> r.error == TargetResolution || r.error.IndexOutOfRange?
    ensures r.Err? && !(c.AtObject? && g.Index? && h[c.addr].Indexable?) ==> r.error == TargetResolution
    ensures c.AtObject? && g.Index? && !h[c.addr].Indexable? ==> r == Err(TargetResolution)
    ensures c.AtObject? && g.Index? && h[c.addr].Indexable? ==>
      (r.Ok? <==> g.i < |h[c.addr].elems|)
      && (r.Err? ==> r.error == IndexOutOfRange(g.i, |h[c.addr].elems|))
    ensures c.AtObject? && g.Member? ==> (r.Ok? <==> h[c.addr].Instance? && g.name in h[c.addr].fields)
    ensures c.InSlot? ==> (r.Ok? <==> c.v.Struct? && g.Member? && g.name in c.v.fields)
    ensures r.Ok? <==> Child(h, CursorValue(c), g).Some?
    ensures r.Ok? ==> CursorValue(r.value) == Child(h, CursorValue(c), g).value
    ensures r.Ok? && r.value.InSlot? && c.AtObject? ==>
      r.value.owner == c.addr && r.value.names == []
      && r.value.slot == (if g.Member? then Field(g.name) else Element(g.i))
    ensures r.Ok? && r.value.InSlot? && c.InSlot? ==>
      r.value.owner == c.owner && r.value.slot == c.slot && r.value.names == c.names + [g.name]
  {
    match c
    case AtObject(a) =>
      var o := h[a];
      assert ObjRefsIn(o, h.Keys);
      (match g
       case Member(n) =>
         if o.Instance? && n in o.fields then Ok(Enter(a, Field(n), [], o.fields[n]))
         else Err(TargetResolution)
       case Index(i) =>
         if !o.Indexable? then Err(TargetResolution)
         else if i < |o.elems| then Ok(Enter(a, Element(i), [], o.elems[i]))
         else Err(IndexOutOfRange(i, |o.elems|)))
    case InSlot(owner, slot, names, v) =>
      if v.Struct? && g.Member? && g.name in v.fields then
        LookupAppend(SlotValue(h[owner], slot).value, names, g.name);
        assert RefsIn(v.fields[g.name], h.Keys);
        Ok(Enter(owner, slot, names + [g.name], v.fields[g.name]))
      else Err(TargetResolution)
  }

  /** After the last segment the walk must stand on a primitive leaf. */
  function Finish(h: Heap, c: Cursor): (r: Result<Target, ModError>)
    requires CursorValid(h, c)
    ensures r.Ok? <==> c.InSlot? && c.v.Prim?
    ensures r.Ok? ==> ValidTarget(h, r.value)
    ensures r.Err? ==> r.error == TargetResolution
  {
    match c
    case InSlot(owner, slot, names, v) =>
      if v.Prim? then Ok(Target(owner, slot, names, KindOf(v.x))) else Err(TargetResolution)
    case AtObject(_) => Err(TargetResolution)
  }

  function ResolveFrom(h: Heap, c: Cursor, rest: seq<Segment>): (r: Result<Target, ModError>)
    requires Closed(h) && CursorValid(h, c)
    ensures r.Ok? ==> ValidTarget(h, r.value)
    ensures r.Err? ==> r.error == TargetResolution || r.error.IndexOutOfRange?
    ensures r.Ok? <==> ValueAt(h, CursorValue(c), rest).Some? && ValueAt(h, CursorValue(c), rest).value.Prim?
    ensures r.Ok? ==> ValueAt(h, CursorValue(c), rest) == Some(Prim(Read(h, r.value)))
    decreases |rest|
  {
    if rest == [] then Finish(h, c)
    else
      match Step(h, c, rest[0])
      case Err(e) => Err(e)
      case Ok(c') => ResolveFrom(h, c', rest[1..])
  }

  /** Resolves a parsed path from a root object to the leaf it addresses. */
  function Resolve(h: Heap, root: Addr, path: seq<Segment>): (r: Result<Target, ModError>)
    requires Closed(h) && root in h
    ensures r.Ok? ==> ValidTarget(h, r.value)
    ensures r.Err? ==> r.error == TargetResolution || r.error.IndexOutOfRange?
    ensures r.Ok? <==> ValueAt(h, Ref(root), path).Some? && ValueAt(h, Ref(root), path).value.Prim?
    ensures r.Ok? ==> ValueAt(h, Ref(root), path) == Some(Prim(Read(h, r.value)))
  {
    ResolveFrom(h, AtObject(root), path)
  }

  /** The scalar stored at a target. */
  function Read(h: Heap, t: Target): Scalar
    requires ValidTarget(h, t)
  {
    Lookup(SlotValue(h[t.owner], t.slot).value, t.names).value.x
  }

  function WriteSlot(o: Obj, s: Slot, v: Value): (p: Obj)
    requires SlotValue(o, s).Some?
    ensures SlotValue(p, s) == Some(v)
    ensures forall s' :: s' != s ==> SlotValue(p, s') == SlotValue(o, s')
  {
    match s
    case Field(n) => Instance(o.fields[n := v])
    case Element(i) => Indexable(o.kind, o.elems[i := v])
  }

  /**
   * Writes x at the target: the leaf is replaced, the structs around it are
   * rebuilt, and the rebuilt copy is stored back into the owner's slot. No
   * other object changes, and no other slot of the owner.
   */
  function Assign(h: Heap, t: Target, x: Scalar): (h': Heap)
    requires ValidTarget(h, t)
    ensures h'.Keys == h.Keys
    ensures forall a :: a in h && a != t.owner ==> h'[a] == h[a]
    ensures forall s :: s != t.slot ==> SlotValue(h'[t.owner], s) == SlotValue(h[t.owner], s)
    ensures SlotValue(h'[t.owner], t.slot).Some?
    ensures Lookup(SlotValue(h'[t.owner], t.slot).value, t.names) == Some(Prim(x))
  {
    var o := h[t.owner];
    h[t.owner := WriteSlot(o, t.slot, SetPath(SlotValue(o, t.slot).value, t.names, x))]
  }

  // ----- Properties of the write -----

  /** Two targets address the same leaf. */
  predicate SameLeaf(t: Target, u: Target)
  {
    t.owner == u.owner && t.slot == u.slot && t.names == u.names
  }

  /** A write of the leaf's own kind keeps the heap's shape. */
  lemma AssignSameShape(h: Heap, t: Target, x: Scalar)
    requires ValidTarget(h, t) && KindOf(x) == t.kind
    ensures HeapSameShape(h, Assign(h, t, x))
  {
    var h' := Assign(h, t, x);
    forall a | a in h ensures ObjSameShape(h[a], h'[a]) {
      if a != t.owner {
        ObjSameShapeRefl(h[a]);
      } else {
        var o := h[a];
        var v := SlotValue(o, t.slot).value;
        SetPathSameShape(v, t.names, x);
        match o
        case Instance(fs) =>
          forall n | n in fs ensures SameShape(fs[n], h'[a].fields[n]) {
            if Field(n) != t.slot {
              assert SlotValue(h'[a], Field(n)) == SlotValue(o, Field(n));
              SameShapeRefl(fs[n]);
            }
          }
        case Indexable(_, es) =>
          forall i | 0 <= i < |es| ensures SameShape(es[i], h'[a].elems[i]) {
            if Element(i) != t.slot {
              assert SlotValue(h'[a], Element(i)) == SlotValue(o, Element(i));
              SameShapeRefl(es[i]);
            }
          }
      }
    }
  }

  /** After the write the target reads back exactly the written scalar. */
  lemma AssignReadBack(h: Heap, t: Target, x: Scalar)
    requires ValidTarget(h, t) && KindOf(x) == t.kind
    ensures ValidTarget(Assign(h, t, x), t) && Read(Assign(h, t, x), t) == x
  {
  }

  /** Every other leaf reads the same before and after the write. */
  lemma AssignFrame(h: Heap, t: Target, x: Scalar, u: Target)
    requires ValidTarget(h, t) && ValidTarget(h, u) && !SameLeaf(t, u)
    ensures ValidTarget(Assign(h, t, x), u) && Read(Assign(h, t, x), u) == Read(h, u)
  {
    if u.owner == t.owner && u.slot == t.slot {
      SetPathFrame(SlotValue(h[t.owner], t.slot).value, t.names, u.names, x);
    }
  }

  /**
   * A second write to the same leaf overrides the first: writing x at t and
   * then y at u, the same leaf, is writing y at u.
   */
  lemma AssignOverride(h: Heap, t: Target, x: Scalar, u: Target, y: Scalar)
    requires ValidTarget(h, t) && KindOf(x) == t.kind && ValidTarget(h, u) && SameLeaf(t, u)
    ensures ValidTarget(Assign(h, t, x), u)
    ensures Assign(Assign(h, t, x), u, y) == Assign(h, u, y)
  {
    var h1 := Assign(h, t, x);
    var v := SlotValue(h[t.owner], t.slot).value;
    SetPathOverride(v, t.names, x, y);
    assert SlotValue(h1[t.owner], t.slot).value == SetPath(v, t.names, x);
    var o1 := WriteSlot(h1[t.owner], t.slot, SetPath(SetPath(v, t.names, x), t.names, y));
    assert o1 == WriteSlot(h[t.owner], t.slot, SetPath(v, t.names, y)) by {
      match t.slot
      case Field(n) =>
      case Element(i) =>
        assert h1[t.owner].elems[i := SetPath(v, t.names, y)] == h[t.owner].elems[i := SetPath(v, t.names, y)];
    }
  }

  /** Writes to two different leaves commute. */
  lemma AssignCommute(h: Heap, t: Target, x: Scalar, u: Target, y: Scalar)
    requires ValidTarget(h, t) && ValidTarget(h, u) && !SameLeaf(t, u)
    ensures ValidTarget(Assign(h, t, x), u) && ValidTarget(Assign(h, u, y), t)
    ensures Assign(Assign(h, t, x), u, y) == Assign(Assign(h, u, y), t, x)
  {
    AssignFrame(h, t, x, u);
    AssignFrame(h, u, y, t);
    if t.owner == u.owner {
      var o := h[t.owner];
      if t.slot == u.slot {
        var v := SlotValue(o, t.slot).value;
        SetPathCommute(v, t.names, x, u.names, y);
        assert SlotValue(Assign(h, t, x)[t.owner], t.slot).value == SetPath(v, t.names, x);
        assert SlotValue(Assign(h, u, y)[t.owner], t.slot).value == SetPath(v, u.names, y);
        var w := SetPath(SetPath(v, t.names, x), u.names, y);
        SlotOverride(o, t.slot, SetPath(v, t.names, x), w);
        SlotOverride(o, t.slot, SetPath(v, u.names, y), w);
      } else {
        var vt := SetPath(SlotValue(o, t.slot).value, t.names, x);
        var vu := SetPath(SlotValue(o, u.slot).value, u.names, y);
        SlotsCommute(o, t.slot, vt, u.slot, vu);
      }
    }
  }

  /** A second store into a slot overrides the first. */
  lemma SlotOverride(o: Obj, s: Slot, v: Value, w: Value)
    requires SlotValue(o, s).Some?
    ensures WriteSlot(WriteSlot(o, s, v), s, w) == WriteSlot(o, s, w)
  {
    match s
    case Field(n) =>
    case Element(i) =>
      assert o.elems[i := v][i := w] == o.elems[i := w];
  }

  /** Stores into two different slots of an object commute. */
  lemma SlotsCommute(o: Obj, s: Slot, v: Value, s2: Slot, v2: Value)
    requires SlotValue(o, s).Some? && SlotValue(o, s2).Some? && s != s2
    ensures WriteSlot(WriteSlot(o, s, v), s2, v2) == WriteSlot(WriteSlot(o, s2, v2), s, v)
  {
    match s
    case Field(n) =>
    case Element(i) =>
      assert o.elems[i := v][s2.index := v2] == o.elems[s2.index := v2][i := v];
  }

  /** Targets stay valid in every heap of the same shape. */
  lemma ValidTargetSameShape(h: Heap, g: Heap, t: Target)
    requires HeapSameShape(h, g) && ValidTarget(h, t)
    ensures ValidTarget(g, t)
  {
    var o, p := h[t.owner], g[t.owner];
    assert ObjSameShape(o, p);
    var v := SlotValue(o, t.slot).value;
    assert SlotValue(p, t.slot).Some? && SameShape(v, SlotValue(p, t.slot).value) by {
      match t.slot
      case Field(n) =>
      case Element(i) =>
    }
    LookupSameShape(v, SlotValue(p, t.slot).value, t.names);
  }

  // ----- Resolution depends only on the shape of the heap -----

  predicate CursorSameShape(c: Cursor, d: Cursor)
  {
    match c
    case AtObject(a) => d == AtObject(a)
    case InSlot(o, s, names, v) =>
      d.InSlot? && d.owner == o && d.slot == s && d.names == names && SameShape(v, d.v)
  }

  lemma StepSameShape(h: Heap, g: Heap, c: Cursor, d: Cursor, seg: Segment)
    requires Closed(h) && Closed(g) && HeapSameShape(h, g)
    requires CursorValid(h, c) && CursorValid(g, d) && CursorSameShape(c, d)
    ensures Step(h, c, seg).Err? == Step(g, d, seg).Err?
    ensures Step(h, c, seg).Err? ==> Step(h, c, seg).error == Step(g, d, seg).error
    ensures Step(h, c, seg).Ok? ==> CursorSameShape(Step(h, c, seg).value, Step(g, d, seg).value)
  {
    match c
    case AtObject(a) =>
      assert ObjSameShape(h[a], g[a]);
    case InSlot(o, s, names, v) =>
      if v.Struct? && seg.Member? && seg.name in v.fields {
        assert SameShape(v.fields[seg.name], d.v.fields[seg.name]);
      }
  }

  lemma {:induction false} ResolveFromSameShape(h: Heap, g: Heap, c: Cursor, d: Cursor, rest: seq<Segment>)
    requires Closed(h) && Closed(g) && HeapSameShape(h, g)
    requires CursorValid(h, c) && CursorValid(g, d) && CursorSameShape(c, d)
    ensures ResolveFrom(h, c, rest) == ResolveFrom(g, d, rest)
    decreases |rest|
  {
    if rest != [] {
      StepSameShape(h, g, c, d, rest[0]);
      var r1 := Step(h, c, rest[0]);
      var r2 := Step(g, d, rest[0]);
      if r1.Ok? {
        ResolveFromSameShape(h, g, r1.value, r2.value, rest[1..]);
      }
    }
  }

  /**
   * Resolution looks only at the shape of the heap, never at leaf contents:
   * a heap whose leaves were overwritten resolves every path to the same target.
   */
  lemma ResolveSameShape(h: Heap, g: Heap, root: Addr, path: seq<Segment>)
    requires Closed(h) && HeapSameShape(h, g) && root in h
    ensures Closed(g) && Resolve(h, root, path) == Resolve(g, root, path)
  {
    HeapSameShapeClosed(h, g);
    ResolveFromSameShape(h, g, AtObject(root), AtObject(root), path);
  }
}
