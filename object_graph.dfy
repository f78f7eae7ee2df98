/**
 * The object graph the engine patches. Reference objects (class instances,
 * arrays, lists, and the holders of a class's static fields) live on a heap
 * under an address and are shared by everyone that holds the address.
 * Structs are values: a field or element of struct type holds its own copy,
 * so a write inside a struct must rebuild every struct around it up to the
 * reference object that owns the slot (the write-back).
 */
module ObjectGraph {
  import opened Wrappers
  import opened Values

  type Addr = nat

  /** What a field, array element or list element holds. */
  datatype Value =
    | Prim(x: Scalar)                        // a primitive leaf: int, double, bool, string
    | Struct(fields: map<string, Value>)     // a value-type container, held by copy
    | Ref(addr: Addr)                        // a reference to a heap object
    | Null                                   // a null reference

  datatype SeqKind = Array | List

  /** A heap object: an instance with named fields, or an array or list of elements. */
  datatype Obj =
    | Instance(fields: map<string, Value>)
    | Indexable(kind: SeqKind, elems: seq<Value>)

  type Heap = map<Addr, Obj>

  // ----- Struct paths and the write-back -----

  /** The value reached from v through the named struct fields, if every step exists. */
  function Lookup(v: Value, names: seq<string>): Option<Value>
  {
    if names == [] then Some(v)
    else if v.Struct? && names[0] in v.fields then Lookup(v.fields[names[0]], names[1..])
    else None
  }

  /** True when names leads from v through structs to a primitive leaf. */
  predicate IsLeafPath(v: Value, names: seq<string>)
  {
    Lookup(v, names).Some? && Lookup(v, names).value.Prim?
  }

  /**
   * Replaces the leaf that names leads to with x and rebuilds every struct
   * on the way, so the copy that is returned is the one to store back.
   */
  function SetPath(v: Value, names: seq<string>, x: Scalar): (r: Value)
    requires Lookup(v, names).Some?
    ensures Lookup(r, names) == Some(Prim(x))
  {
    if names == [] then Prim(x)
    else Struct(v.fields[names[0] := SetPath(v.fields[names[0]], names[1..], x)])
  }

  lemma {:induction false} LookupAppend(v: Value, names: seq<string>, n: string)
    requires Lookup(v, names).Some? && Lookup(v, names).value.Struct?
    requires n in Lookup(v, names).value.fields
    ensures Lookup(v, names + [n]) == Some(Lookup(v, names).value.fields[n])
  {
    if names != [] {
      assert (names + [n])[1..] == names[1..] + [n];
      LookupAppend(v.fields[names[0]], names[1..], n);
    }
  }

  /**
   * The write-back changes nothing but the addressed leaf: every other leaf
   * path of the struct reads the same before and after.
   */
  lemma {:induction false} SetPathFrame(v: Value, names: seq<string>, other: seq<string>, x: Scalar)
    requires IsLeafPath(v, names) && IsLeafPath(v, other) && names != other
    ensures Lookup(SetPath(v, names, x), other) == Lookup(v, other)
  {
    if names != [] && other != [] && names[0] == other[0] {
      SetPathFrame(v.fields[names[0]], names[1..], other[1..], x);
    }
  }

  /** A second write to the same leaf overrides the first: writing x then y is writing y. */
  lemma {:induction false} SetPathOverride(v: Value, names: seq<string>, x: Scalar, y: Scalar)
    requires Lookup(v, names).Some?
    ensures SetPath(SetPath(v, names, x), names, y) == SetPath(v, names, y)
  {
    if names != [] {
      SetPathOverride(v.fields[names[0]], names[1..], x, y);
    }
  }

  /** A leaf path ends at a primitive, so no other leaf path of the same value extends it. */
  lemma {:induction false} LeafPathNotPrefix(v: Value, names: seq<string>, other: seq<string>)
    requires IsLeafPath(v, names) && IsLeafPath(v, other) && names != other
    ensures names != [] && other != []
  {
  }

  /** Writes to two different leaves of a struct commute. */
  lemma {:induction false} SetPathCommute(v: Value, names: seq<string>, x: Scalar, other: seq<string>, y: Scalar)
    requires IsLeafPath(v, names) && IsLeafPath(v, other) && names != other
    ensures Lookup(SetPath(v, names, x), other).Some? && Lookup(SetPath(v, other, y), names).Some?
    ensures SetPath(SetPath(v, names, x), other, y) == SetPath(SetPath(v, other, y), names, x)
  {
    SetPathFrame(v, names, other, x);
    SetPathFrame(v, other, names, y);
    LeafPathNotPrefix(v, names, other);
    var a, b := names[0], other[0];
    if a == b {
      SetPathCommute(v.fields[a], names[1..], x, other[1..], y);
    } else {
      var fs: map<string, Value> := v.fields;
      var va, vb := SetPath(fs[a], names[1..], x), SetPath(fs[b], other[1..], y);
      var fa: map<string, Value> := fs[a := va];
      var fb: map<string, Value> := fs[b := vb];
      assert fa[b := vb] == fb[a := va];
    }
  }

  // ----- No dangling references -----

  predicate RefsIn(v: Value, dom: set<Addr>)
  {
    match v
    case Ref(a) => a in dom
    case Struct(fs) => forall n :: n in fs ==> RefsIn(fs[n], dom)
    case _ => true
  }

  predicate ObjRefsIn(o: Obj, dom: set<Addr>)
  {
    match o
    case Instance(fs) => forall n :: n in fs ==> RefsIn(fs[n], dom)
    case Indexable(_, es) => forall k :: 0 <= k < |es| ==> RefsIn(es[k], dom)
  }

  /** Every reference stored anywhere in the heap points to an object of the heap. */
  predicate Closed(h: Heap)
  {
    forall a :: a in h ==> ObjRefsIn(h[a], h.Keys)
  }

  // ----- Shape: everything but the contents of primitive leaves -----

  /**
   * v and w differ at most in the values of primitive leaves, each leaf
   * keeping its kind: the same structs with the same fields, the same
   * references, the same nulls.
   */
  predicate SameShape(v: Value, w: Value)
  {
    match v
    case Prim(x) => w.Prim? && KindOf(w.x) == KindOf(x)
    case Struct(fs) =>
      w.Struct? && w.fields.Keys == fs.Keys && forall n :: n in fs ==> SameShape(fs[n], w.fields[n])
    case Ref(a) => w == Ref(a)
    case Null => w == Null
  }

  predicate ObjSameShape(o: Obj, p: Obj)
  {
    match o
    case Instance(fs) =>
      p.Instance? && p.fields.Keys == fs.Keys && forall n :: n in fs ==> SameShape(fs[n], p.fields[n])
    case Indexable(k, es) =>
      p.Indexable? && p.kind == k && |p.elems| == |es|
      && forall i :: 0 <= i < |es| ==> SameShape(es[i], p.elems[i])
  }

  predicate HeapSameShape(h: Heap, g: Heap)
  {
    h.Keys == g.Keys && forall a :: a in h ==> ObjSameShape(h[a], g[a])
  }

  lemma {:induction false} SameShapeRefl(v: Value)
    ensures SameShape(v, v)
  {
    match v
    case Struct(fs) =>
      forall n | n in fs ensures SameShape(fs[n], fs[n]) {
        SameShapeRefl(fs[n]);
      }
    case _ =>
  }

  lemma ObjSameShapeRefl(o: Obj)
    ensures ObjSameShape(o, o)
  {
    match o
    case Instance(fs) =>
      forall n | n in fs ensures SameShape(fs[n], fs[n]) {
        SameShapeRefl(fs[n]);
      }
    case Indexable(_, es) =>
      forall i | 0 <= i < |es| ensures SameShape(es[i], es[i]) {
        SameShapeRefl(es[i]);
      }
  }

  lemma HeapSameShapeRefl(h: Heap)
    ensures HeapSameShape(h, h)
  {
    forall a | a in h ensures ObjSameShape(h[a], h[a]) {
      ObjSameShapeRefl(h[a]);
    }
  }

  lemma {:induction false} SameShapeTrans(u: Value, v: Value, w: Value)
    requires SameShape(u, v) && SameShape(v, w)
    ensures SameShape(u, w)
  {
    match u
    case Struct(fs) =>
      forall n | n in fs ensures SameShape(fs[n], w.fields[n]) {
        SameShapeTrans(fs[n], v.fields[n], w.fields[n]);
      }
    case _ =>
  }

  lemma ObjSameShapeTrans(o: Obj, p: Obj, q: Obj)
    requires ObjSameShape(o, p) && ObjSameShape(p, q)
    ensures ObjSameShape(o, q)
  {
    match o
    case Instance(fs) =>
      forall n | n in fs ensures SameShape(fs[n], q.fields[n]) {
        SameShapeTrans(fs[n], p.fields[n], q.fields[n]);
      }
    case Indexable(_, es) =>
      forall i | 0 <= i < |es| ensures SameShape(es[i], q.elems[i]) {
        SameShapeTrans(es[i], p.elems[i], q.elems[i]);
      }
  }

  /** Keeping the shape is transitive: a second round of leaf writes still keeps the first heap's shape. */
  lemma HeapSameShapeTrans(h: Heap, g: Heap, f: Heap)
    requires HeapSameShape(h, g) && HeapSameShape(g, f)
    ensures HeapSameShape(h, f)
  {
    forall a | a in h ensures ObjSameShape(h[a], f[a]) {
      ObjSameShapeTrans(h[a], g[a], f[a]);
    }
  }

  /** Struct paths lead through values of the same shape alike, to values of the same shape. */
  lemma {:induction false} LookupSameShape(v: Value, w: Value, names: seq<string>)
    requires SameShape(v, w)
    ensures Lookup(v, names).Some? <==> Lookup(w, names).Some?
    ensures Lookup(v, names).Some? ==> SameShape(Lookup(v, names).value, Lookup(w, names).value)
  {
    if names != [] && v.Struct? && names[0] in v.fields {
      LookupSameShape(v.fields[names[0]], w.fields[names[0]], names[1..]);
    }
  }

  /** A leaf write that keeps the leaf's kind keeps the shape of the value. */
  lemma {:induction false} SetPathSameShape(v: Value, names: seq<string>, x: Scalar)
    requires IsLeafPath(v, names) && KindOf(Lookup(v, names).value.x) == KindOf(x)
    ensures SameShape(v, SetPath(v, names, x))
  {
    if names != [] {
      var fs := v.fields;
      var w := SetPath(v, names, x);
      SetPathSameShape(fs[names[0]], names[1..], x);
      forall n | n in fs ensures SameShape(fs[n], w.fields[n]) {
        if n != names[0] {
          SameShapeRefl(fs[n]);
        }
      }
    }
  }

  /** Values of the same shape hold the same references. */
  lemma {:induction false} SameShapeRefsIn(v: Value, w: Value, dom: set<Addr>)
    requires SameShape(v, w) && RefsIn(v, dom)
    ensures RefsIn(w, dom)
  {
    match v
    case Struct(fs) =>
      forall n | n in w.fields ensures RefsIn(w.fields[n], dom) {
        SameShapeRefsIn(fs[n], w.fields[n], dom);
      }
    case _ =>
  }

  /** A heap of the same shape as a closed heap is closed. */
  lemma HeapSameShapeClosed(h: Heap, g: Heap)
    requires HeapSameShape(h, g) && Closed(h)
    ensures Closed(g)
  {
    forall a | a in g ensures ObjRefsIn(g[a], g.Keys) {
      match h[a]
      case Instance(fs) =>
        forall n | n in g[a].fields ensures RefsIn(g[a].fields[n], g.Keys) {
          SameShapeRefsIn(fs[n], g[a].fields[n], h.Keys);
        }
      case Indexable(_, es) =>
        forall i | 0 <= i < |g[a].elems| ensures RefsIn(g[a].elems[i], g.Keys) {
          SameShapeRefsIn(es[i], g[a].elems[i], h.Keys);
        }
    }
  }
}
