/**
 * The symbol-table helpers of the semantic analysis that lowering relies on:
 * frames of variables (most recent first) with a byte layout, the chain of
 * enclosing frames, type equality, array types built one dimension at a time,
 * and the global list of struct definitions.
 */
module Semantics {
  import opened Base

  /* ------------------------------------------------------------------ */
  /* Types                                                               */
  /* ------------------------------------------------------------------ */

  /** A struct definition; types refer to it by identity. Anonymous structs have no name. */
  class StructDef {
    const name: Option<string>
    const fields: Frame

    constructor (name: Option<string>, fields: Frame)
      ensures this.name == name && this.fields == fields
    {
      this.name := name;
      this.fields := fields;
    }
  }

  /**
   * A type with its size in bytes. An array type records its own size (all of its
   * dimensions), its length and its element type; a struct type points at its
   * definition; a reference is four bytes wide.
   */
  datatype Type =
    | Int
    | Float
    | Array(size: int, num: int, elem: Type)
    | Struct(size: int, def: StructDef)
    | Func(size: int, ret: Type)
    | Ref(size: int, ref: Type)
    | Error

  /** The size field of a type: 4 for `INT` and `FLOAT`, 0 for `ERROR`. */
  function Size(t: Type): int
  {
    match t
    case Int => 4
    case Float => 4
    case Error => 0
    case Array(size, _, _) => size
    case Struct(size, _) => size
    case Func(size, _) => size
    case Ref(size, _) => size
  }

  /** The type kind, numbered as in the `typeid` enumeration. */
  function Kind(t: Type): (k: nat)
    ensures k <= 6
  {
    match t
    case Int => 0
    case Float => 1
    case Array(_, _, _) => 2
    case Struct(_, _) => 3
    case Func(_, _) => 4
    case Ref(_, _) => 5
    case Error => 6
  }

  /** The pairs `is_same_type` can compare without reaching its failing default case
      (two references at the same depth). */
  predicate Comparable(t1: Type, t2: Type)
  {
    t1.Error? || t2.Error? || Kind(t1) != Kind(t2) ||
    (!t1.Ref? && (t1.Array? ==> Comparable(t1.elem, t2.elem)))
  }

  /**
   * `is_same_type`: 2 if either side is the error type, 0 if the kinds differ, 1
   * for two ints or two floats; arrays compare their element types whatever their
   * lengths, structs compare by identity of the definition, and two function types
   * are never the same.
   */
  function SameType(t1: Type, t2: Type): (r: nat)
    requires Comparable(t1, t2)
    ensures r <= 2
    ensures (t1.Error? || t2.Error?) ==> r == 2
    ensures !t1.Error? && !t2.Error? && Kind(t1) != Kind(t2) ==> r == 0
    ensures t1.Struct? && t2.Struct? ==> (r == 1 <==> t1.def == t2.def)
  {
    if t1.Error? || t2.Error? then 2
    else if Kind(t1) != Kind(t2) then 0
    else match t1
      case Int => 1
      case Float => 1
      case Array(_, _, e1) => SameType(e1, t2.elem)
      case Struct(_, d1) => if d1 == t2.def then 1 else 0
      case Func(_, _) => 0
  }

  /** A type with every array length and every size dropped. */
  datatype Shape = SInt | SFloat | SArray(elem: Shape) | SStruct(def: StructDef) | SFunc | SRef | SError

  function ShapeOf(t: Type): Shape
  {
    match t
    case Int => SInt
    case Float => SFloat
    case Array(_, _, e) => SArray(ShapeOf(e))
    case Struct(_, d) => SStruct(d)
    case Func(_, _) => SFunc
    case Ref(_, _) => SRef
    case Error => SError
  }

  /** The innermost element type, under every array level. */
  function Innermost(t: Type): (b: Type)
    ensures !b.Array?
  {
    if t.Array? then Innermost(t.elem) else t
  }

  /** The type contains no error type along its array levels. */
  predicate Sound(t: Type)
  {
    !t.Error? && (t.Array? ==> Sound(t.elem))
  }

  /**
   * On types without errors, `is_same_type` answers 1 exactly when the two types have
   * the same shape (lengths and sizes ignored, struct definitions by identity) and
   * that shape does not end in a function type, and 0 otherwise.
   */
  lemma {:induction false} SameTypeIsSameShape(t1: Type, t2: Type)
    requires Sound(t1) && Sound(t2) && Comparable(t1, t2)
    ensures SameType(t1, t2) == 1 <==> ShapeOf(t1) == ShapeOf(t2) && !Innermost(t1).Func?
    ensures SameType(t1, t2) != 1 ==> SameType(t1, t2) == 0
  {
    if t1.Array? && t2.Array? {
      SameTypeIsSameShape(t1.elem, t2.elem);
    }
  }

  /** `is_same_type` does not depend on the order of its arguments. */
  lemma {:induction false} SameTypeSymmetric(t1: Type, t2: Type)
    requires Comparable(t1, t2)
    ensures Comparable(t2, t1) && SameType(t1, t2) == SameType(t2, t1)
  {
    if !t1.Error? && !t2.Error? && t1.Array? && t2.Array? {
      SameTypeSymmetric(t1.elem, t2.elem);
    }
  }

  /* ------------------------------------------------------------------ */
  /* Array types                                                         */
  /* ------------------------------------------------------------------ */

  /** The lengths of the array levels, outermost first. */
  function Dims(t: Type): seq<int>
  {
    if t.Array? then [t.num] + Dims(t.elem) else []
  }

  /** Every array level's size is its length times its element's size. */
  predicate Sized(t: Type)
  {
    t.Array? ==> t.size == t.num * Size(t.elem) && Sized(t.elem)
  }

  /**
   * The type `add_array` leaves: each existing array level's size multiplied by num,
   * and a new innermost level of length num over the old element type.
   */
  function WithDim(t: Type, num: int): (r: Type)
    ensures r.Array? && Innermost(r) == Innermost(t)
    ensures Dims(r) == Dims(t) + [num]
  {
    if t.Array? then Array(t.size * num, t.num, WithDim(t.elem, num))
    else Array(Size(t) * num, num, t)
  }

  /** A declarator `x[n]` keeps the sizes consistent: the whole array grows n times. */
  lemma {:induction false} WithDimSized(t: Type, num: int)
    requires Sized(t)
    ensures Sized(WithDim(t, num)) && Size(WithDim(t, num)) == Size(t) * num
  {
    if t.Array? {
      WithDimSized(t.elem, num);
      assert Size(WithDim(t.elem, num)) == Size(t.elem) * num;
      calc {
        t.size * num;
        t.num * Size(t.elem) * num;
        t.num * (Size(t.elem) * num);
      }
    }
  }

  /* ------------------------------------------------------------------ */
  /* Variables and frames                                                */
  /* ------------------------------------------------------------------ */

  /** A variable: its name, its type and its byte offset in its frame. */
  class Var {
    const name: string
    var ty: Type
    var offset: int

    constructor (name: string, ty: Type)
      ensures this.name == name && this.ty == ty
    {
      this.name := name;
      this.ty := ty;
      offset := 0;
    }
  }

  /** A scope: its variables, most recently added first, its enclosing scope and its size. */
  class Frame {
    var vars: seq<Var>
    const parent: Frame?
    var size: int

    constructor (parent: Frame?)
      ensures vars == [] && this.parent == parent && size == 0
    {
      vars := [];
      this.parent := parent;
      size := 0;
    }
  }

  /** The total size of some variables. */
  function SizeOf(vs: seq<Var>): int
    reads set v | v in vs
  {
    if vs == [] then 0 else Size(vs[0].ty) + SizeOf(vs[1..])
  }

  /** The frame's layout: each variable sits right after the ones added before it, and
      the frame's size covers them all. */
  ghost predicate Laid(f: Frame)
    reads f, set v | v in f.vars
  {
    f.size == SizeOf(f.vars) &&
    forall i | 0 <= i < |f.vars| :: f.vars[i].offset == SizeOf(f.vars[i + 1..])
  }

  /** `add_var`: the variable goes in front, at the frame's old size, which grows by
      the variable's size. */
  method AddVar(f: Frame, v: Var)
    modifies f, v
    ensures f.vars == [v] + old(f.vars) && v.offset == old(f.size)
    ensures f.size == old(f.size) + Size(v.ty) && v.ty == old(v.ty)
    ensures old(Laid(f)) && v !in old(f.vars) ==> Laid(f)
  {
    ghost var laid := Laid(f);
    f.vars := [v] + f.vars;
    v.offset := f.size;
    f.size := f.size + Size(v.ty);
    if laid && v !in old(f.vars) {
      assert f.vars[1..] == old(f.vars);
      forall i | 0 <= i < |f.vars|
        ensures f.vars[i].offset == SizeOf(f.vars[i + 1..])
      {
        if i > 0 {
          assert f.vars[i + 1..] == old(f.vars)[i..];
        }
      }
    }
  }

  /** The position of the most recently added variable of that name. */
  function FindVar(vs: seq<Var>, name: string): (r: Option<nat>)
    ensures r.Some? ==> (r.value < |vs| && vs[r.value].name == name &&
      forall j | 0 <= j < r.value :: vs[j].name != name)
    ensures r.None? ==> forall j | 0 <= j < |vs| :: vs[j].name != name
  {
    if vs == [] then None
    else if vs[0].name == name then Some(0)
    else match FindVar(vs[1..], name)
      case None => None
      case Some(j) => Some(j + 1)
  }

  /** `lookup_var`: the most recently added variable of that name in this frame only. */
  method LookupVar(f: Frame, name: string) returns (r: Var?)
    ensures r == (match FindVar(f.vars, name) case Some(i) => f.vars[i] case None => null)
  {
    var i := 0;
    while i < |f.vars|
      invariant i <= |f.vars|
      invariant forall j | 0 <= j < i :: f.vars[j].name != name
    {
      if f.vars[i].name == name {
        return f.vars[i];
      }
      i := i + 1;
    }
    return null;
  }

  /** A variable added to a frame shadows every earlier one of its name and hides
      nothing else. */
  lemma AddedVarShadows(vs: seq<Var>, v: Var, name: string)
    ensures FindVar([v] + vs, name) ==
      (if v.name == name then Some(0) else match FindVar(vs, name) case None => None case Some(j) => Some(j + 1))
  {
    assert ([v] + vs)[1..] == vs;
  }

  /** The frames from f outward, each the parent of the one before. */
  predicate ChainOf(f: Frame, chain: seq<Frame>)
  {
    |chain| > 0 && chain[0] == f && chain[|chain| - 1].parent == null &&
    forall i | 0 <= i < |chain| - 1 :: chain[i].parent == chain[i + 1]
  }

  /** The innermost frame of the chain holding that name, and the variable's position
      in it. */
  function FindDeep(chain: seq<Frame>, name: string): (r: Option<(nat, nat)>)
    reads set f | f in chain
    ensures r.Some? ==> (r.value.0 < |chain| && FindVar(chain[r.value.0].vars, name) == Some(r.value.1) &&
      forall k | 0 <= k < r.value.0 :: FindVar(chain[k].vars, name).None?)
    ensures r.None? ==> forall k | 0 <= k < |chain| :: FindVar(chain[k].vars, name).None?
  {
    if chain == [] then None
    else match FindVar(chain[0].vars, name)
      case Some(j) => Some((0, j))
      case None =>
        match FindDeep(chain[1..], name)
        case None => None
        case Some(p) => Some((p.0 + 1, p.1))
  }

  /** `lookup_var_deep`: the frame first, then its parents outward; the first match wins. */
  method LookupVarDeep(f: Frame, name: string, ghost chain: seq<Frame>) returns (r: Var?)
    requires ChainOf(f, chain)
    ensures r == (match FindDeep(chain, name) case Some(p) => chain[p.0].vars[p.1] case None => null)
  {
    var g: Frame? := f;
    ghost var k := 0;
    while g != null
      invariant k <= |chain| && (k < |chain| ==> g == chain[k]) && (k == |chain| ==> g == null)
      invariant forall m | 0 <= m < k :: FindVar(chain[m].vars, name).None?
      decreases |chain| - k
    {
      var v := LookupVar(g, name);
      if v != null {
        FindDeepFrom(chain, name, k);
        return v;
      }
      g := g.parent;
      k := k + 1;
    }
    r := null;
  }

  /** When the frames before k hold no such name and frame k does, the search stops at k. */
  lemma {:induction false} FindDeepFrom(chain: seq<Frame>, name: string, k: nat)
    requires k < |chain| && FindVar(chain[k].vars, name).Some?
    requires forall m | 0 <= m < k :: FindVar(chain[m].vars, name).None?
    ensures FindDeep(chain, name) == Some((k, FindVar(chain[k].vars, name).value))
  {
    if k > 0 {
      FindDeepFrom(chain[1..], name, k - 1);
    }
  }

  /* ------------------------------------------------------------------ */
  /* Structs                                                             */
  /* ------------------------------------------------------------------ */

  /** The global list of struct definitions, most recently added first. */
  class StructTable {
    var structs: seq<StructDef>

    constructor ()
      ensures structs == []
    {
      structs := [];
    }

    /** `add_struct`: the definition goes in front. */
    method AddStruct(s: StructDef)
      modifies this
      ensures structs == [s] + old(structs)
    {
      structs := [s] + structs;
    }

    /** `lookup_struct`: the most recently added named struct of that name. */
    method LookupStruct(name: string) returns (r: StructDef?)
      ensures r == (match FindStruct(structs, name) case Some(i) => structs[i] case None => null)
    {
      var i := 0;
      while i < |structs|
        invariant i <= |structs|
        invariant forall j | 0 <= j < i :: structs[j].name != Some(name)
      {
        if structs[i].name.Some? && structs[i].name.value == name {
          return structs[i];
        }
        i := i + 1;
      }
      return null;
    }

    /** `is_name_dup`: a struct or a variable of this frame already has the name. */
    method IsNameDup(f: Frame, name: string) returns (dup: bool)
      ensures dup <==> FindStruct(structs, name).Some? || exists v | v in f.vars :: v.name == name
    {
      var s := LookupStruct(name);
      var v := LookupVar(f, name);
      dup := s != null || v != null;
      if v != null {
        assert v in f.vars;
      }
    }

    /** `is_name_dup_deep`: a struct or a variable of this frame or of an enclosing one
        already has the name. */
    method IsNameDupDeep(f: Frame, name: string, ghost chain: seq<Frame>) returns (dup: bool)
      requires ChainOf(f, chain)
      ensures dup <==> (FindStruct(structs, name).Some? ||
        exists k, v | 0 <= k < |chain| && v in chain[k].vars :: v.name == name)
    {
      var s := LookupStruct(name);
      var v := LookupVarDeep(f, name, chain);
      dup := s != null || v != null;
      if v != null {
        var p := FindDeep(chain, name).value;
        assert chain[p.0].vars[p.1] in chain[p.0].vars;
      } else {
        forall k, w | 0 <= k < |chain| && w in chain[k].vars
          ensures w.name != name
        {
          var j :| 0 <= j < |chain[k].vars| && chain[k].vars[j] == w;
        }
      }
    }
  }

  /** The position of the most recently added struct with that name; anonymous structs
      never match. */
  function FindStruct(ss: seq<StructDef>, name: string): (r: Option<nat>)
    ensures r.Some? ==> (r.value < |ss| && ss[r.value].name == Some(name) &&
      forall j | 0 <= j < r.value :: ss[j].name != Some(name))
    ensures r.None? ==> forall j | 0 <= j < |ss| :: ss[j].name != Some(name)
  {
    if ss == [] then None
    else if ss[0].name == Some(name) then Some(0)
    else match FindStruct(ss[1..], name)
      case None => None
      case Some(j) => Some(j + 1)
  }
}
