/**
 * `ir_arthprog`: arithmetic progression. A forward analysis maps each variable
 * to a packed fact about its value (`mul * v + add`, or `v1 ± v2`), with top
 * for "no information yet"; then every instruction is simplified with
 * `fold_to` under the facts that hold before it: an operand becomes a
 * constant or an older copy, an arithmetic whose value has a simpler form is
 * rewritten to it, and a comparison of two variables whose difference is
 * known becomes a comparison of that difference with zero.
 */
module ArthprogPass {
  import opened Base
  import opened IrTypes
  import opened IrEval
  import opened Container
  import opened Dataflow
  import opened IrProgram
  import opened CfgBuild
  import opened Passes
  import opened Sweep
  import opened ArthCval
  import opened ArthFold

  /** The fact of a block: top, or the map from variables to packed facts. */
  type ArthFact = Fact<nat, nat>

  /* ------------------------------------------------------------------ */
  /* The transfer                                                        */
  /* ------------------------------------------------------------------ */

  /** `hmap_put` of a packed fact: a `NULL` fact removes the key. */
  function Put(m: Facts, l: nat, w: nat): (r: Facts)
    ensures r - {l} == m - {l}
    ensures w == NULL ==> l !in r
    ensures w != NULL ==> l in r && r[l] == w
  {
    if w == NULL then m - {l} else m[l := w]
  }

  /** `ir_arthprog_kill`: every fact whose value mentions v goes; keys are not looked at. */
  function Kill(m: Facts, v: nat): (r: Facts)
    ensures forall x :: x in r <==> x in m && !ContainVar(m[x], v)
    ensures forall x | x in r :: r[x] == m[x]
  {
    FilterMap(m, (x, w) => ContainVar(w, v))
  }

  /** `arth2cval`: the fact an arithmetic makes about its destination l, for `v + k`,
      `k - v`, `v * k`, `v1 + v2` and `v1 - v2` with l not an operand; `NULL` otherwise. */
  function Arth2Cval(l: nat, a: Opr, b: Opr, op: ArithOp): nat
  {
    if op == Plus && a.Var? && b.Imm? then (if l != a.id then MakeIvi(a.id, 1, b.val) else NULL)
    else if op == Minus && a.Imm? && b.Var? then (if l != b.id then MakeIvi(b.id, -1, a.val) else NULL)
    else if op == Star && a.Var? && b.Imm? then (if l != a.id then MakeIvi(a.id, b.val, 0) else NULL)
    else if (op == Plus || op == Minus) && a.Var? && b.Var? then
      (if l != a.id && l != b.id then MakeVv(a.id, b.id, op) else NULL)
    else NULL
  }

  /** `ir_arthprog_gen_mov`: a copy of another variable records `1 * r + 0`, a constant
      records `0 * 0 + k`; a copy of the variable itself records nothing. */
  function GenMov(m: Facts, l: nat, r: Opr): Facts
  {
    match r
    case Var(v) => if l != v then Put(m, l, MakeIvi(v, 1, 0)) else m
    case Imm(k) => Put(m, l, MakeIvi(0, 0, k))
  }

  /** The transfer of one instruction, the visitor table of `ir_arthprog`: a move or an
      arithmetic records its fact and kills the facts that mention its destination; any
      other definition removes its destination's fact, then kills likewise. */
  function Transfer(m: Facts, x: Instr): Facts
  {
    match x
    case Mov(l, r) => Kill(GenMov(m, l, r), l)
    case Arth(l, a, b, op) => Kill(Put(m, l, Arth2Cval(l, a, b, op)), l)
    case Addr(l, _) => Kill(m - {l}, l)
    case Load(l, _) => Kill(m - {l}, l)
    case Call(ret, _, _) => Kill(m - {ret}, ret)
    case Read(v) => Kill(m - {v}, v)
    case _ => m
  }

  /** The fact an arithmetic records is true after it: it stands for the value the
      arithmetic computes (which then is defined) and does not use the destination. */
  lemma Arth2CvalSound(l: nat, a: Opr, b: Opr, op: ArithOp, s: Store)
    requires Arth2Cval(l, a, b, op) != NULL
    ensures ArthDefined(op, OprVal(s, b))
    ensures Denotes(s, Arth2Cval(l, a, b, op)) == Some(ArthVal(op, OprVal(s, a), OprVal(s, b)))
    ensures !Uses(Arth2Cval(l, a, b, op), l)
  {
    if op == Plus && a.Var? && b.Imm? {
      AddiSound(a.id, b.val, s);
    } else if op == Minus && a.Imm? && b.Var? {
      IsubSound(b.id, a.val, s);
    } else if op == Star && a.Var? && b.Imm? {
      MuliSound(a.id, b.val, s);
    } else {
      MakeVvDenotes(a.id, b.id, op, s);
      MakeVvDecodes(a.id, b.id, op);
    }
  }

  /** An affine word uses no variable but its own. */
  lemma MakeIviUses(v: nat, mul: int, add: int)
    requires MakeIvi(v, mul, add) != NULL
    ensures forall x | Uses(MakeIvi(v, mul, add), x) :: x == v
  {
    MakeIviDecodes(v, mul, add);
  }

  lemma AddiSound(v: nat, k: int, s: Store)
    requires MakeIvi(v, 1, k) != NULL
    ensures Denotes(s, MakeIvi(v, 1, k)) == Some(ArthVal(Plus, Val(s, v), OprVal(s, Imm(k))))
    ensures forall x | Uses(MakeIvi(v, 1, k), x) :: x == v
  {
    MakeIviDenotes(v, 1, k, s);
    Wrap32Sum(Val(s, v), k);
    MakeIviUses(v, 1, k);
  }

  lemma IsubSound(v: nat, k: int, s: Store)
    requires MakeIvi(v, -1, k) != NULL
    ensures Denotes(s, MakeIvi(v, -1, k)) == Some(ArthVal(Minus, OprVal(s, Imm(k)), Val(s, v)))
    ensures forall x | Uses(MakeIvi(v, -1, k), x) :: x == v
  {
    MakeIviDenotes(v, -1, k, s);
    Wrap32Sum(k, -Val(s, v));
    MakeIviUses(v, -1, k);
  }

  lemma MuliSound(v: nat, k: int, s: Store)
    requires MakeIvi(v, k, 0) != NULL
    ensures Denotes(s, MakeIvi(v, k, 0)) == Some(ArthVal(Star, Val(s, v), OprVal(s, Imm(k))))
    ensures forall x | Uses(MakeIvi(v, k, 0), x) :: x == v
  {
    MakeIviDenotes(v, k, 0, s);
    var x := Val(s, v);
    assert OprVal(s, Imm(k)) == k;
    assert k * x + 0 == x * k;
    MakeIviUses(v, k, 0);
  }

  /** A word that mentions none of the variables a step changes stands for the same value
      before and after it. */
  lemma DenotesKept(w: nat, defs: set<nat>, s1: Store, s2: Store)
    requires Keeps(s1, s2, defs) && forall v | v in defs :: !ContainVar(w, v)
    ensures Denotes(s2, w) == Denotes(s1, w)
  {
    DecodersExclusive(w);
    match DecodeIvi(w) {
      case Some(d) =>
        assert Val(s2, d.v) == Val(s1, d.v);
      case None =>
        var d := DecodeVv(w).value;
        assert Val(s2, d.v1) == Val(s1, d.v1) && Val(s2, d.v2) == Val(s1, d.v2);
    }
  }

  /** Facts dropped from a map that holds leave a map that holds. */
  lemma HoldsMinus(m: Facts, l: nat, s: Store)
    requires Holds(m, s)
    ensures Holds(m - {l}, s)
  {
    forall x | x in m - {l} ensures Means(s, x, (m - {l})[x]) {
      assert Means(s, x, m[x]);
    }
  }

  /** After a step that changes only l, the facts that survive the kill of l hold, when the
      one about l (if it survives) stands for l's new value. */
  lemma KillHolds(m: Facts, l: nat, s1: Store, s2: Store)
    requires Keeps(s1, s2, {l}) && Holds(m - {l}, s1)
    requires l in m && !ContainVar(m[l], l) ==> Denotes(s1, m[l]) == Some(Val(s2, l))
    ensures Holds(Kill(m, l), s2)
  {
    var r := Kill(m, l);
    forall x | x in r ensures Means(s2, x, r[x]) {
      DenotesKept(m[x], {l}, s1, s2);
      if x != l {
        assert Means(s1, x, (m - {l})[x]);
      }
    }
  }

  /** Recording w about l and then killing l keeps the map true, when w stands for l's
      new value. */
  lemma KillPutHolds(m: Facts, l: nat, w: nat, s1: Store, s2: Store)
    requires Holds(m, s1) && Keeps(s1, s2, {l})
    requires w != NULL ==> Denotes(s1, w) == Some(Val(s2, l))
    ensures Holds(Kill(Put(m, l, w), l), s2)
  {
    HoldsMinus(m, l, s1);
    KillHolds(Put(m, l, w), l, s1, s2);
  }

  /** A map holds in any store that agrees on every variable. */
  lemma KeptHolds(m: Facts, s1: Store, s2: Store)
    requires Holds(m, s1) && Keeps(s1, s2, {})
    ensures Holds(m, s2)
  {
    forall x | x in m ensures Means(s2, x, m[x]) {
      assert Means(s1, x, m[x]);
      DenotesKept(m[x], {}, s1, s2);
    }
  }

  /** What a move records about its destination stands for the moved value. */
  lemma GenMovSound(m: Facts, l: nat, r: Opr, s1: Store, s2: Store)
    requires Holds(m, s1) && Step(s1, Mov(l, r), s2)
    ensures Holds(Transfer(m, Mov(l, r)), s2)
  {
    match r {
      case Var(v) =>
        if l != v {
          if MakeIvi(v, 1, 0) != NULL {
            MakeIviDenotes(v, 1, 0, s1);
          }
          KillPutHolds(m, l, MakeIvi(v, 1, 0), s1, s2);
        } else {
          HoldsMinus(m, l, s1);
          if l in m {
            assert Means(s1, l, m[l]);
          }
          KillHolds(m, l, s1, s2);
        }
      case Imm(k) =>
        MakeIviDenotes(0, 0, k, s1);
        KillPutHolds(m, l, MakeIvi(0, 0, k), s1, s2);
    }
  }

  /** The transfer keeps the map true: if it holds before the instruction, it holds after.
      A function header, which the C code does not let kill its parameters, is only met
      with the empty map of the entry. */
  lemma TransferSound(m: Facts, x: Instr, s1: Store, s2: Store)
    requires Holds(m, s1) && Step(s1, x, s2) && (x.Func? ==> m == map[])
    ensures Holds(Transfer(m, x), s2)
  {
    match x
    case Mov(l, r) => GenMovSound(m, l, r, s1, s2);
    case Arth(l, a, b, op) =>
      if Arth2Cval(l, a, b, op) != NULL {
        Arth2CvalSound(l, a, b, op, s1);
      }
      KillPutHolds(m, l, Arth2Cval(l, a, b, op), s1, s2);
    case Addr(l, _) => KillPutHolds(m, l, NULL, s1, s2);
    case Load(l, _) => KillPutHolds(m, l, NULL, s1, s2);
    case Call(ret, _, _) => KillPutHolds(m, ret, NULL, s1, s2);
    case Read(v) => KillPutHolds(m, v, NULL, s1, s2);
    case Func(_, _) =>
    case Nop => KeptHolds(m, s1, s2);
    case Label(_) => KeptHolds(m, s1, s2);
    case Store(_, _) => KeptHolds(m, s1, s2);
    case Goto(_, _) => KeptHolds(m, s1, s2);
    case Branch(_, _, _, _, _) => KeptHolds(m, s1, s2);
    case Ret(_) => KeptHolds(m, s1, s2);
    case Alloc(_, _) => KeptHolds(m, s1, s2);
    case Write(_) => KeptHolds(m, s1, s2);
  }

  /** The transfer of a list of instructions, one after the other. */
  function TransferSeq(m: Facts, xs: seq<Instr>): Facts
    decreases |xs|
  {
    if |xs| == 0 then m else TransferSeq(Transfer(m, xs[0]), xs[1..])
  }

  /** A function header comes first, and only after the empty map. */
  predicate HeaderFirst(m: Facts, xs: seq<Instr>)
  {
    forall k | 0 <= k < |xs| && xs[k].Func? :: k == 0 && m == map[]
  }

  /** Running a list from a map that holds keeps it holding. */
  lemma {:induction false} TransferSeqSound(m: Facts, xs: seq<Instr>, s1: Store, s2: Store)
    requires Holds(m, s1) && Run(s1, xs, s2) && HeaderFirst(m, xs)
    ensures Holds(TransferSeq(m, xs), s2)
    decreases |xs|
  {
    if |xs| == 0 {
      KeptHolds(m, s1, s2);
    } else {
      var s :| Step(s1, xs[0], s) && Run(s, xs[1..], s2);
      TransferSound(m, xs[0], s1, s);
      assert forall k | 0 <= k < |xs| - 1 :: xs[1..][k] == xs[k + 1];
      TransferSeqSound(Transfer(m, xs[0]), xs[1..], s, s2);
    }
  }

  /* ------------------------------------------------------------------ */
  /* From a word back to an operand or an instruction                   */
  /* ------------------------------------------------------------------ */

  /** `cval2opr`: a constant becomes an immediate, `1 * v + 0` becomes v; no other word
      is an operand. */
  function Cval2Opr(w: nat): (r: Option<Opr>)
    ensures r.Some? <==> IsOperand(w)
  {
    match DecodeIvi(w)
    case None => None
    case Some(d) =>
      if d.mul == 0 then Some(Imm(d.add))
      else if d.mul == 1 && d.add == 0 then Some(Var(d.v))
      else None
  }

  /** The operand stands for the value the word stands for. */
  lemma Cval2OprSound(w: nat, s: Store)
    requires Cval2Opr(w).Some?
    ensures Denotes(s, w) == Some(OprVal(s, Cval2Opr(w).value))
  {
  }

  /** The words a move records turn back into the moved operand: `make_ivi(v, 1, 0)` is
      v and `make_ivi(0, 0, k)` is k as a C `int`. */
  lemma OprWordRoundTrip(v: nat, k: int)
    ensures v < F15 ==> Cval2Opr(MakeIvi(v, 1, 0)) == Some(Var(v))
    ensures Cval2Opr(MakeIvi(0, 0, k)) == Some(Imm(Wrap32(k)))
  {
    MakeIviDecodes(v, 1, 0);
    MakeIviDecodes(0, 0, k);
  }

  /** `try_fold`: a variable is rewritten with `fold_to` at level 0 from `1 * v + 0`,
      and replaced when that gives a constant or another variable; an immediate stays. */
  function TryFold(m: Facts, o: Opr, lhsid: Option<nat>, steps: nat): Opr
  {
    match o
    case Imm(_) => o
    case Var(id) =>
      match Cval2Opr(FoldTo(m, MakeIvi(id, 1, 0), 0, lhsid, steps))
      case Some(r) => r
      case None => o
  }

  /** In a store the facts hold in, the folded operand has the operand's value. */
  lemma TryFoldSound(m: Facts, o: Opr, lhsid: Option<nat>, steps: nat, s: Store)
    requires Holds(m, s)
    ensures OprVal(s, TryFold(m, o, lhsid, steps)) == OprVal(s, o)
  {
    if o.Var? && MakeIvi(o.id, 1, 0) != NULL {
      var w := FoldTo(m, MakeIvi(o.id, 1, 0), 0, lhsid, steps);
      MakeIviDenotes(o.id, 1, 0, s);
      FoldToSound(m, MakeIvi(o.id, 1, 0), 0, lhsid, steps, s);
      if Cval2Opr(w).Some? {
        Cval2OprSound(w, s);
      }
    }
  }

  /** A fold guarded against `lhsid` never brings that variable in. */
  lemma TryFoldAvoids(m: Facts, o: Opr, l: nat, steps: nat)
    ensures TryFold(m, o, Some(l), steps) == o || TryFold(m, o, Some(l), steps) != Var(l)
  {
    if o.Var? {
      var ori := MakeIvi(o.id, 1, 0);
      var w := FoldTo(m, ori, 0, Some(l), steps);
      FoldToAvoids(m, ori, 0, l, steps);
      if w == ori && ori != NULL {
        OprWordRoundTrip(o.id, 0);
      }
    }
  }

  /** `cval2ir`: the instruction that sets l to the word's value. An operand gives a move
      (or a nop when it is l itself), a vv gives the arithmetic on its two variables, and
      an affine word gives `v + v` for `2 * v`, `v * k`, `v + k` or `k - v`. The C code
      asserts that an affine word with a multiplier other than ±1 adds nothing; here such
      a word, and a vv with an operator code the C code never writes, gives nothing. */
  function Cval2Ir(w: nat, l: nat): (r: Option<Instr>)
    ensures r.Some? ==> r.value.Nop? || ((r.value.Mov? || r.value.Arth?) && r.value.lhs == l)
  {
    match Cval2Opr(w)
    case Some(o) => Some(if o == Var(l) then Nop else Mov(l, o))
    case None =>
      match DecodeVv(w)
      case Some(d) =>
        (match OpOf(d.op)
         case Some(op) => Some(Arth(l, Var(d.v1), Var(d.v2), op))
         case None => None)
      case None =>
        var d := DecodeIvi(w).value;
        if Abs(d.mul) != 1 && d.add != 0 then None else Some(Cval2IviIr(d, l))
  }

  /** The affine half of `cval2ir`. */
  function Cval2IviIr(d: Ivi, l: nat): Instr
  {
    if Abs(d.mul) != 1 then
      if d.mul == 2 then Arth(l, Var(d.v), Var(d.v), Plus) else Arth(l, Var(d.v), Imm(d.mul), Star)
    else if d.mul == 1 then Arth(l, Var(d.v), Imm(d.add), Plus)
    else Arth(l, Imm(d.add), Var(d.v), Minus)
  }

  /** The instruction `cval2ir` makes sets l to the word's value and changes nothing else:
      every store that differs from s1 only in l, where l holds that value, is one it can
      leave. */
  lemma Cval2IrSound(w: nat, l: nat, s1: Store, s2: Store)
    requires Denotes(s1, w).Some? && Cval2Ir(w, l).Some?
    requires Keeps(s1, s2, {l}) && Val(s2, l) == Denotes(s1, w).value
    ensures Step(s1, Cval2Ir(w, l).value, s2)
  {
    DecodersExclusive(w);
    match Cval2Opr(w) {
      case Some(o) =>
        Cval2OprSound(w, s1);
        if o == Var(l) {
          assert Keeps(s1, s2, {});
        } else {
          StepMov(s1, s2, l, o);
        }
      case None =>
        match DecodeVv(w) {
          case Some(d) =>
            var op := OpOf(d.op).value;
            StepArth(s1, s2, l, Var(d.v1), Var(d.v2), op);
          case None =>
            var d := DecodeIvi(w).value;
            IviIrSound(d, l, s1, s2);
        }
    }
  }

  /** The affine cases of `cval2ir`, each setting l to `mul * v + add`. */
  lemma IviIrSound(d: Ivi, l: nat, s1: Store, s2: Store)
    requires -0x8000 <= d.mul <= 0x7FFF && IsInt32(d.add) && !(d.mul == 0 || (d.mul == 1 && d.add == 0))
    requires Keeps(s1, s2, {l}) && Val(s2, l) == Wrap32(d.mul * Val(s1, d.v) + d.add)
    requires Abs(d.mul) != 1 ==> d.add == 0
    ensures Step(s1, Cval2IviIr(d, l), s2)
  {
    var x := Val(s1, d.v);
    if Abs(d.mul) != 1 {
      if d.mul == 2 {
        TwiceStep(x, l, d.v, s1, s2);
      } else {
        TimesStep(x, d.mul, l, d.v, s1, s2);
      }
    } else if d.mul == 1 {
      StepArth(s1, s2, l, Var(d.v), Imm(d.add), Plus);
    } else {
      assert d.mul * x + d.add == d.add - x;
      StepArth(s1, s2, l, Imm(d.add), Var(d.v), Minus);
    }
  }

  lemma TwiceStep(x: int, l: nat, v: nat, s1: Store, s2: Store)
    requires x == Val(s1, v) && Keeps(s1, s2, {l}) && Val(s2, l) == Wrap32(2 * x + 0)
    ensures Step(s1, Arth(l, Var(v), Var(v), Plus), s2)
  {
    StepArth(s1, s2, l, Var(v), Var(v), Plus);
  }

  lemma TimesStep(x: int, k: int, l: nat, v: nat, s1: Store, s2: Store)
    requires x == Val(s1, v) && IsInt32(k) && Keeps(s1, s2, {l}) && Val(s2, l) == Wrap32(k * x + 0)
    ensures Step(s1, Arth(l, Var(v), Imm(k), Star), s2)
  {
    assert k * x + 0 == x * k;
    StepArth(s1, s2, l, Var(v), Imm(k), Star);
  }

  /* ------------------------------------------------------------------ */
  /* The simplification of one instruction (`ir_arthsimp`)               */
  /* ------------------------------------------------------------------ */

  /** The fact the out-map keeps about a move's destination stands for the moved value,
      in the store before the move. */
  lemma MovOutSound(m: Facts, l: nat, r: Opr, s: Store)
    requires Holds(m, s) && Get(Transfer(m, Mov(l, r)), l) != NULL
    ensures Denotes(s, Get(Transfer(m, Mov(l, r)), l)) == Some(OprVal(s, r))
  {
    var g := GenMov(m, l, r);
    assert l in g && Get(Transfer(m, Mov(l, r)), l) == g[l];
    match r {
      case Var(v) =>
        if l != v {
          MakeIviDenotes(v, 1, 0, s);
        } else {
          assert Means(s, l, m[l]);
        }
      case Imm(k) =>
        MakeIviDenotes(0, 0, k, s);
    }
  }

  /** `ir_arthsimp_ir_mov`: on the final round the out-map's fact about l, rewritten with
      `fold_to` at level 1, replaces the move when it gives another instruction; otherwise
      the moved operand is folded, and a move of l to itself becomes a nop. */
  function SimpMov(m: Facts, l: nat, r: Opr, final: bool, steps: nat): (y: Instr)
    ensures y.Nop? || ((y.Mov? || y.Arth?) && y.lhs == l)
  {
    var cv := if final then FoldTo(m, Get(Transfer(m, Mov(l, r)), l), 1, None, steps) else NULL;
    var y := if cv == NULL then None else Cval2Ir(cv, l);
    if y.Some? && !(y.value.Mov? && SameOpr(y.value.rhs, r)) then y.value
    else
      var r' := TryFold(m, r, None, steps);
      if SameOpr(Var(l), r') then Nop else Mov(l, r')
  }

  /** `ir_arthsimp_ir_arth`: the fact the arithmetic makes, rewritten with `fold_to` at
      level 1, replaces it when it gives an instruction other than the same arithmetic;
      otherwise both operands are folded. Before the final round neither may bring in l. */
  function SimpArth(m: Facts, l: nat, a: Opr, b: Opr, op: ArithOp, final: bool, steps: nat): (y: Instr)
    ensures y.Nop? || ((y.Mov? || y.Arth?) && y.lhs == l)
  {
    var lhsid := if final then None else Some(l);
    var cv := FoldTo(m, Arth2Cval(l, a, b, op), 1, lhsid, steps);
    var y := if cv == NULL then None else Cval2Ir(cv, l);
    if y.Some? && !(y.value.Arth? && SameArth(Expr(y.value.opr1, y.value.opr2, y.value.op), Expr(a, b, op)))
    then y.value
    else Arth(l, TryFold(m, a, lhsid, steps), TryFold(m, b, lhsid, steps), op)
  }

  /** The difference of two variables as `fold_to` at level 0 finds it, if it is an
      operand. */
  function Difference(m: Facts, a: Opr, b: Opr, steps: nat): (r: Option<Opr>)
    ensures r.Some? ==> a.Var? && b.Var? && MakeVv(a.id, b.id, Minus) != NULL
  {
    if a.Var? && b.Var? then Cval2Opr(FoldTo(m, MakeVv(a.id, b.id, Minus), 0, None, steps)) else None
  }

  /** `ir_arthsimp_ir_branch` as written: both operands are folded, and a comparison of
      two variables whose difference is an operand becomes a comparison of that
      difference with 0, whatever the relation. */
  function SimpBranchAsWritten(m: Facts, a: Opr, b: Opr, rel: Relop, t: nat, j: nat, steps: nat): Instr
  {
    var a', b' := TryFold(m, a, None, steps), TryFold(m, b, None, steps);
    var d := Difference(m, a', b', steps);
    if d.Some? then Branch(d.value, Imm(0), rel, t, j) else Branch(a', b', rel, t, j)
  }

  /** The branch simplification corrected: the difference replaces the comparison only
      for `==` and `!=`, which the wrapped difference decides like the operands do. */
  function SimpBranch(m: Facts, a: Opr, b: Opr, rel: Relop, t: nat, j: nat, steps: nat): (y: Instr)
    ensures y.Branch? && y.rel == rel && y.target == t && y.jid == j
  {
    var a', b' := TryFold(m, a, None, steps), TryFold(m, b, None, steps);
    var d := Difference(m, a', b', steps);
    if d.Some? && (rel == EQ || rel == NEQ) then Branch(d.value, Imm(0), rel, t, j)
    else Branch(a', b', rel, t, j)
  }

  /** A variable operand of a load or a store folded; the C code asserts it stays a
      variable, and here a fold to a constant leaves the variable. */
  function FoldVar(m: Facts, v: nat, steps: nat): nat
  {
    match TryFold(m, Var(v), None, steps)
    case Var(u) => u
    case Imm(_) => v
  }

  /** The arguments of a call, each folded. */
  function FoldArgs(m: Facts, args: seq<Opr>, steps: nat): (r: seq<Opr>)
    ensures |r| == |args| && forall k | 0 <= k < |args| :: r[k] == TryFold(m, args[k], None, steps)
  {
    seq(|args|, k requires 0 <= k < |args| => TryFold(m, args[k], None, steps))
  }

  /** The visitor table of `ir_arthsimp`: the instruction that replaces x, given the
      in-map m before it (the out-map is its transfer). */
  function Simp(m: Facts, x: Instr, final: bool, steps: nat): Instr
  {
    match x
    case Mov(l, r) => SimpMov(m, l, r, final, steps)
    case Arth(l, a, b, op) => SimpArth(m, l, a, b, op, final, steps)
    case Load(l, src) => Load(l, FoldVar(m, src, steps))
    case Store(addr, r) => Store(FoldVar(m, addr, steps), TryFold(m, r, None, steps))
    case Branch(a, b, rel, t, j) => SimpBranch(m, a, b, rel, t, j, steps)
    case Ret(o) => Ret(TryFold(m, o, None, steps))
    case Call(ret, f, args) => Call(ret, f, FoldArgs(m, args, steps))
    case Write(o) => Write(TryFold(m, o, None, steps))
    case _ => x
  }

  /** The simplified move can stand in for the move. */
  lemma SimpMovSound(m: Facts, l: nat, r: Opr, final: bool, steps: nat, s: Store)
    requires Holds(m, s)
    ensures RefinesAt(s, Mov(l, r), SimpMov(m, l, r, final, steps))
  {
    var w := Get(Transfer(m, Mov(l, r)), l);
    var cv := if final then FoldTo(m, w, 1, None, steps) else NULL;
    var y := if cv == NULL then None else Cval2Ir(cv, l);
    var r' := TryFold(m, r, None, steps);
    if cv != NULL {
      MovOutSound(m, l, r, s);
      FoldToSound(m, w, 1, None, steps, s);
    }
    TryFoldSound(m, r, None, steps, s);
    SameOprIsEquality(Var(l), r');
    forall s2 | Step(s, Mov(l, r), s2) ensures Step(s, SimpMov(m, l, r, final, steps), s2) {
      if y.Some? && !(y.value.Mov? && SameOpr(y.value.rhs, r)) {
        Cval2IrSound(cv, l, s, s2);
      } else if SameOpr(Var(l), r') {
        assert Keeps(s, s2, {});
      } else {
        StepMov(s, s2, l, r');
      }
    }
  }

  /** The simplified arithmetic can stand in for the arithmetic. */
  lemma SimpArthSound(m: Facts, l: nat, a: Opr, b: Opr, op: ArithOp, final: bool, steps: nat, s: Store)
    requires Holds(m, s)
    ensures RefinesAt(s, Arth(l, a, b, op), SimpArth(m, l, a, b, op, final, steps))
  {
    var lhsid := if final then None else Some(l);
    var cv := FoldTo(m, Arth2Cval(l, a, b, op), 1, lhsid, steps);
    var y := if cv == NULL then None else Cval2Ir(cv, l);
    if y.Some? && !(y.value.Arth? && SameArth(Expr(y.value.opr1, y.value.opr2, y.value.op), Expr(a, b, op))) {
      ArthRebuiltSound(m, l, a, b, op, lhsid, steps, s);
    } else {
      ArthOperandsSound(m, l, a, b, op, lhsid, steps, s);
    }
  }

  /** The arithmetic rebuilt from its folded value can stand in for it. */
  lemma ArthRebuiltSound(m: Facts, l: nat, a: Opr, b: Opr, op: ArithOp, lhsid: Option<nat>, steps: nat, s: Store)
    requires Holds(m, s)
    requires FoldTo(m, Arth2Cval(l, a, b, op), 1, lhsid, steps) != NULL
    requires Cval2Ir(FoldTo(m, Arth2Cval(l, a, b, op), 1, lhsid, steps), l).Some?
    ensures RefinesAt(s, Arth(l, a, b, op), Cval2Ir(FoldTo(m, Arth2Cval(l, a, b, op), 1, lhsid, steps), l).value)
  {
    var w := Arth2Cval(l, a, b, op);
    var cv := FoldTo(m, w, 1, lhsid, steps);
    Arth2CvalSound(l, a, b, op, s);
    FoldToSound(m, w, 1, lhsid, steps, s);
    forall s2 | Step(s, Arth(l, a, b, op), s2) ensures Step(s, Cval2Ir(cv, l).value, s2) {
      Cval2IrSound(cv, l, s, s2);
    }
  }

  /** The arithmetic with its operands folded can stand in for it. */
  lemma ArthOperandsSound(m: Facts, l: nat, a: Opr, b: Opr, op: ArithOp, lhsid: Option<nat>, steps: nat, s: Store)
    requires Holds(m, s)
    ensures RefinesAt(s, Arth(l, a, b, op), Arth(l, TryFold(m, a, lhsid, steps), TryFold(m, b, lhsid, steps), op))
  {
    var a', b' := TryFold(m, a, lhsid, steps), TryFold(m, b, lhsid, steps);
    TryFoldSound(m, a, lhsid, steps, s);
    TryFoldSound(m, b, lhsid, steps, s);
    forall s2 | Step(s, Arth(l, a, b, op), s2) ensures Step(s, Arth(l, a', b', op), s2) {
      StepArth(s, s2, l, a', b', op);
    }
  }

  /** Two C `int`s are equal exactly when their wrapped difference is 0. */
  lemma Wrap32DiffZero(x: int, y: int)
    requires IsInt32(x) && IsInt32(y)
    ensures Wrap32(x - y) == 0 <==> x == y
  {
    var d := Wrap32(x - y);
    assert (d - (x - y)) % TWO32 == 0;
    if d == 0 {
      var q := (y - x) / TWO32;
      assert y - x == TWO32 * q;
    }
  }

  /** A difference found by `fold_to` has the wrapped difference's value. */
  lemma DifferenceSound(m: Facts, a: Opr, b: Opr, steps: nat, s: Store)
    requires Holds(m, s) && Difference(m, a, b, steps).Some?
    ensures OprVal(s, Difference(m, a, b, steps).value) == Wrap32(OprVal(s, a) - OprVal(s, b))
  {
    var ori := MakeVv(a.id, b.id, Minus);
    var w := FoldTo(m, ori, 0, None, steps);
    var d := Difference(m, a, b, steps).value;
    assert Cval2Opr(w) == Some(d);
    MakeVvDenotes(a.id, b.id, Minus, s);
    FoldToSound(m, ori, 0, None, steps, s);
    Cval2OprSound(w, s);
    assert OprVal(s, a) == Val(s, a.id) && OprVal(s, b) == Val(s, b.id);
    assert ArthVal(Minus, Val(s, a.id), Val(s, b.id)) == Wrap32(Val(s, a.id) - Val(s, b.id));
  }

  /** The corrected branch jumps to the same place, and exactly when the original does. */
  lemma SimpBranchSound(m: Facts, a: Opr, b: Opr, rel: Relop, t: nat, j: nat, steps: nat, s: Store)
    requires Holds(m, s)
    ensures var y := SimpBranch(m, a, b, rel, t, j, steps);
      y.Branch? && y.rel == rel && y.target == t && y.jid == j &&
      (Taken(s, y.opr1, y.opr2, rel) <==> Taken(s, a, b, rel))
  {
    var a', b' := TryFold(m, a, None, steps), TryFold(m, b, None, steps);
    TryFoldSound(m, a, None, steps, s);
    TryFoldSound(m, b, None, steps, s);
    var d := Difference(m, a', b', steps);
    if d.Some? && (rel == EQ || rel == NEQ) {
      DifferenceSound(m, a', b', steps, s);
      DiffDecides(s, a', b', d.value, rel);
    }
  }

  /** An operand holding the wrapped difference of two others compares with zero under
      `==` and `!=` as they compare with each other. */
  lemma DiffDecides(s: Store, a: Opr, b: Opr, d: Opr, rel: Relop)
    requires rel == EQ || rel == NEQ
    requires OprVal(s, d) == Wrap32(OprVal(s, a) - OprVal(s, b))
    ensures Taken(s, d, Imm(0), rel) <==> Taken(s, a, b, rel)
  {
    Wrap32DiffZero(OprVal(s, a), OprVal(s, b));
  }

  /** A folded variable operand of a load or a store keeps its value. */
  lemma FoldVarSound(m: Facts, v: nat, steps: nat, s: Store)
    requires Holds(m, s)
    ensures Val(s, FoldVar(m, v, steps)) == Val(s, v)
  {
    TryFoldSound(m, Var(v), None, steps, s);
  }

  /** A call with its arguments folded hands the callee the same values. */
  lemma CallSimpSound(m: Facts, ret: nat, f: string, args: seq<Opr>, final: bool, steps: nat, s: Store)
    requires Holds(m, s)
    ensures RefinesAt(s, Call(ret, f, args), Simp(m, Call(ret, f, args), final, steps))
  {
    var x := Call(ret, f, args);
    var y := Simp(m, x, final, steps);
    forall k | 0 <= k < |args| ensures OprVal(s, y.args[k]) == OprVal(s, args[k]) {
      TryFoldSound(m, args[k], None, steps, s);
    }
    assert Emits(s, y) == Emits(s, x);
  }

  /**
   * What `ir_arthsimp` puts in place of x can stand in for it in every store the in-map
   * holds in: it leaves the same stores, hands out the same values, a branch jumps to the
   * same place exactly when x does, and a load reads the same address.
   */
  lemma SimpSound(m: Facts, x: Instr, final: bool, steps: nat, s: Store)
    requires Holds(m, s)
    ensures RefinesAt(s, x, Simp(m, x, final, steps))
    ensures x.Branch? ==> var y := Simp(m, x, final, steps);
      y.Branch? && y.target == x.target && y.jid == x.jid &&
      (Taken(s, y.opr1, y.opr2, y.rel) <==> Taken(s, x.opr1, x.opr2, x.rel))
    ensures x.Load? ==> var y := Simp(m, x, final, steps); y.Load? && Val(s, y.src) == Val(s, x.src)
  {
    match x
    case Mov(l, r) => SimpMovSound(m, l, r, final, steps, s);
    case Arth(l, a, b, op) => SimpArthSound(m, l, a, b, op, final, steps, s);
    case Load(l, src) => FoldVarSound(m, src, steps, s);
    case Store(addr, r) =>
      FoldVarSound(m, addr, steps, s);
      TryFoldSound(m, r, None, steps, s);
    case Branch(a, b, rel, t, j) => SimpBranchSound(m, a, b, rel, t, j, steps, s);
    case Ret(o) => TryFoldSound(m, o, None, steps, s);
    case Write(o) => TryFoldSound(m, o, None, steps, s);
    case Call(ret, f, args) => CallSimpSound(m, ret, f, args, final, steps, s);
    case _ =>
  }
  /** Any straight-line instruction other than a call fits where another one was. */
  lemma PlainFits(x: Instr, y: Instr)
    requires !x.Label? && !Terminator(x) && !x.Call?
    requires y.Nop? || y.Mov? || y.Arth? || y.Load? || y.Store? || y.Write?
    ensures Fits(x, y)
  {
  }

  /** What `ir_arthsimp` puts in place fits there: the block shape, jumps and calls stay. */
  lemma SimpFits(m: Facts, x: Instr, final: bool, steps: nat)
    ensures Fits(x, Simp(m, x, final, steps))
  {
    var y := Simp(m, x, final, steps);
    match x
    case Mov(l, r) =>
      assert y == SimpMov(m, l, r, final, steps);
      PlainFits(x, y);
    case Arth(l, a, b, op) =>
      assert y == SimpArth(m, l, a, b, op, final, steps);
      PlainFits(x, y);
    case Load(l, src) => PlainFits(x, y);
    case Store(addr, r) => PlainFits(x, y);
    case Write(o) => PlainFits(x, y);
    case Branch(a, b, rel, t, j) => assert y == SimpBranch(m, a, b, rel, t, j, steps);
    case _ =>
  }

  /* ------------------------------------------------------------------ */
  /* The branch fold as written, on `v1 = v2 + 5; if v1 < v2`            */
  /* ------------------------------------------------------------------ */

  /** The map after `v1 := v2 + 5` holds `1 * v2 + 5` for v1. */
  lemma ExampleFacts()
    ensures Transfer(map[], Arth(1, Var(2), Imm(5), Plus)) == map[1 := MakeIvi(2, 1, 5)]
  {
    MakeIviDecodes(2, 1, 5);
    ContainVarFields(MakeIvi(2, 1, 5), 1);
  }

  /** One round of `fold_to` on that map leaves v1 and v2 as they are. */
  lemma ExampleOperandsStay()
    ensures TryFold(map[1 := MakeIvi(2, 1, 5)], Var(1), None, 1) == Var(1)
    ensures TryFold(map[1 := MakeIvi(2, 1, 5)], Var(2), None, 1) == Var(2)
  {
    var m := map[1 := MakeIvi(2, 1, 5)];
    MakeIviDecodes(2, 1, 5);
    DecodersExclusive(MakeIvi(2, 1, 5));
    MakeIviDecodes(1, 1, 0);
    DecodersExclusive(MakeIvi(1, 1, 0));
    MakeIviDecodes(2, 1, 0);
    DecodersExclusive(MakeIvi(2, 1, 0));
    OprWordRoundTrip(1, 0);
    OprWordRoundTrip(2, 0);
    var st := Init(MakeIvi(1, 1, 0));
    assert st == Lin(1, 0, 1, 0, 0);
    assert Tier(m, st, 1).None? && Tier(m, st, 2).None?;
    assert Search(m, st) == Some(Lin(2, 0, 1, 0, 5));
    assert NextRes(Lin(2, 0, 1, 0, 5), MakeIvi(1, 1, 0), 0, None) == MakeIvi(1, 1, 0);
    assert FoldTo(m, MakeIvi(1, 1, 0), 0, None, 1) == MakeIvi(1, 1, 0);
    var st2 := Init(MakeIvi(2, 1, 0));
    assert st2 == Lin(2, 0, 1, 0, 0);
    assert Search(m, st2).None?;
    assert FoldTo(m, MakeIvi(2, 1, 0), 0, None, 1) == MakeIvi(2, 1, 0);
  }

  /** One round of `fold_to` on that map finds that `v1 - v2` is the constant 5. */
  lemma ExampleDifference()
    ensures Difference(map[1 := MakeIvi(2, 1, 5)], Var(1), Var(2), 1) == Some(Imm(5))
  {
    var m := map[1 := MakeIvi(2, 1, 5)];
    MakeIviDecodes(2, 1, 5);
    DecodersExclusive(MakeIvi(2, 1, 5));
    MakeVvDecodes(1, 2, Minus);
    DecodersExclusive(MakeVv(1, 2, Minus));
    OprWordRoundTrip(0, 5);
    var st := Init(MakeVv(1, 2, Minus));
    assert st == Lin(1, 2, 1, -1, 0);
    assert TierAt(m, st, 1, 0) == Some(Lin(1, 2, 0, 0, 5));
    assert Search(m, st) == Some(Lin(1, 2, 0, 0, 5));
    assert NextRes(Lin(1, 2, 0, 0, 5), MakeVv(1, 2, Minus), 0, None) == MakeIvi(0, 0, 5);
    assert FoldTo(m, MakeVv(1, 2, Minus), 0, None, 1) == MakeIvi(0, 0, 5);
  }

  /** The fact about v1 holds where v1 is v2 + 5 wrapped. */
  lemma ExampleHolds()
    ensures Holds(map[1 := MakeIvi(2, 1, 5)], map[1 := -2147483646, 2 := 2147483645])
  {
    var m := map[1 := MakeIvi(2, 1, 5)];
    var s := map[1 := -2147483646, 2 := 2147483645];
    MakeIviDenotes(2, 1, 5, s);
    assert Val(s, 1) == -2147483646 && Val(s, 2) == 2147483645;
    assert Wrap32(1 * 2147483645 + 5) == -2147483646;
    assert Means(s, 1, m[1]);
  }

  /** On that map the branch as written compares the constant 5 with 0. */
  lemma ExampleBranch()
    ensures SimpBranchAsWritten(map[1 := MakeIvi(2, 1, 5)], Var(1), Var(2), LT, 7, 0, 1) ==
      Branch(Imm(5), Imm(0), LT, 7, 0)
  {
    ExampleOperandsStay();
    ExampleDifference();
  }

  /**
   * `ir_arthsimp_ir_branch` as written turns `if v1 < v2` after `v1 := v2 + 5` into
   * `if 5 < 0`. In a store where v2 is 2147483645 and v1 its wrapped sum with 5, the facts
   * hold and the original branch is taken, but the folded one is not.
   */
  lemma AsWrittenBranchMisfolds()
    ensures var m := Transfer(map[], Arth(1, Var(2), Imm(5), Plus));
      var s := map[1 := -2147483646, 2 := 2147483645];
      var y := SimpBranchAsWritten(m, Var(1), Var(2), LT, 7, 0, 1);
      Holds(m, s) && Taken(s, Var(1), Var(2), LT) && y.Branch? && !Taken(s, y.opr1, y.opr2, y.rel)
  {
    var s := map[1 := -2147483646, 2 := 2147483645];
    ExampleFacts();
    ExampleHolds();
    ExampleBranch();
    assert OprVal(s, Var(1)) == -2147483646 && OprVal(s, Var(2)) == 2147483645;
    assert OprVal(s, Imm(5)) == 5 && OprVal(s, Imm(0)) == 0;
  }

  /* ------------------------------------------------------------------ */
  /* The analysis over a graph, and the simplification sweep             */
  /* ------------------------------------------------------------------ */

  /** The in-map at position p of a block that starts at st and is entered with f: the
      per-instruction maps, each instruction's in-map being its predecessor's out-map. */
  function InAt(f: Facts, irs: seq<Instr>, st: nat, p: nat): Facts
    requires st <= p <= |irs|
  {
    TransferSeq(f, irs[st..p])
  }

  /** `ir_arthprog_transfer_bb`: block b's instructions from in-map f; a top in-map is
      never transferred (the driver skips it). */
  function BlockTransfer(irs: seq<Instr>, bbs: seq<Block>, b: nat, f: ArthFact): ArthFact
  {
    if f.Known? && b < |bbs| && bbs[b].start <= bbs[b].end <= |irs| then
      Known(InAt(f.m, irs, bbs[b].start, bbs[b].end))
    else f
  }

  /** `ir_arthprog_skip`: a block whose in-map is still top waits. */
  predicate Skip(f: ArthFact)
  {
    f.Top?
  }

  /** `ir_arthsimp_bb` at position q of block b, under the in-maps e the analysis found
      for the instructions as they were. */
  function SimpAt(irs0: seq<Instr>, bbs: seq<Block>, e: seq<ArthFact>, b: nat, q: nat, x: Instr,
                  final: bool, steps: nat): Instr
  {
    if b < |bbs| && b < |e| && e[b].Known? && bbs[b].start <= q <= |irs0| then
      Simp(InAt(e[b].m, irs0, bbs[b].start, q), x, final, steps)
    else x
  }

  function SimpRewrite(irs0: seq<Instr>, bbs: seq<Block>, e: seq<ArthFact>, final: bool, steps: nat): Rewrite
  {
    (b: nat, q: nat, x: Instr) => SimpAt(irs0, bbs, e, b, q, x, final, steps)
  }

  /** Simplification only ever puts a fitting instruction in place. */
  lemma SimpRewriteFits(irs0: seq<Instr>, bbs: seq<Block>, e: seq<ArthFact>, final: bool, steps: nat)
    ensures AlwaysFits(SimpRewrite(irs0, bbs, e, final, steps))
  {
    forall b: nat, q: nat, x: Instr ensures Fits(x, SimpRewrite(irs0, bbs, e, final, steps)(b, q, x)) {
      if b < |bbs| && b < |e| && e[b].Known? && bbs[b].start <= q <= |irs0| {
        SimpFits(InAt(e[b].m, irs0, bbs[b].start, q), x, final, steps);
      }
    }
  }

  /** `hmap_and` with top as its identity obeys the laws the driver needs. */
  lemma ArthMeetLaws()
    ensures MeetLaws(Meet<nat, nat>)
  {
    forall a: ArthFact, b: ArthFact ensures Meet(Meet(a, b), b) == Meet(a, b) {
      MeetAssociates(a, b, b);
      MeetIdempotent(b);
    }
    forall a: ArthFact, b: ArthFact, c: ArthFact ensures Meet(Meet(a, b), c) == Meet(Meet(a, c), b) {
      MeetAssociates(a, b, c);
      MeetCommutes(b, c);
      MeetAssociates(a, c, b);
    }
  }

  /** The maps solve the forward equations: a reachable block's in-map is known, its
      out-map is the transfer of its in-map, and its in-map is contained in the out-map
      of every reachable predecessor. */
  ghost predicate Solution(irs: seq<Instr>, bbs: seq<Block>, ins: seq<seq<nat>>, reach: seq<bool>,
                           e: seq<ArthFact>, x: seq<ArthFact>)
  {
    |e| == |bbs| + 1 && |x| == |bbs| + 1 && |reach| == |bbs| + 1 && |ins| == |bbs| + 1 &&
    forall b | 0 <= b < |bbs| && reach[b] ::
      e[b].Known? && x[b] == BlockTransfer(irs, bbs, b, e[b]) && Absorbs(Meet, ins[b], reach, x, e[b])
  }

  /**
   * The solution is sound along every edge c -> b between reachable blocks: if c's in-map
   * holds in the store on entry to c, then b's in-map holds in the store after running c.
   */
  lemma EdgeSound(irs: seq<Instr>, bbs: seq<Block>, ins: seq<seq<nat>>, reach: seq<bool>,
                  e: seq<ArthFact>, x: seq<ArthFact>, b: nat, k: nat, s0: Store, s: Store)
    requires Solution(irs, bbs, ins, reach, e, x) && BlocksSound(irs, bbs)
    requires b < |bbs| && reach[b] && k < |ins[b]| && ins[b][k] < |bbs| && reach[ins[b][k]]
    requires Holds(e[ins[b][k]].m, s0)
    requires HeaderFirst(e[ins[b][k]].m, irs[bbs[ins[b][k]].start..bbs[ins[b][k]].end])
    requires Run(s0, irs[bbs[ins[b][k]].start..bbs[ins[b][k]].end], s)
    ensures Holds(e[b].m, s)
  {
    var c := ins[b][k];
    TransferSeqSound(e[c].m, irs[bbs[c].start..bbs[c].end], s0, s);
    assert Meet(e[b], x[c]) == e[b];
    forall d | d in e[b].m ensures Means(s, d, e[b].m[d]) {
      MeetIsLowerBound(e[b], x[c], d);
    }
  }

  /**
   * What the sweep leaves at a position is sound: when the block's in-map holds on entry
   * and execution of the original block reaches position q in store s, the simplified
   * instruction can stand in for the original, and a branch decides the same way.
   */
  lemma RewriteSound(irs0: seq<Instr>, bbs: seq<Block>, e: seq<ArthFact>, b: nat, q: nat, final: bool,
                     steps: nat, s0: Store, s: Store)
    requires b < |bbs| && b < |e| && e[b].Known? && bbs[b].start <= q < |irs0|
    requires Holds(e[b].m, s0) && HeaderFirst(e[b].m, irs0[bbs[b].start..q])
    requires Run(s0, irs0[bbs[b].start..q], s)
    ensures RefinesAt(s, irs0[q], SimpAt(irs0, bbs, e, b, q, irs0[q], final, steps))
    ensures irs0[q].Branch? ==> var y := SimpAt(irs0, bbs, e, b, q, irs0[q], final, steps);
      y.Branch? && Taken(s, y.opr1, y.opr2, y.rel) == Taken(s, irs0[q].opr1, irs0[q].opr2, irs0[q].rel)
  {
    var m := InAt(e[b].m, irs0, bbs[b].start, q);
    TransferSeqSound(e[b].m, irs0[bbs[b].start..q], s0, s);
    SimpSound(m, irs0[q], final, steps, s);
  }

  /** Block in-maps the driver starts from: the entry block's is empty, every other is top. */
  function EntryMaps(n: nat): (e0: seq<ArthFact>)
    ensures |e0| == n + 1 && e0[0] == Known(map[])
    ensures forall b | 0 < b <= n :: e0[b].Top?
  {
    seq(n + 1, (b: nat) => if b == 0 then Known(map[]) else Top)
  }

  /**
   * One function (`ir_arthprog`'s loop body): the forward analysis with the intersection
   * meet, then `ir_arthsimp_bb` on every reachable block under the maps found, then
   * `build_cfg`. The sweep runs only when the driver reached its fixpoint.
   */
  method ArthprogCfg(cfg: Cfg, final: bool, fuel: nat, steps: nat)
    returns (opt: bool, done: bool, ghost e: seq<ArthFact>, ghost x: seq<ArthFact>, ghost simped: seq<Instr>)
    requires Ready(cfg)
    modifies cfg
    ensures Ready(cfg) && cfg.bbs == old(cfg.bbs) && cfg.labels.Keys == old(cfg.labels.Keys)
    ensures cfg.reachable == old(cfg.reachable)
    ensures AllRelate(old(cfg.irs), simped) && OnlyNops(simped, cfg.irs) && AllRelate(old(cfg.irs), cfg.irs)
    ensures !done ==> simped == old(cfg.irs) && !opt
    ensures done ==> Solution(old(cfg.irs), cfg.bbs, old(cfg.ins), old(cfg.bbReach), e, x)
    ensures done ==> SweptBlocks(old(cfg.irs), simped, cfg.bbs, old(cfg.bbReach),
                                 SimpRewrite(old(cfg.irs), cfg.bbs, e, final, steps), |cfg.bbs|)
    ensures opt <==> simped != old(cfg.irs)
  {
    var irs, bbs, n := cfg.irs, cfg.bbs, |cfg.bbs|;
    var trans := (b: nat, f: ArthFact) => BlockTransfer(irs, bbs, b, f);
    ArthMeetLaws();
    var e0 := EntryMaps(n);
    var x0: seq<ArthFact> := seq(n + 1, _ => Top);
    var e1, x1, d := IterCfg(cfg.outs, cfg.ins, cfg.bbReach, n, true, Meet, Skip, trans, e0, x0, fuel);
    e, x, done := e1, x1, d;
    opt := false;
    if done {
      forall b | 0 <= b < n && cfg.bbReach[b]
        ensures e[b].Known? && x[b] == BlockTransfer(irs, bbs, b, e[b]) && Absorbs(Meet, cfg.ins[b], cfg.bbReach, x, e[b])
      {
        assert Stable(cfg.ins, cfg.bbReach, Meet, Skip, trans, e, x, b);
      }
      SimpRewriteFits(irs, bbs, e1, final, steps);
      opt := SweepCfg(cfg, SimpRewrite(irs, bbs, e1, final, steps));
    } else {
      assert AllFit(irs, cfg.irs);
    }
    simped := cfg.irs;
    AllFitRelates(irs, cfg.irs);
    RelateReady(irs, cfg.irs, bbs, cfg.labelBlock);
    Rebuild(cfg);
    RelateThenNops(irs, simped, cfg.irs);
  }

  /** What the analysis and the simplification of one function gave: where the driver
      drained, the facts solve the equations of its graph and every reachable block was
      rewritten under them (simped); elsewhere the code is untouched; the flag is raised
      exactly when the simplification changed something. */
  ghost predicate Simplified(irs0: seq<Instr>, bbs: seq<Block>, ins0: seq<seq<nat>>, reach0: seq<bool>,
                             final: bool, steps: nat, done: bool, e: seq<ArthFact>, x: seq<ArthFact>,
                             simped: seq<Instr>, opt: bool)
  {
    (done ==> Solution(irs0, bbs, ins0, reach0, e, x) &&
              SweptBlocks(irs0, simped, bbs, reach0, SimpRewrite(irs0, bbs, e, final, steps), |bbs|)) &&
    (!done ==> simped == irs0) &&
    (opt <==> simped != irs0)
  }

  /** Simplified holds of every reachable function below n, and an unreachable one kept its
      code and did not raise the flag (stated one function at a time; AllSimplifiedAt reads
      it back). */
  ghost predicate AllSimplified(irs0: seq<seq<Instr>>, bbs0: seq<seq<Block>>, ins0: seq<seq<seq<nat>>>,
                                bbr0: seq<seq<bool>>, reach0: seq<bool>, final: bool, steps: nat,
                                opts: seq<bool>, dones: seq<bool>, es: seq<seq<ArthFact>>, xs: seq<seq<ArthFact>>,
                                simps: seq<seq<Instr>>, n: nat)
    decreases n
  {
    n <= |irs0| && n <= |bbs0| && n <= |ins0| && n <= |bbr0| && n <= |reach0| &&
    |opts| == |dones| == |es| == |xs| == |simps| == n &&
    (n > 0 ==>
      AllSimplified(irs0, bbs0, ins0, bbr0, reach0, final, steps, opts[..n - 1], dones[..n - 1], es[..n - 1],
                    xs[..n - 1], simps[..n - 1], n - 1) &&
      if reach0[n - 1] then
        Simplified(irs0[n - 1], bbs0[n - 1], ins0[n - 1], bbr0[n - 1], final, steps, dones[n - 1], es[n - 1],
                   xs[n - 1], simps[n - 1], opts[n - 1])
      else !opts[n - 1] && simps[n - 1] == irs0[n - 1])
  }

  /** AllSimplified, read at function i. */
  lemma {:induction false} AllSimplifiedAt(irs0: seq<seq<Instr>>, bbs0: seq<seq<Block>>, ins0: seq<seq<seq<nat>>>,
                                           bbr0: seq<seq<bool>>, reach0: seq<bool>, final: bool, steps: nat,
                                           opts: seq<bool>, dones: seq<bool>, es: seq<seq<ArthFact>>,
                                           xs: seq<seq<ArthFact>>, simps: seq<seq<Instr>>, n: nat, i: nat)
    requires AllSimplified(irs0, bbs0, ins0, bbr0, reach0, final, steps, opts, dones, es, xs, simps, n)
    requires i < n
    ensures reach0[i] ==>
      Simplified(irs0[i], bbs0[i], ins0[i], bbr0[i], final, steps, dones[i], es[i], xs[i], simps[i], opts[i])
    ensures !reach0[i] ==> !opts[i] && simps[i] == irs0[i]
    decreases n
  {
    if i < n - 1 {
      AllSimplifiedAt(irs0, bbs0, ins0, bbr0, reach0, final, steps, opts[..n - 1], dones[..n - 1], es[..n - 1],
                      xs[..n - 1], simps[..n - 1], n - 1, i);
    }
  }

  /** Appending the outcome of function n extends AllSimplified to n + 1. */
  lemma AllSimplifiedSnoc(irs0: seq<seq<Instr>>, bbs0: seq<seq<Block>>, ins0: seq<seq<seq<nat>>>,
                          bbr0: seq<seq<bool>>, reach0: seq<bool>, final: bool, steps: nat,
                          opts: seq<bool>, dones: seq<bool>, es: seq<seq<ArthFact>>, xs: seq<seq<ArthFact>>,
                          simps: seq<seq<Instr>>, n: nat,
                          o: bool, d: bool, e: seq<ArthFact>, x: seq<ArthFact>, sp: seq<Instr>)
    requires AllSimplified(irs0, bbs0, ins0, bbr0, reach0, final, steps, opts, dones, es, xs, simps, n)
    requires n < |irs0| && n < |bbs0| && n < |ins0| && n < |bbr0| && n < |reach0|
    requires if reach0[n] then Simplified(irs0[n], bbs0[n], ins0[n], bbr0[n], final, steps, d, e, x, sp, o)
             else !o && sp == irs0[n]
    ensures AllSimplified(irs0, bbs0, ins0, bbr0, reach0, final, steps, opts + [o], dones + [d], es + [e],
                          xs + [x], simps + [sp], n + 1)
  {
    assert (opts + [o])[..n] == opts && (dones + [d])[..n] == dones;
    assert (es + [e])[..n] == es && (xs + [x])[..n] == xs && (simps + [sp])[..n] == simps;
  }

  /** One turn of the loop of `ir_arthprog`: function i, when it is reachable. */
  method ArthprogOne(cfg: Cfg, final: bool, fuel: nat, steps: nat, ghost irs0: seq<Instr>, ghost keys0: set<nat>,
                     ghost reach0: bool, ghost bbs0: seq<Block>, ghost ins0: seq<seq<nat>>, ghost bbr0: seq<bool>)
    returns (opt: bool, ghost done: bool, ghost e: seq<ArthFact>, ghost x: seq<ArthFact>, ghost simped: seq<Instr>)
    requires GraphRewritten(cfg, irs0, keys0, reach0) && cfg.irs == irs0
    requires cfg.bbs == bbs0 && cfg.ins == ins0 && cfg.bbReach == bbr0
    modifies cfg
    ensures GraphRewritten(cfg, irs0, keys0, reach0) && OnlyNops(simped, cfg.irs)
    ensures if reach0 then Simplified(irs0, bbs0, ins0, bbr0, final, steps, done, e, x, simped, opt)
            else !opt && simped == irs0
  {
    opt, done, e, x, simped := false, false, [], [], irs0;
    if cfg.reachable {
      opt, done, e, x, simped := ArthprogCfg(cfg, final, fuel, steps);
    }
  }

  /** The state of the loop of `ir_arthprog` before function i: every graph is still ready
      and related to its snapshot, those from i on are untouched, and those below i were
      simplified and rebuilt. */
  ghost predicate Halfway(cfgs: seq<Cfg>, irs0: seq<seq<Instr>>, keys0: seq<set<nat>>, reach0: seq<bool>,
                          bbs0: seq<seq<Block>>, ins0: seq<seq<seq<nat>>>, bbr0: seq<seq<bool>>, final: bool,
                          steps: nat, opts: seq<bool>, dones: seq<bool>, es: seq<seq<ArthFact>>,
                          xs: seq<seq<ArthFact>>, simps: seq<seq<Instr>>, i: nat)
    reads cfgs
  {
    i <= |cfgs| && DistinctCfgs(cfgs) && Snapshot0Lengths(cfgs, irs0, keys0, reach0, bbs0, ins0, bbr0) &&
    (forall j | 0 <= j < |cfgs| :: GraphRewritten(cfgs[j], irs0[j], keys0[j], reach0[j])) &&
    (forall j | i <= j < |cfgs| ::
       cfgs[j].irs == irs0[j] && cfgs[j].bbs == bbs0[j] && cfgs[j].ins == ins0[j] && cfgs[j].bbReach == bbr0[j]) &&
    AllSimplified(irs0, bbs0, ins0, bbr0, reach0, final, steps, opts, dones, es, xs, simps, i) &&
    forall j | 0 <= j < i :: OnlyNops(simps[j], cfgs[j].irs)
  }

  /** The snapshots have one entry per graph. */
  predicate Snapshot0Lengths(cfgs: seq<Cfg>, irs0: seq<seq<Instr>>, keys0: seq<set<nat>>, reach0: seq<bool>,
                             bbs0: seq<seq<Block>>, ins0: seq<seq<seq<nat>>>, bbr0: seq<seq<bool>>)
  {
    |irs0| == |keys0| == |reach0| == |bbs0| == |ins0| == |bbr0| == |cfgs|
  }

  /** Turn i of the loop of `ir_arthprog`: function i is simplified and its outcome appended. */
  method ArthprogNext(cfgs: seq<Cfg>, i: nat, final: bool, fuel: nat, steps: nat, ghost irs0: seq<seq<Instr>>,
                      ghost keys0: seq<set<nat>>, ghost reach0: seq<bool>, ghost bbs0: seq<seq<Block>>,
                      ghost ins0: seq<seq<seq<nat>>>, ghost bbr0: seq<seq<bool>>, ghost opts: seq<bool>,
                      ghost dones: seq<bool>, ghost es: seq<seq<ArthFact>>, ghost xs: seq<seq<ArthFact>>,
                      ghost simps: seq<seq<Instr>>)
    returns (o: bool, ghost opts1: seq<bool>, ghost dones1: seq<bool>, ghost es1: seq<seq<ArthFact>>,
             ghost xs1: seq<seq<ArthFact>>, ghost simps1: seq<seq<Instr>>)
    requires i < |cfgs|
    requires Halfway(cfgs, irs0, keys0, reach0, bbs0, ins0, bbr0, final, steps, opts, dones, es, xs, simps, i)
    modifies cfgs
    ensures Halfway(cfgs, irs0, keys0, reach0, bbs0, ins0, bbr0, final, steps, opts1, dones1, es1, xs1, simps1, i + 1)
    ensures opts1 == opts + [o]
  {
    OthersApart(cfgs, i);
    ghost var d, e, x, sp;
    o, d, e, x, sp := ArthprogOne(cfgs[i], final, fuel, steps, irs0[i], keys0[i], reach0[i], bbs0[i], ins0[i], bbr0[i]);
    AllSimplifiedSnoc(irs0, bbs0, ins0, bbr0, reach0, final, steps, opts, dones, es, xs, simps, i, o, d, e, x, sp);
    opts1, dones1, es1, xs1, simps1 := opts + [o], dones + [d], es + [e], xs + [x], simps + [sp];
  }

  /** The loop of `ir_arthprog` over the functions: each reachable one is analysed and
      simplified; the result is raised when some function's simplification changed it.
      `build_cfg` left each function with its simplified code, at most some instructions
      turned into nops. */
  method ArthprogCfgs(cfgs: seq<Cfg>, final: bool, fuel: nat, steps: nat, ghost irs0: seq<seq<Instr>>,
                      ghost keys0: seq<set<nat>>, ghost reach0: seq<bool>, ghost bbs0: seq<seq<Block>>,
                      ghost ins0: seq<seq<seq<nat>>>, ghost bbr0: seq<seq<bool>>)
    returns (opt: bool, ghost opts: seq<bool>, ghost dones: seq<bool>, ghost es: seq<seq<ArthFact>>,
             ghost xs: seq<seq<ArthFact>>, ghost simps: seq<seq<Instr>>)
    requires DistinctCfgs(cfgs) && forall i | 0 <= i < |cfgs| :: Ready(cfgs[i])
    requires Snapshot(cfgs, irs0, keys0, reach0) && FlowSnapshot(cfgs, bbs0, ins0, bbr0)
    modifies cfgs
    ensures Rewritten(cfgs, irs0, keys0, reach0)
    ensures AllSimplified(irs0, bbs0, ins0, bbr0, reach0, final, steps, opts, dones, es, xs, simps, |cfgs|)
    ensures forall j | 0 <= j < |cfgs| :: OnlyNops(simps[j], cfgs[j].irs)
    ensures opt <==> true in opts
  {
    opt := false;
    opts, dones, es, xs, simps := [], [], [], [], [];
    for i := 0 to |cfgs|
      invariant Halfway(cfgs, irs0, keys0, reach0, bbs0, ins0, bbr0, final, steps, opts, dones, es, xs, simps, i)
      invariant opt <==> true in opts
    {
      var o: bool;
      o, opts, dones, es, xs, simps := ArthprogNext(cfgs, i, final, fuel, steps, irs0, keys0, reach0, bbs0, ins0,
                                                    bbr0, opts, dones, es, xs, simps);
      opt := opt || o;
    }
  }

  /**
   * `ir_arthprog`: every reachable function is analysed, simplified and has its graph
   * rebuilt. The result is `do_opt`, raised when the simplification of some reachable
   * function changed it; every function whose analysis drained was rewritten under a
   * solution of its equations, and `build_cfg` at most turned labels of the rewritten
   * code into nops. Reachability of the functions is not rechecked.
   */
  method ArthprogProgram(prog: Program, final: bool, fuel: nat, steps: nat)
    returns (opt: bool, ghost opts: seq<bool>, ghost dones: seq<bool>, ghost es: seq<seq<ArthFact>>,
             ghost xs: seq<seq<ArthFact>>, ghost simps: seq<seq<Instr>>)
    requires ProgramReady(prog)
    modifies prog.cfgs
    ensures ProgramReady(prog)
    ensures PassRelates(old(IrsOf(prog.cfgs)), IrsOf(prog.cfgs), old(ReachOf(prog.cfgs)))
    ensures AllSimplified(old(IrsOf(prog.cfgs)), old(BbsOf(prog.cfgs)), old(InsOf(prog.cfgs)),
                          old(BbReachOf(prog.cfgs)), old(ReachOf(prog.cfgs)), final, steps,
                          opts, dones, es, xs, simps, |prog.cfgs|)
    ensures forall j | 0 <= j < |prog.cfgs| :: OnlyNops(simps[j], prog.cfgs[j].irs)
    ensures opt <==> true in opts
  {
    ghost var irs0, keys0, reach0 := IrsOf(prog.cfgs), KeysOf(prog.cfgs), ReachOf(prog.cfgs);
    ghost var bbs0, ins0, bbr0 := BbsOf(prog.cfgs), InsOf(prog.cfgs), BbReachOf(prog.cfgs);
    ReadyParts(prog, irs0, keys0, reach0);
    opt, opts, dones, es, xs, simps := ArthprogCfgs(prog.cfgs, final, fuel, steps, irs0, keys0, reach0,
                                                    bbs0, ins0, bbr0);
    StillReady(prog, irs0, keys0, reach0);
  }
}
