/**
 * Constant propagation and folding (`ir_constant`): a three-point lattice
 * value per variable, propagated forward over the blocks by the worklist
 * driver, then used to fold operands, arithmetic and branches in place.
 */
module ConstantPass {
  import opened Base
  import opened IrTypes
  import opened IrEval
  import opened Container
  import opened Dataflow
  import opened IrProgram
  import opened CfgBuild
  import opened Passes

  /* ------------------------------------------------------------------ */
  /* The lattice and its machine encoding                                */
  /* ------------------------------------------------------------------ */

  /** A variable's abstract value: no definition seen yet (UNDEF), not a constant (NAC),
      or the C `int` c. */
  datatype CVal = Undef | Nac | Con(c: int)

  /** The 64-bit word that stands for an abstract value, read as an unsigned number:
      UNDEF is the null pointer, NAC is 2, and a constant has its low 32 bits in the high
      word and 3 in the low word (the shift of the 64-bit conversion drops everything above
      bit 31 of the constant). */
  function Enc(v: CVal): (w: nat)
    ensures w < TWO32 * TWO32
  {
    match v
    case Undef => 0
    case Nac => 2
    case Con(c) => (c % TWO32) * TWO32 + 3
  }

  /** `ISCON`: the low word is 3. */
  predicate IsConWord(w: nat)
  {
    w % TWO32 == 3
  }

  /** `CON2I`: the high word, read back as a C `int`. */
  function Con2I(w: nat): int
  {
    Wrap32(w / TWO32)
  }

  /** Only constants carry the constant tag, and a C `int` constant reads back as itself. */
  lemma EncodingRoundTrip(v: CVal)
    ensures IsConWord(Enc(v)) <==> v.Con?
    ensures v.Con? && IsInt32(v.c) ==> Con2I(Enc(v)) == v.c
  {
    if v.Con? {
      var m := v.c % TWO32;
      assert Enc(v) / TWO32 == m && Enc(v) % TWO32 == 3;
      assert (m - v.c) % TWO32 == 0;
      Wrap32Congruent(m, v.c);
    }
  }

  /** A lattice value whose constant is a C `int`, as every value the pass computes is. */
  predicate Wf(v: CVal)
  {
    v.Con? ==> IsInt32(v.c)
  }

  /** The word comparisons of the C code are comparisons of the values: the encoding is
      one-to-one on well-formed values. */
  lemma EncodingInjective(a: CVal, b: CVal)
    requires Wf(a) && Wf(b)
    ensures Enc(a) == Enc(b) <==> a == b
  {
    EncodingRoundTrip(a);
    EncodingRoundTrip(b);
  }

  /* ------------------------------------------------------------------ */
  /* The meet                                                            */
  /* ------------------------------------------------------------------ */

  /** `consmap_comb`: NAC absorbs, UNDEF is the identity, equal constants are kept and
      different constants give NAC. */
  function Comb(a: CVal, b: CVal): (r: CVal)
  {
    if a == Nac || b == Nac then Nac
    else if a == Undef then b
    else if b == Undef then a
    else if a == b then a
    else Nac
  }

  /** v tells the truth about the concrete value n: a constant is exactly n; UNDEF and
      NAC claim nothing. */
  predicate Describes(v: CVal, n: int)
  {
    v.Con? ==> v.c == n
  }

  /** The meet is the least upper bound of the flat lattice UNDEF < constants < NAC. */
  lemma CombIsJoin(a: CVal, b: CVal)
    ensures Comb(a, b) == Comb(b, a)
    ensures Comb(a, Undef) == a && Comb(a, Nac) == Nac && Comb(a, a) == a
    ensures a.Con? && b.Con? && a != b ==> Comb(a, b) == Nac
    ensures Comb(a, b) == Undef <==> a == Undef && b == Undef
    ensures forall c :: Comb(Comb(a, b), c) == Comb(a, Comb(b, c))
  {
  }

  /** Meeting two true facts about the same value gives a true fact. */
  lemma CombSound(a: CVal, b: CVal, n: int)
    requires Describes(a, n) && Describes(b, n)
    ensures Describes(Comb(a, b), n)
  {
  }

  /* ------------------------------------------------------------------ */
  /* Facts: one lattice value per variable                               */
  /* ------------------------------------------------------------------ */

  /** The map of one program point; a variable that is not a key is UNDEF, since putting
      UNDEF (the null pointer) removes the key. */
  type Facts = map<nat, CVal>

  function Get(m: Facts, v: nat): CVal
  {
    if v in m then m[v] else Undef
  }

  /** `hmap_put`: a NULL value removes the key. */
  function Put(m: Facts, v: nat, c: CVal): (r: Facts)
    ensures Get(r, v) == c && forall w | w != v :: Get(r, w) == Get(m, w)
    ensures Canonical(m) ==> Canonical(r)
  {
    if c == Undef then m - {v} else m[v := c]
  }

  /** No key is bound to UNDEF: the form every map of the pass is in. */
  predicate Canonical(m: Facts)
  {
    forall v | v in m :: m[v] != Undef
  }

  /** Canonical maps are equal exactly when they agree on every variable. */
  lemma CanonicalExt(a: Facts, b: Facts)
    requires Canonical(a) && Canonical(b) && forall v :: Get(a, v) == Get(b, v)
    ensures a == b
  {
    forall v | v in a ensures v in b && a[v] == b[v] {
      assert Get(a, v) == Get(b, v);
    }
    forall v | v in b ensures v in a {
      assert Get(a, v) == Get(b, v);
    }
  }

  /** `consmap_comb` as `hmap_combine` calls it, with NULL for a missing key. */
  function CombOpt(k: nat, a: Option<CVal>, b: Option<CVal>): Option<CVal>
  {
    var r := Comb(if a.Some? then a.value else Undef, if b.Some? then b.value else Undef);
    if r == Undef then None else Some(r)
  }

  /** `ir_constant_meet`: the block's in-map combined with a predecessor's out-map. */
  function Meet(a: Facts, b: Facts): Facts
  {
    CombineMap(a, b, CombOpt)
  }

  /** The meet works variable by variable and yields a canonical map. */
  lemma MeetPointwise(a: Facts, b: Facts)
    ensures Canonical(Meet(a, b))
    ensures forall v :: Get(Meet(a, b), v) == Comb(Get(a, v), Get(b, v))
  {
    var f := FirstPass(a, b, CombOpt);
    forall v ensures Get(Meet(a, b), v) == Comb(Get(a, v), Get(b, v)) {
      if v in a {
        assert GetOpt(b, v) == (if v in b then Some(b[v]) else None);
      }
    }
  }

  /** The meet satisfies the laws the worklist driver relies on. */
  lemma MeetIsSemilattice()
    ensures MeetLaws(Meet)
  {
    forall a: Facts, b: Facts ensures Meet(Meet(a, b), b) == Meet(a, b) {
      MeetPointwise(a, b);
      MeetPointwise(Meet(a, b), b);
      forall v ensures Get(Meet(Meet(a, b), b), v) == Get(Meet(a, b), v) {
        CombIsJoin(Get(a, v), Get(b, v));
      }
      CanonicalExt(Meet(Meet(a, b), b), Meet(a, b));
    }
    forall a: Facts, b: Facts, c: Facts ensures Meet(Meet(a, b), c) == Meet(Meet(a, c), b) {
      MeetPointwise(a, b);
      MeetPointwise(Meet(a, b), c);
      MeetPointwise(a, c);
      MeetPointwise(Meet(a, c), b);
      forall v ensures Get(Meet(Meet(a, b), c), v) == Get(Meet(Meet(a, c), b), v) {
        CombIsJoin(Get(a, v), Get(b, v));
        CombIsJoin(Get(a, v), Get(c, v));
        CombIsJoin(Get(b, v), Get(c, v));
      }
      CanonicalExt(Meet(Meet(a, b), c), Meet(Meet(a, c), b));
    }
  }

  /* ------------------------------------------------------------------ */
  /* Evaluation on abstract values                                       */
  /* ------------------------------------------------------------------ */

  /** The operator `calc_constant` evaluates: an arithmetic one, or a comparison giving 0/1. */
  datatype CalcOp = ArithC(op: ArithOp) | RelC(rel: Relop)

  /** What a `CalcOp` computes on C `int`s, when it is defined. */
  function Concrete(op: CalcOp, x: int, y: int): int
    requires op.ArithC? ==> ArthDefined(op.op, y)
  {
    match op
    case ArithC(o) => ArthVal(o, x, y)
    case RelC(r) => if EvalRelop(r, x, y) then 1 else 0
  }

  /** `calc_constant`: a known zero factor gives 0, a division by a known zero gives
      UNDEF, two constants are evaluated, and otherwise the result is UNDEF when either
      side is, and NAC when not. */
  function Calc(v1: CVal, v2: CVal, op: CalcOp): (r: CVal)
    ensures Wf(v1) && Wf(v2) ==> Wf(r)
  {
    if op == ArithC(Star) && (v1 == Con(0) || v2 == Con(0)) then Con(0)
    else if op == ArithC(Div) && v2 == Con(0) then Undef
    else if v1.Con? && v2.Con? then Con(Concrete(op, v1.c, v2.c))
    else if v1 == Undef || v2 == Undef then Undef
    else Nac
  }

  /** Evaluating on true facts gives a true fact; the result is UNDEF only when an operand
      is, or for a division by a known zero. */
  lemma CalcSound(v1: CVal, v2: CVal, op: CalcOp, x: int, y: int)
    requires Describes(v1, x) && Describes(v2, y) && IsInt32(x) && IsInt32(y)
    requires op.ArithC? ==> ArthDefined(op.op, y)
    ensures Describes(Calc(v1, v2, op), Concrete(op, x, y))
    ensures Calc(v1, v2, op) == Undef ==> v1 == Undef || v2 == Undef || (op == ArithC(Div) && v2 == Con(0))
  {
    if op == ArithC(Star) && (v1 == Con(0) || v2 == Con(0)) {
      assert x * y == 0;
    }
  }

  /** `map_get_constant`: an immediate is its own constant, a variable is looked up. */
  function GetC(m: Facts, o: Opr): (r: CVal)
    ensures o.Var? ==> r == Get(m, o.id)
    ensures o.Imm? ==> r == Con(Wrap32(o.val))
  {
    match o
    case Imm(k) => Con(Wrap32(k))
    case Var(v) => Get(m, v)
  }

  /** Every fact in m is true in store s. */
  ghost predicate DescribesStore(m: Facts, s: Store)
  {
    forall v: nat :: Describes(Get(m, v), Val(s, v))
  }

  lemma GetCSound(m: Facts, s: Store, o: Opr)
    requires DescribesStore(m, s)
    ensures Describes(GetC(m, o), OprVal(s, o))
  {
  }

  /* ------------------------------------------------------------------ */
  /* Transfer                                                            */
  /* ------------------------------------------------------------------ */

  /** Every variable of vs gets c. */
  function PutAll(m: Facts, vs: seq<nat>, c: CVal): (r: Facts)
    ensures forall v :: Get(r, v) == if v in vs then c else Get(m, v)
    ensures Canonical(m) ==> Canonical(r)
    decreases |vs|
  {
    if |vs| == 0 then m else Put(PutAll(m, vs[..|vs| - 1], c), vs[|vs| - 1], c)
  }

  /**
   * The transfer visitors: a function header makes its parameters NAC, a move copies
   * its source's value, `x-x` gives 0 and `x/x` gives 1, other arithmetic is evaluated
   * by `calc_constant`, and an address, a load, a call and a read give NAC. The
   * other instructions change nothing. Only the defined variables change.
   */
  function Transfer(m: Facts, x: Instr): (r: Facts)
    ensures forall v | v !in Defs(x) :: Get(r, v) == Get(m, v)
    ensures Canonical(m) ==> Canonical(r)
  {
    match x
    case Func(_, ps) => PutAll(m, ps, Nac)
    case Mov(l, rhs) => Put(m, l, GetC(m, rhs))
    case Arth(l, a, b, op) =>
      if op == Minus && a == b then Put(m, l, Con(0))
      else if op == Div && a == b then Put(m, l, Con(1))
      else Put(m, l, Calc(GetC(m, a), GetC(m, b), ArithC(op)))
    case Addr(l, _) => Put(m, l, Nac)
    case Load(l, _) => Put(m, l, Nac)
    case Call(l, _, _) => Put(m, l, Nac)
    case Read(l) => Put(m, l, Nac)
    case _ => m
  }

  /** The transfer is sound: true facts before an instruction give true facts after it. */
  lemma TransferSound(m: Facts, x: Instr, s1: Store, s2: Store)
    requires DescribesStore(m, s1) && Step(s1, x, s2)
    ensures DescribesStore(Transfer(m, x), s2)
  {
    var r := Transfer(m, x);
    forall v: nat ensures Describes(Get(r, v), Val(s2, v)) {
      if v !in Defs(x) {
        assert Val(s2, v) == Val(s1, v);
      } else if x.Mov? {
        GetCSound(m, s1, x.rhs);
      } else if x.Arth? {
        ArthTransferSound(m, x, s1, s2);
      }
    }
  }

  /** The arithmetic case of TransferSound: the fact for the destination is true. */
  lemma ArthTransferSound(m: Facts, x: Instr, s1: Store, s2: Store)
    requires x.Arth? && DescribesStore(m, s1) && Step(s1, x, s2)
    ensures Describes(Get(Transfer(m, x), x.lhs), Val(s2, x.lhs))
  {
    var a, b := OprVal(s1, x.opr1), OprVal(s1, x.opr2);
    if x.op == Minus && x.opr1 == x.opr2 {
      assert ArthVal(Minus, a, b) == 0;
    } else if x.op == Div && x.opr1 == x.opr2 {
      assert Abs(TruncDiv(a, b)) == 1;
      assert ArthVal(Div, a, b) == 1;
    } else {
      GetCSound(m, s1, x.opr1);
      GetCSound(m, s1, x.opr2);
      CalcSound(GetC(m, x.opr1), GetC(m, x.opr2), ArithC(x.op), a, b);
    }
  }

  /** `ir_constant_transfer_bb`: the instructions of a block in order, each one's in-map
      being the previous one's out-map. */
  function TransferSeq(m: Facts, xs: seq<Instr>): (r: Facts)
    ensures Canonical(m) ==> Canonical(r)
    decreases |xs|
  {
    if |xs| == 0 then m else Transfer(TransferSeq(m, xs[..|xs| - 1]), xs[|xs| - 1])
  }

  /** A block's transfer is sound for every straight-line run of the block. */
  lemma {:induction false} TransferSeqSound(m: Facts, xs: seq<Instr>, s1: Store, s2: Store)
    requires DescribesStore(m, s1) && Run(s1, xs, s2)
    ensures DescribesStore(TransferSeq(m, xs), s2)
    decreases |xs|
  {
    if |xs| == 0 {
      assert forall v: nat :: Val(s2, v) == Val(s1, v);
    } else {
      var s :| Step(s1, xs[0], s) && Run(s, xs[1..], s2);
      TransferSound(m, xs[0], s1, s);
      TransferSeqSound(Transfer(m, xs[0]), xs[1..], s, s2);
      TransferSeqFront(m, xs);
    }
  }

  /** The block transfer read from the front: the first instruction, then the rest. */
  lemma {:induction false} TransferSeqFront(m: Facts, xs: seq<Instr>)
    requires |xs| > 0
    ensures TransferSeq(m, xs) == TransferSeq(Transfer(m, xs[0]), xs[1..])
    decreases |xs|
  {
    if |xs| > 1 {
      var front := xs[..|xs| - 1];
      TransferSeqFront(m, front);
      assert front[1..] == xs[1..][..|xs[1..]| - 1];
      assert front[0] == xs[0];
    }
  }

  /* ------------------------------------------------------------------ */
  /* Folding                                                             */
  /* ------------------------------------------------------------------ */

  /** `to_constant`: a variable known constant becomes that immediate and an UNDEF one
      becomes `#0`; an immediate or a NAC variable is kept. */
  function ToConst(m: Facts, o: Opr): (r: Opr)
  {
    if o.Imm? then o
    else match Get(m, o.id)
      case Con(c) => Imm(c)
      case Undef => Imm(0)
      case Nac => o
  }

  /** Whether `to_constant` replaced the operand (it then raises the `do_opt` flag). */
  predicate Replaces(m: Facts, o: Opr)
  {
    o.Var? && Get(m, o.id) != Nac
  }

  /** `to_constant` changes an operand exactly when it raises the flag, and leaves an
      operand that is not UNDEF with the same value in every store its facts describe. */
  lemma ToConstSound(m: Facts, o: Opr, s: Store)
    requires DescribesStore(m, s) && (o.Var? ==> Get(m, o.id) != Undef)
    ensures OprVal(s, ToConst(m, o)) == OprVal(s, o)
    ensures ToConst(m, o) != o <==> Replaces(m, o)
    ensures ToConst(m, o).Var? ==> ToConst(m, o) == o
  {
  }

  /** The operands a fold reads from the in-map. */
  function FoldedOprs(x: Instr): seq<Opr>
  {
    match x
    case Mov(_, r) => [r]
    case Arth(_, a, b, _) => [a, b]
    case Store(_, r) => [r]
    case Branch(a, b, _, _, _) => [a, b]
    case Ret(o) => [o]
    case Call(_, _, args) => args
    case Write(o) => [o]
    case _ => []
  }

  /** No operand the fold reads is UNDEF: every variable read has a definition on the way
      in. Reading a variable that no definition reaches has no meaning in the C code
      language, and the pass is free to read it as 0. */
  predicate NoUndefUses(m: Facts, x: Instr)
  {
    forall k | 0 <= k < |FoldedOprs(x)| :: FoldedOprs(x)[k].Var? ==> Get(m, FoldedOprs(x)[k].id) != Undef
  }

  /** `make_mov`: a move of a variable to itself is a nop. */
  function MakeMov(l: nat, r: Opr): (x: Instr)
    ensures Refines(Mov(l, r), x)
  {
    var x := if r == Var(l) then Nop else Mov(l, r);
    assert forall s1, s2 :: Step(s1, Mov(l, r), s2) ==> Step(s1, x, s2) by {
      forall s1, s2 | Step(s1, Mov(l, r), s2) ensures Step(s1, x, s2) {
        if r == Var(l) {
          assert forall v: nat :: Val(s2, v) == Val(s1, v);
        }
      }
    }
    x
  }

  /** A rewritten instruction and whether the rewrite raises `do_opt`. */
  datatype Rewrite = Rewrite(ir: Instr, opt: bool)

  /** The `+` case on folded operands: `0+x` and `x+0` become moves, and an immediate
      first operand is swapped to second. */
  function FoldPlus(l: nat, o1: Opr, o2: Opr, f: bool): Rewrite
  {
    if IsImm(o1, 0) then Rewrite(MakeMov(l, o2), true)
    else if IsImm(o2, 0) then Rewrite(MakeMov(l, o1), true)
    else if o1.Imm? then Rewrite(Arth(l, o2, o1, Plus), f)
    else Rewrite(Arth(l, o1, o2, Plus), f)
  }

  /** The `-` case: `x-0` becomes a move and `x-k` becomes `x+(-k)`. */
  function FoldMinus(l: nat, o1: Opr, o2: Opr, f: bool): Rewrite
  {
    if IsImm(o2, 0) then Rewrite(MakeMov(l, o1), true)
    else if o2.Imm? then Rewrite(Arth(l, o1, Imm(-o2.val), Plus), true)
    else Rewrite(Arth(l, o1, o2, Minus), f)
  }

  /** The `*` case: `2*x` and `x*2` become `x+x` and an immediate first operand is
      swapped to second; control then falls through into the `/` case, which looks at the
      instruction's (possibly swapped) second operand. */
  function FoldStar(l: nat, o1: Opr, o2: Opr, f: bool): Rewrite
  {
    var swap := !IsImm(o1, 2) && !IsImm(o2, 2) && o1.Imm?;
    var n1, n2 := if swap then o2 else o1, if swap then o1 else o2;
    var staged :=
      if IsImm(o1, 2) then Rewrite(Arth(l, o2, o2, Plus), true)
      else if IsImm(o2, 2) then Rewrite(Arth(l, o1, o1, Plus), true)
      else Rewrite(Arth(l, n1, n2, Star), f);
    if IsImm(n2, 1) then Rewrite(MakeMov(l, n1), true) else staged
  }

  /** The `/` case: `x/1` becomes a move. */
  function FoldDiv(l: nat, o1: Opr, o2: Opr, f: bool): Rewrite
  {
    if IsImm(o2, 1) then Rewrite(MakeMov(l, o1), true)
    else Rewrite(Arth(l, o1, o2, Div), f)
  }

  /**
   * The folding of `l := a op b` (in-map m, out-map out): a destination known
   * afterwards becomes a move of that immediate; otherwise the operands are folded
   * and the operator's own case applies.
   */
  function FoldArth(m: Facts, out: Facts, l: nat, a: Opr, b: Opr, op: ArithOp): (r: Rewrite)
    ensures r.ir.Mov? || r.ir.Arth? || r.ir == Nop
  {
    var vl := ToConst(out, Var(l));
    if vl.Imm? then Rewrite(Mov(l, vl), true)
    else
      var o1, o2 := ToConst(m, a), ToConst(m, b);
      var f := Replaces(m, a) || Replaces(m, b);
      match op
      case Plus => FoldPlus(l, o1, o2, f)
      case Minus => FoldMinus(l, o1, o2, f)
      case Star => FoldStar(l, o1, o2, f)
      case Div => FoldDiv(l, o1, o2, f)
  }

  /** Folding the destination: after the arithmetic its fact is true, or NAC. */
  lemma FoldDestSound(m: Facts, x: Instr, s1: Store, s2: Store)
    requires x.Arth? && DescribesStore(m, s1) && NoUndefUses(m, x) && Step(s1, x, s2)
    ensures (Get(Transfer(m, x), x.lhs).Con? && Val(s2, x.lhs) == Get(Transfer(m, x), x.lhs).c)
      || Get(Transfer(m, x), x.lhs) == Nac
  {
    TransferSound(m, x, s1, s2);
    if !(x.op == Minus && x.opr1 == x.opr2) && !(x.op == Div && x.opr1 == x.opr2) {
      assert FoldedOprs(x)[0] == x.opr1 && FoldedOprs(x)[1] == x.opr2;
      GetCSound(m, s1, x.opr1);
      GetCSound(m, s1, x.opr2);
      CalcSound(GetC(m, x.opr1), GetC(m, x.opr2), ArithC(x.op), OprVal(s1, x.opr1), OprVal(s1, x.opr2));
    }
  }

  /** The facts the operator cases may rely on: the folded operands keep the values of
      the original ones, and s2 is what `l := a op b` leaves. */
  ghost predicate ArthOutcome(s1: Store, s2: Store, l: nat, o1: Opr, o2: Opr, op: ArithOp)
  {
    ArthDefined(op, OprVal(s1, o2)) && Val(s2, l) == ArthVal(op, OprVal(s1, o1), OprVal(s1, o2)) &&
    Keeps(s1, s2, {l})
  }

  lemma FoldPlusSound(s1: Store, s2: Store, l: nat, o1: Opr, o2: Opr, f: bool)
    requires ArthOutcome(s1, s2, l, o1, o2, Plus)
    ensures Step(s1, FoldPlus(l, o1, o2, f).ir, s2)
  {
    var va, vb := OprVal(s1, o1), OprVal(s1, o2);
    if IsImm(o1, 0) {
      StepMov(s1, s2, l, o2);
    } else if IsImm(o2, 0) {
      StepMov(s1, s2, l, o1);
    } else if o1.Imm? {
      assert ArthVal(Plus, vb, va) == ArthVal(Plus, va, vb);
      StepArth(s1, s2, l, o2, o1, Plus);
    } else {
      StepArth(s1, s2, l, o1, o2, Plus);
    }
  }

  lemma FoldMinusSound(s1: Store, s2: Store, l: nat, o1: Opr, o2: Opr, f: bool)
    requires ArthOutcome(s1, s2, l, o1, o2, Minus)
    ensures Step(s1, FoldMinus(l, o1, o2, f).ir, s2)
  {
    var va, vb := OprVal(s1, o1), OprVal(s1, o2);
    if IsImm(o2, 0) {
      StepMov(s1, s2, l, o1);
    } else if o2.Imm? {
      MinusImmSound(s1, s2, l, o1, o2.val);
    } else {
      StepArth(s1, s2, l, o1, o2, Minus);
    }
  }

  /** Subtracting an immediate k is adding -k, in 32-bit arithmetic. */
  lemma MinusImmSound(s1: Store, s2: Store, l: nat, o1: Opr, k: int)
    requires ArthOutcome(s1, s2, l, o1, Imm(k), Minus)
    ensures Step(s1, Arth(l, o1, Imm(-k), Plus), s2)
  {
    var va := OprVal(s1, o1);
    assert OprVal(s1, Imm(-k)) == Wrap32(-k) && OprVal(s1, Imm(k)) == Wrap32(k);
    Wrap32Negate(va, k);
    StepArth(s1, s2, l, o1, Imm(-k), Plus);
  }

  lemma FoldStarSound(s1: Store, s2: Store, l: nat, o1: Opr, o2: Opr, f: bool)
    requires ArthOutcome(s1, s2, l, o1, o2, Star)
    ensures Step(s1, FoldStar(l, o1, o2, f).ir, s2)
  {
    var va, vb := OprVal(s1, o1), OprVal(s1, o2);
    var swap := !IsImm(o1, 2) && !IsImm(o2, 2) && o1.Imm?;
    var n1, n2 := if swap then o2 else o1, if swap then o1 else o2;
    assert va * vb == vb * va;
    if IsImm(n2, 1) {
      var v1 := OprVal(s1, n1);
      assert v1 * 1 == v1;
      assert Val(s2, l) == Wrap32(v1 * 1);
      StepMov(s1, s2, l, n1);
    } else if IsImm(o1, 2) {
      assert va == 2 && va * vb == vb + vb;
      StepArth(s1, s2, l, o2, o2, Plus);
    } else if IsImm(o2, 2) {
      assert vb == 2 && va * vb == va + va;
      StepArth(s1, s2, l, o1, o1, Plus);
    } else {
      StepArth(s1, s2, l, n1, n2, Star);
    }
  }

  lemma FoldDivSound(s1: Store, s2: Store, l: nat, o1: Opr, o2: Opr, f: bool)
    requires ArthOutcome(s1, s2, l, o1, o2, Div)
    ensures Step(s1, FoldDiv(l, o1, o2, f).ir, s2)
  {
    if IsImm(o2, 1) {
      assert OprVal(s1, o2) == 1;
      StepMov(s1, s2, l, o1);
    } else {
      StepArth(s1, s2, l, o1, o2, Div);
    }
  }

  /** Folding an arithmetic keeps its meaning. */
  lemma FoldArthSound(m: Facts, x: Instr, s1: Store, s2: Store)
    requires x.Arth? && DescribesStore(m, s1) && NoUndefUses(m, x) && Step(s1, x, s2)
    ensures Step(s1, FoldArth(m, Transfer(m, x), x.lhs, x.opr1, x.opr2, x.op).ir, s2)
  {
    var l, a, b, op := x.lhs, x.opr1, x.opr2, x.op;
    FoldDestSound(m, x, s1, s2);
    if ToConst(Transfer(m, x), Var(l)).Imm? {
      return;
    }
    assert FoldedOprs(x)[0] == a && FoldedOprs(x)[1] == b;
    ToConstSound(m, a, s1);
    ToConstSound(m, b, s1);
    var o1, o2 := ToConst(m, a), ToConst(m, b);
    var f := Replaces(m, a) || Replaces(m, b);
    assert ArthOutcome(s1, s2, l, o1, o2, op);
    match op
    case Plus => FoldPlusSound(s1, s2, l, o1, o2, f);
    case Minus => FoldMinusSound(s1, s2, l, o1, o2, f);
    case Star => FoldStarSound(s1, s2, l, o1, o2, f);
    case Div => FoldDivSound(s1, s2, l, o1, o2, f);
  }

  /** What the fold does to one instruction: rewrite it (raising `do_opt` or not) or,
      for a branch the facts decide, drop it (never taken) or make it a goto (always taken). */
  datatype Fate = Replace(ir: Instr, opt: bool) | Drop | Take

  /** The operands of a call, each through `to_constant`. */
  function FoldOprs(m: Facts, os: seq<Opr>): (r: seq<Opr>)
    ensures |r| == |os| && forall k | 0 <= k < |os| :: r[k] == ToConst(m, os[k])
  {
    seq(|os|, k requires 0 <= k < |os| => ToConst(m, os[k]))
  }

  /** Whether `to_constant` replaced any of the operands. */
  predicate AnyReplaced(m: Facts, os: seq<Opr>)
  {
    exists k | 0 <= k < |os| :: Replaces(m, os[k])
  }

  /** The branch case: a comparison the facts decide to false (or to UNDEF) is dropped, one
      they decide to true becomes a goto; otherwise the operands are folded and an
      immediate first operand is swapped to second, mirroring the operator. */
  function FoldBranch(m: Facts, a: Opr, b: Opr, rel: Relop, t: nat, j: nat): (r: Fate)
  {
    var val := Calc(GetC(m, a), GetC(m, b), RelC(rel));
    if val == Undef || val == Con(0) then Drop
    else if val.Con? then Take
    else
      var o1, o2 := ToConst(m, a), ToConst(m, b);
      var f := Replaces(m, a) || Replaces(m, b);
      if o1.Imm? then Replace(Branch(o2, o1, Mirror(rel), t, j), f)
      else Replace(Branch(o1, o2, rel, t, j), f)
  }

  /** `ir_consfold` on one instruction, given its in-map m and its out-map. */
  function Fold(m: Facts, out: Facts, x: Instr): (r: Fate)
    ensures !x.Branch? ==> r.Replace?
    ensures r.Replace? ==> ShapeKept(x, r.ir)
    ensures r.Replace? && x.IsJump() ==> r.ir.IsJump() && r.ir.target == x.target && r.ir.jid == x.jid
    ensures r.Replace? && !x.IsJump() && !x.Label? ==> !r.ir.IsJump() && !r.ir.Label?
    ensures r.Replace? && r.ir.Call? ==> x.Call? && r.ir.func == x.func
    ensures x.Label? || x.Goto? || x.Nop? || x.Func? ==> r == Replace(x, false)
  {
    match x
    case Mov(l, o) => Replace(Mov(l, ToConst(m, o)), Replaces(m, o))
    case Arth(l, a, b, op) =>
      var w := FoldArth(m, out, l, a, b, op);
      Replace(w.ir, w.opt)
    case Store(v, o) => Replace(Store(v, ToConst(m, o)), Replaces(m, o))
    case Branch(a, b, rel, t, j) => FoldBranch(m, a, b, rel, t, j)
    case Ret(o) => Replace(Ret(ToConst(m, o)), Replaces(m, o))
    case Call(l, f, args) => Replace(Call(l, f, FoldOprs(m, args)), AnyReplaced(m, args))
    case Write(o) => Replace(Write(ToConst(m, o)), Replaces(m, o))
    case _ => Replace(x, false)
  }

  /** A fold that keeps a branch as a branch keeps its outcome, a dropped branch is never
      taken and a branch made a goto is always taken. */
  ghost predicate BranchKept(s: Store, x: Instr, r: Fate)
    requires x.Branch?
  {
    (r.Drop? ==> !Taken(s, x.opr1, x.opr2, x.rel)) &&
    (r.Take? ==> Taken(s, x.opr1, x.opr2, x.rel)) &&
    (r.Replace? ==> r.ir.Branch? && Taken(s, r.ir.opr1, r.ir.opr2, r.ir.rel) == Taken(s, x.opr1, x.opr2, x.rel))
  }

  lemma FoldBranchSound(m: Facts, x: Instr, s: Store)
    requires x.Branch? && DescribesStore(m, s) && NoUndefUses(m, x)
    ensures BranchKept(s, x, FoldBranch(m, x.opr1, x.opr2, x.rel, x.target, x.jid))
  {
    var a, b, rel := x.opr1, x.opr2, x.rel;
    assert FoldedOprs(x)[0] == a && FoldedOprs(x)[1] == b;
    var va, vb := OprVal(s, a), OprVal(s, b);
    GetCSound(m, s, a);
    GetCSound(m, s, b);
    CalcSound(GetC(m, a), GetC(m, b), RelC(rel), va, vb);
    var val := Calc(GetC(m, a), GetC(m, b), RelC(rel));
    if val != Undef && !val.Con? {
      ToConstSound(m, a, s);
      ToConstSound(m, b, s);
      MirrorSwaps(rel, va, vb);
    }
  }

  /** The operands of a call keep their values. */
  lemma FoldOprsSound(m: Facts, x: Instr, s: Store)
    requires x.Call? && DescribesStore(m, s) && NoUndefUses(m, x)
    ensures Emits(s, Call(x.ret, x.func, FoldOprs(m, x.args))) == Emits(s, x)
  {
    var ys := FoldOprs(m, x.args);
    forall k | 0 <= k < |x.args| ensures OprVal(s, ys[k]) == OprVal(s, x.args[k]) {
      assert FoldedOprs(x)[k] == x.args[k];
      ToConstSound(m, x.args[k], s);
    }
  }

  /** A single folded operand keeps its value, so a one-operand instruction keeps its meaning. */
  lemma FoldOneSound(m: Facts, x: Instr, s1: Store)
    requires x.Mov? || x.Store? || x.Ret? || x.Write?
    requires DescribesStore(m, s1) && NoUndefUses(m, x)
    ensures RefinesAt(s1, x, Fold(m, Transfer(m, x), x).ir)
  {
    var o := FoldedOprs(x)[0];
    ToConstSound(m, o, s1);
    var y := Fold(m, Transfer(m, x), x).ir;
    forall s2 | Step(s1, x, s2) ensures Step(s1, y, s2) {
      if x.Mov? {
        StepMov(s1, s2, x.lhs, y.rhs);
      }
    }
  }

  /**
   * The fold is sound wherever the in-map describes the store and no operand it reads is
   * UNDEF: a rewritten instruction can stand in for the original, and a decided branch is
   * decided the way the store decides it.
   */
  lemma FoldSound(m: Facts, x: Instr, s1: Store)
    requires DescribesStore(m, s1) && NoUndefUses(m, x)
    ensures Fold(m, Transfer(m, x), x).Replace? ==> RefinesAt(s1, x, Fold(m, Transfer(m, x), x).ir)
    ensures x.Branch? ==> BranchKept(s1, x, Fold(m, Transfer(m, x), x))
  {
    if x.Branch? {
      FoldBranchSound(m, x, s1);
    } else if x.Arth? {
      FoldArthRefines(m, x, s1);
    } else if x.Call? {
      FoldOprsSound(m, x, s1);
    } else if x.Mov? || x.Store? || x.Ret? || x.Write? {
      FoldOneSound(m, x, s1);
    } else {
      assert Fold(m, Transfer(m, x), x) == Replace(x, false);
    }
  }

  /** The arithmetic case of FoldSound. */
  lemma FoldArthRefines(m: Facts, x: Instr, s1: Store)
    requires x.Arth? && DescribesStore(m, s1) && NoUndefUses(m, x)
    ensures RefinesAt(s1, x, Fold(m, Transfer(m, x), x).ir)
  {
    var r := Fold(m, Transfer(m, x), x);
    forall s2 | Step(s1, x, s2) ensures Step(s1, r.ir, s2) {
      FoldArthSound(m, x, s1, s2);
    }
  }

  /* ------------------------------------------------------------------ */
  /* The pass over a graph                                               */
  /* ------------------------------------------------------------------ */

  /** `ir_consfold` on an instruction with in-map m (its out-map is the transfer of m). */
  function FoldAt(m: Facts, x: Instr): (r: Fate)
    ensures r.Replace? ==> Relates(x, r.ir)
    ensures r.Replace? && !x.Label? ==> !r.ir.Label?
  {
    Fold(m, Transfer(m, x), x)
  }

  /** Whether the fold raises `do_opt`: a dropped or decided branch always does. */
  predicate Raises(r: Fate)
  {
    !r.Replace? || r.opt
  }

  /** x1 is what the fold made of x0 under in-map m; a decided branch became a goto to
      the same label. */
  predicate FoldedAt(x0: Instr, x1: Instr, m: Facts)
  {
    match FoldAt(m, x0)
    case Replace(y, _) => x1 == y
    case Drop => x1 == Nop
    case Take => x1.Goto? && x1.target == x0.target
  }

  lemma FoldedRelates(x0: Instr, x1: Instr, m: Facts)
    requires FoldedAt(x0, x1, m)
    ensures Relates(x0, x1) && (!x0.Label? ==> !x1.Label?)
  {
  }

  /** The in-map of position p of a block that starts at st with in-map f. */
  function InAt(f: Facts, irs: seq<Instr>, st: nat, p: nat): Facts
    requires st <= p <= |irs|
  {
    TransferSeq(f, irs[st..p])
  }

  lemma InAtStep(f: Facts, irs: seq<Instr>, st: nat, p: nat)
    requires st <= p < |irs|
    ensures InAt(f, irs, st, p + 1) == Transfer(InAt(f, irs, st, p), irs[p])
  {
    assert irs[st..p + 1][..p - st] == irs[st..p];
  }

  /** Outside what was folded an instruction is kept, or a label turned into a nop when
      the last jump to it was removed. */
  predicate KeptOrNopped(x0: Instr, x1: Instr)
  {
    x1 == x0 || (x0.Label? && x1 == Nop)
  }

  /** Positions [st, p) hold what the fold made of irs0 under the block's in-map f. */
  predicate FoldedUpTo(irs0: seq<Instr>, irs: seq<Instr>, f: Facts, st: nat, p: nat)
    requires st <= p <= |irs0| == |irs|
  {
    forall q | st <= q < p :: FoldedAt(irs0[q], irs[q], InAt(f, irs0, st, q))
  }

  /** Positions [p, ed) still hold irs0. */
  predicate SameFrom(irs0: seq<Instr>, irs: seq<Instr>, p: nat, ed: nat)
    requires ed <= |irs0| == |irs|
  {
    forall q | p <= q < ed :: irs[q] == irs0[q]
  }

  /** Outside [st, ed) everything is kept, up to labels turned into nops. */
  predicate KeptOutside(irs0: seq<Instr>, irs: seq<Instr>, st: nat, ed: nat)
    requires |irs0| == |irs|
  {
    forall q | 0 <= q < |irs| && !(st <= q < ed) :: KeptOrNopped(irs0[q], irs[q])
  }

  /** Folding one of [st, p) raised the flag. */
  predicate PrefixRaises(f: Facts, irs0: seq<Instr>, st: nat, p: nat)
    requires st <= p <= |irs0|
  {
    exists q | st <= q < p :: Raises(FoldAt(InAt(f, irs0, st, q), irs0[q]))
  }

  /** Where the fold of block [st, ed) stands at p: [st, p) folded under the in-maps of
      irs0, [p, ed) untouched, the rest kept, m the in-map at p and opt the flag so far. */
  predicate FoldingAt(irs0: seq<Instr>, irs: seq<Instr>, f: Facts, st: nat, p: nat, ed: nat, m: Facts, opt: bool)
  {
    st <= p <= ed <= |irs0| && |irs| == |irs0| && (forall q | st <= q < ed :: !irs0[q].Label?) &&
    FoldedUpTo(irs0, irs, f, st, p) && SameFrom(irs0, irs, p, ed) && KeptOutside(irs0, irs, st, ed) &&
    m == InAt(f, irs0, st, p) && (opt <==> PrefixRaises(f, irs0, st, p))
  }

  /** Before the first position nothing is folded and the in-map is the block's. */
  lemma FoldingStart(irs0: seq<Instr>, f: Facts, st: nat, ed: nat)
    requires st <= ed <= |irs0| && forall q | st <= q < ed :: !irs0[q].Label?
    ensures FoldingAt(irs0, irs0, f, st, st, ed, f, false)
  {
    assert irs0[st..st] == [];
  }

  /** Folding position p moves the fold on by one. */
  lemma FoldBlockStep(irs0: seq<Instr>, before: seq<Instr>, after: seq<Instr>, f: Facts, st: nat, p: nat, ed: nat,
                      m: Facts, opt: bool, r: Fate)
    requires FoldingAt(irs0, before, f, st, p, ed, m, opt) && p < ed && |after| == |irs0|
    requires r == FoldAt(m, before[p]) && FoldedAt(before[p], after[p], m)
    requires forall q | 0 <= q < |after| && q != p :: KeptOrNopped(before[q], after[q])
    ensures FoldingAt(irs0, after, f, st, p + 1, ed, Transfer(m, before[p]), opt || Raises(r))
  {
    forall q | st <= q < p ensures FoldedAt(irs0[q], after[q], InAt(f, irs0, st, q)) {
      FoldedRelates(irs0[q], before[q], InAt(f, irs0, st, q));
      assert KeptOrNopped(before[q], after[q]);
    }
    forall q | 0 <= q < |after| && !(st <= q < ed) ensures KeptOrNopped(irs0[q], after[q]) {
      assert KeptOrNopped(irs0[q], before[q]) && KeptOrNopped(before[q], after[q]);
    }
    RaisesStep(irs0, f, st, p);
    InAtStep(f, irs0, st, p);
  }

  /** The flag after position p: raised before, or raised by p. */
  lemma RaisesStep(irs0: seq<Instr>, f: Facts, st: nat, p: nat)
    requires st <= p < |irs0|
    ensures PrefixRaises(f, irs0, st, p + 1) <==>
      PrefixRaises(f, irs0, st, p) || Raises(FoldAt(InAt(f, irs0, st, p), irs0[p]))
  {
    if Raises(FoldAt(InAt(f, irs0, st, p), irs0[p])) {
      assert st <= p < p + 1;
    }
  }

  /** The visitor of `ir_consfold` on position p, whose in-map is m. */
  method FoldOne(cfg: Cfg, p: nat, m: Facts) returns (r: Fate)
    requires cfg.Valid() && p < |cfg.irs| && !cfg.irs[p].Label?
    modifies cfg
    ensures cfg.Valid() && cfg.Shape() == old(cfg.Shape()) && cfg.labels.Keys == old(cfg.labels.Keys)
    ensures |cfg.irs| == old(|cfg.irs|) && r == FoldAt(m, old(cfg.irs[p]))
    ensures FoldedAt(old(cfg.irs[p]), cfg.irs[p], m)
    ensures forall q | 0 <= q < |cfg.irs| && q != p :: KeptOrNopped(old(cfg.irs[q]), cfg.irs[q])
  {
    var x := cfg.irs[p];
    r := FoldAt(m, x);
    match r {
      case Replace(y, _) =>
        if x.IsJump() {
          cfg.ReplaceJump(p, y);
        } else {
          cfg.ReplacePlain(p, y);
        }
      case Drop =>
        cfg.RemoveBranchGoto(p);
      case Take =>
        var k := cfg.BranchToGoto(p);
    }
  }

  /**
   * `ir_consfold_bb`: folds the instructions of the block [st, ed) in order, each under
   * the in-map the analysis left for it. A branch decided false is removed with
   * `remove_branch_goto`; one decided true becomes a goto to its label.
   */
  method FoldBlock(cfg: Cfg, st: nat, ed: nat, f: Facts) returns (opt: bool)
    requires cfg.Valid() && st <= ed <= |cfg.irs|
    requires forall p | st <= p < ed :: !cfg.irs[p].Label?
    modifies cfg
    ensures cfg.Valid() && cfg.Shape() == old(cfg.Shape()) && cfg.labels.Keys == old(cfg.labels.Keys)
    ensures FoldingAt(old(cfg.irs), cfg.irs, f, st, ed, ed, InAt(f, old(cfg.irs), st, ed), opt)
  {
    ghost var irs0 := cfg.irs;
    var m := f;
    opt := false;
    var p := st;
    FoldingStart(irs0, f, st, ed);
    while p < ed
      invariant cfg.Valid() && cfg.Shape() == old(cfg.Shape()) && cfg.labels.Keys == old(cfg.labels.Keys)
      invariant FoldingAt(irs0, cfg.irs, f, st, p, ed, m, opt)
      decreases ed - p
    {
      ghost var before := cfg.irs;
      var x := cfg.irs[p];
      var r := FoldOne(cfg, p, m);
      FoldBlockStep(irs0, before, cfg.irs, f, st, p, ed, m, opt, r);
      opt := opt || Raises(r);
      m := Transfer(m, x);
      p := p + 1;
    }
  }

  /** Two lists that agree on a block fold it alike. */
  lemma BlockAgree(a: seq<Instr>, b: seq<Instr>, irs: seq<Instr>, f: Facts, st: nat, ed: nat)
    requires st <= ed <= |a| && |b| == |a| && |irs| == |a| && SameFrom(a, b, st, ed)
    ensures FoldedUpTo(a, irs, f, st, ed) <==> FoldedUpTo(b, irs, f, st, ed)
    ensures PrefixRaises(f, a, st, ed) <==> PrefixRaises(f, b, st, ed)
  {
    forall q | st <= q <= ed ensures InAt(f, a, st, q) == InAt(f, b, st, q) {
      assert a[st..q] == b[st..q];
    }
  }

  /** Blocks below i that are reachable hold what the fold made of them. */
  predicate BlocksFolded(irs0: seq<Instr>, irs: seq<Instr>, bbs: seq<Block>, reach: seq<bool>, e: seq<Facts>, i: nat)
    requires BlocksSound(irs0, bbs) && |irs| == |irs0| && i <= |bbs| <= |reach| && |bbs| <= |e|
  {
    forall b | 0 <= b < i && reach[b] :: FoldedUpTo(irs0, irs, e[b], bbs[b].start, bbs[b].end)
  }

  /** Blocks from i on, and unreachable ones, are untouched. */
  predicate BlocksIntact(irs0: seq<Instr>, irs: seq<Instr>, bbs: seq<Block>, reach: seq<bool>, i: nat)
    requires BlocksSound(irs0, bbs) && |irs| == |irs0| && |bbs| <= |reach|
  {
    forall b | 0 <= b < |bbs| && (i <= b || !reach[b]) :: SameFrom(irs0, irs, bbs[b].start, bbs[b].end)
  }

  /** Folding one of the reachable blocks below i raised the flag. */
  predicate AnyRaises(irs0: seq<Instr>, bbs: seq<Block>, reach: seq<bool>, e: seq<Facts>, i: nat)
    requires BlocksSound(irs0, bbs) && i <= |bbs| <= |reach| && |bbs| <= |e|
  {
    exists b | 0 <= b < i && reach[b] :: PrefixRaises(e[b], irs0, bbs[b].start, bbs[b].end)
  }

  /** Folding reachable block i extends what is folded and keeps the rest. */
  lemma FoldCfgStep(irs0: seq<Instr>, before: seq<Instr>, after: seq<Instr>, bbs: seq<Block>,
                    reach: seq<bool>, e: seq<Facts>, i: nat)
    requires BlocksSound(irs0, bbs) && |before| == |irs0| && |after| == |irs0|
    requires i < |bbs| <= |reach| && |bbs| <= |e| && reach[i]
    requires BlocksFolded(irs0, before, bbs, reach, e, i) && BlocksIntact(irs0, before, bbs, reach, i)
    requires AllRelate(irs0, before)
    requires FoldedUpTo(before, after, e[i], bbs[i].start, bbs[i].end)
    requires KeptOutside(before, after, bbs[i].start, bbs[i].end)
    ensures BlocksFolded(irs0, after, bbs, reach, e, i + 1) && BlocksIntact(irs0, after, bbs, reach, i + 1)
    ensures AllRelate(irs0, after)
  {
    var st, ed := bbs[i].start, bbs[i].end;
    BlockAgree(irs0, before, after, e[i], st, ed);
    forall b, q | 0 <= b < |bbs| && b != i && bbs[b].start <= q < bbs[b].end
      ensures after[q] == before[q]
    {
      assert !irs0[q].Label?;
      if b < i {
        assert bbs[b].end <= st;
        if reach[b] {
          assert FoldedUpTo(irs0, before, e[b], bbs[b].start, bbs[b].end);
          FoldedRelates(irs0[q], before[q], InAt(e[b], irs0, bbs[b].start, q));
        }
      } else {
        assert ed <= bbs[b].start;
      }
      assert KeptOrNopped(before[q], after[q]);
    }
    forall b | 0 <= b < i + 1 && reach[b] ensures FoldedUpTo(irs0, after, e[b], bbs[b].start, bbs[b].end) {
      if b < i {
        assert FoldedUpTo(irs0, before, e[b], bbs[b].start, bbs[b].end);
      }
    }
    forall q | 0 <= q < |irs0| ensures Relates(irs0[q], after[q]) {
      if st <= q < ed {
        FoldedRelates(before[q], after[q], InAt(e[i], before, st, q));
        assert SameFrom(irs0, before, st, ed);
      } else {
        assert KeptOrNopped(before[q], after[q]);
      }
    }
  }

  /** The flag after block i: raised before, or raised by block i if it is reachable. */
  lemma AnyRaisesStep(irs0: seq<Instr>, bbs: seq<Block>, reach: seq<bool>, e: seq<Facts>, i: nat)
    requires BlocksSound(irs0, bbs) && i < |bbs| <= |reach| && |bbs| <= |e|
    ensures AnyRaises(irs0, bbs, reach, e, i + 1) <==>
      AnyRaises(irs0, bbs, reach, e, i) || (reach[i] && PrefixRaises(e[i], irs0, bbs[i].start, bbs[i].end))
  {
    if reach[i] && PrefixRaises(e[i], irs0, bbs[i].start, bbs[i].end) {
      assert 0 <= i < i + 1;
    }
  }

  /** An unreachable block is passed over. */
  lemma SkipBlockStep(irs0: seq<Instr>, irs: seq<Instr>, bbs: seq<Block>, reach: seq<bool>, e: seq<Facts>, i: nat)
    requires BlocksSound(irs0, bbs) && |irs| == |irs0| && i < |bbs| <= |reach| && |bbs| <= |e| && !reach[i]
    requires BlocksFolded(irs0, irs, bbs, reach, e, i) && BlocksIntact(irs0, irs, bbs, reach, i)
    ensures BlocksFolded(irs0, irs, bbs, reach, e, i + 1) && BlocksIntact(irs0, irs, bbs, reach, i + 1)
  {
  }

  /** A block not yet folded holds no label. */
  lemma IntactNoLabel(irs0: seq<Instr>, irs: seq<Instr>, bbs: seq<Block>, reach: seq<bool>, i: nat)
    requires BlocksSound(irs0, bbs) && |irs| == |irs0| && i < |bbs| <= |reach|
    requires BlocksIntact(irs0, irs, bbs, reach, i)
    ensures forall p | bbs[i].start <= p < bbs[i].end :: !irs[p].Label?
  {
    assert SameFrom(irs0, irs, bbs[i].start, bbs[i].end);
  }

  /** `ir_analyse_cfg` with `ir_consfold_bb`: every reachable block is folded under its
      in-map e[b]. */
  method FoldCfg(cfg: Cfg, e: seq<Facts>) returns (opt: bool)
    requires cfg.Valid() && BlocksSound(cfg.irs, cfg.bbs) && |cfg.bbs| <= |cfg.bbReach| && |cfg.bbs| <= |e|
    modifies cfg
    ensures cfg.Valid() && cfg.Shape() == old(cfg.Shape()) && cfg.labels.Keys == old(cfg.labels.Keys)
    ensures AllRelate(old(cfg.irs), cfg.irs)
    ensures BlocksFolded(old(cfg.irs), cfg.irs, cfg.bbs, cfg.bbReach, e, |cfg.bbs|)
    ensures BlocksIntact(old(cfg.irs), cfg.irs, cfg.bbs, cfg.bbReach, |cfg.bbs|)
    ensures opt <==> AnyRaises(old(cfg.irs), cfg.bbs, cfg.bbReach, e, |cfg.bbs|)
  {
    ghost var irs0 := cfg.irs;
    var bbs, reach := cfg.bbs, cfg.bbReach;
    opt := false;
    for i := 0 to |bbs|
      invariant cfg.Valid() && cfg.Shape() == old(cfg.Shape()) && cfg.labels.Keys == old(cfg.labels.Keys)
      invariant AllRelate(irs0, cfg.irs)
      invariant BlocksFolded(irs0, cfg.irs, bbs, reach, e, i) && BlocksIntact(irs0, cfg.irs, bbs, reach, i)
      invariant opt <==> AnyRaises(irs0, bbs, reach, e, i)
    {
      AnyRaisesStep(irs0, bbs, reach, e, i);
      if reach[i] {
        ghost var before := cfg.irs;
        IntactNoLabel(irs0, before, bbs, reach, i);
        var o := FoldBlock(cfg, bbs[i].start, bbs[i].end, e[i]);
        FoldCfgStep(irs0, before, cfg.irs, bbs, reach, e, i);
        BlockAgree(irs0, before, cfg.irs, e[i], bbs[i].start, bbs[i].end);
        opt := opt || o;
      } else {
        SkipBlockStep(irs0, cfg.irs, bbs, reach, e, i);
      }
    }
  }

  /* ------------------------------------------------------------------ */
  /* The analysis, its soundness, and the pass                           */
  /* ------------------------------------------------------------------ */

  /** `ir_constant_transfer_bb` as the driver calls it: block b's instructions from in-map f. */
  function BlockTransfer(irs: seq<Instr>, bbs: seq<Block>, b: nat, f: Facts): Facts
  {
    if b < |bbs| && bbs[b].start <= bbs[b].end <= |irs| then InAt(f, irs, bbs[b].start, bbs[b].end) else f
  }

  /** The facts solve the forward equations: a reachable block's out-map is its transfer
      of its in-map, and its in-map absorbs the out-map of every reachable predecessor. */
  ghost predicate Solution(irs: seq<Instr>, bbs: seq<Block>, ins: seq<seq<nat>>, reach: seq<bool>,
                           e: seq<Facts>, x: seq<Facts>)
  {
    |e| == |bbs| + 1 && |x| == |bbs| + 1 && |reach| == |bbs| + 1 && |ins| == |bbs| + 1 &&
    forall b | 0 <= b < |bbs| && reach[b] ::
      x[b] == BlockTransfer(irs, bbs, b, e[b]) && Absorbs(Meet, ins[b], reach, x, e[b])
  }

  /**
   * The solution is sound along every edge c -> b between reachable blocks: if c's in-map
   * describes the store on entry to c, then after running c every variable that c's
   * out-map does not leave UNDEF has the value b's in-map gives it. (A variable UNDEF on
   * this edge has no definition along it, and reading it has no meaning.)
   */
  lemma EdgeSound(irs: seq<Instr>, bbs: seq<Block>, ins: seq<seq<nat>>, reach: seq<bool>,
                  e: seq<Facts>, x: seq<Facts>, b: nat, k: nat, s0: Store, s: Store)
    requires Solution(irs, bbs, ins, reach, e, x) && BlocksSound(irs, bbs)
    requires b < |bbs| && reach[b] && k < |ins[b]| && ins[b][k] < |bbs| && reach[ins[b][k]]
    requires DescribesStore(e[ins[b][k]], s0)
    requires Run(s0, irs[bbs[ins[b][k]].start..bbs[ins[b][k]].end], s)
    ensures forall v: nat :: Get(x[ins[b][k]], v) != Undef ==> Describes(Get(e[b], v), Val(s, v))
  {
    var c := ins[b][k];
    TransferSeqSound(e[c], irs[bbs[c].start..bbs[c].end], s0, s);
    assert Meet(e[b], x[c]) == e[b];
    MeetPointwise(e[b], x[c]);
    forall v: nat | Get(x[c], v) != Undef ensures Describes(Get(e[b], v), Val(s, v)) {
      assert Get(e[b], v) == Comb(Get(e[b], v), Get(x[c], v));
    }
  }

  /**
   * The fold is sound inside a block: when the block's in-map describes the store on
   * entry and execution reaches position p in store s, what the fold left at p can stand
   * in for the original there, or decides the branch the way s does.
   */
  lemma FoldedPositionSound(irs0: seq<Instr>, irs: seq<Instr>, f: Facts, st: nat, ed: nat, p: nat,
                            s0: Store, s: Store)
    requires st <= p < ed <= |irs0| && |irs| == |irs0| && FoldedUpTo(irs0, irs, f, st, ed)
    requires DescribesStore(f, s0) && Run(s0, irs0[st..p], s)
    requires NoUndefUses(InAt(f, irs0, st, p), irs0[p])
    ensures var r := FoldAt(InAt(f, irs0, st, p), irs0[p]);
      (r.Replace? ==> irs[p] == r.ir && RefinesAt(s, irs0[p], irs[p])) &&
      (irs0[p].Branch? ==> BranchKept(s, irs0[p], r))
  {
    var m := InAt(f, irs0, st, p);
    TransferSeqSound(f, irs0[st..p], s0, s);
    assert FoldedAt(irs0[p], irs[p], m);
    FoldSound(m, irs0[p], s);
  }

  /**
   * One function (`ir_constant`'s loop body): the forward analysis with meet
   * `consmap_comb`, from empty maps; the fold of every reachable block under the
   * facts found; then `build_cfg`. The fold runs only when the driver reached its
   * fixpoint.
   */
  method ConstantCfg(cfg: Cfg, fuel: nat)
    returns (opt: bool, done: bool, ghost e: seq<Facts>, ghost x: seq<Facts>, ghost folded: seq<Instr>)
    requires Ready(cfg)
    modifies cfg
    ensures Ready(cfg) && cfg.bbs == old(cfg.bbs) && cfg.labels.Keys == old(cfg.labels.Keys)
    ensures cfg.reachable == old(cfg.reachable)
    ensures AllRelate(old(cfg.irs), folded) && OnlyNops(folded, cfg.irs) && AllRelate(old(cfg.irs), cfg.irs)
    ensures !done ==> folded == old(cfg.irs) && !opt
    ensures done ==> Solution(old(cfg.irs), cfg.bbs, old(cfg.ins), old(cfg.bbReach), e, x)
    ensures done ==> BlocksFolded(old(cfg.irs), folded, cfg.bbs, old(cfg.bbReach), e, |cfg.bbs|)
    ensures done ==> BlocksIntact(old(cfg.irs), folded, cfg.bbs, old(cfg.bbReach), |cfg.bbs|)
    ensures opt <==> done && AnyRaises(old(cfg.irs), cfg.bbs, old(cfg.bbReach), e, |cfg.bbs|)
  {
    var irs, bbs, n := cfg.irs, cfg.bbs, |cfg.bbs|;
    var trans := (b: nat, f: Facts) => BlockTransfer(irs, bbs, b, f);
    var skip := (f: Facts) => false;
    MeetIsSemilattice();
    var e0: seq<Facts> := seq(n + 1, _ => map[]);
    var e1, x1, d := IterCfg(cfg.outs, cfg.ins, cfg.bbReach, n, true, Meet, skip, trans, e0, e0, fuel);
    e, x, done := e1, x1, d;
    opt := false;
    if done {
      forall b | 0 <= b < n && cfg.bbReach[b]
        ensures x[b] == BlockTransfer(irs, bbs, b, e[b]) && Absorbs(Meet, cfg.ins[b], cfg.bbReach, x, e[b])
      {
        assert Stable(cfg.ins, cfg.bbReach, Meet, skip, trans, e, x, b);
      }
      opt := FoldCfg(cfg, e1);
    } else {
      assert AllRelate(irs, cfg.irs);
    }
    folded := cfg.irs;
    RelateReady(irs, cfg.irs, bbs, cfg.labelBlock);
    Rebuild(cfg);
    RelateThenNops(irs, folded, cfg.irs);
  }

  /** What the analysis and the fold of one function gave: where the driver drained,
      the facts solve the equations of its graph, and the fold raised the flag exactly
      when the driver drained and the fold of some reachable block raised it. */
  ghost predicate Analysed(irs0: seq<Instr>, bbs: seq<Block>, ins0: seq<seq<nat>>, reach0: seq<bool>,
                           done: bool, e: seq<Facts>, x: seq<Facts>, opt: bool)
  {
    (done ==> Solution(irs0, bbs, ins0, reach0, e, x)) &&
    (opt <==> done && Solution(irs0, bbs, ins0, reach0, e, x) && BlocksSound(irs0, bbs) &&
                AnyRaises(irs0, bbs, reach0, e, |bbs|))
  }

  /** Analysed holds of every reachable function below n, and no unreachable one raised
      the flag (stated one function at a time; AllAnalysedAt reads it back). */
  ghost predicate AllAnalysed(irs0: seq<seq<Instr>>, bbs0: seq<seq<Block>>, ins0: seq<seq<seq<nat>>>,
                              bbr0: seq<seq<bool>>, reach0: seq<bool>, opts: seq<bool>, dones: seq<bool>,
                              es: seq<seq<Facts>>, xs: seq<seq<Facts>>, n: nat)
    decreases n
  {
    n <= |irs0| && n <= |bbs0| && n <= |ins0| && n <= |bbr0| && n <= |reach0| &&
    |opts| == |dones| == |es| == |xs| == n &&
    (n > 0 ==>
      AllAnalysed(irs0, bbs0, ins0, bbr0, reach0, opts[..n - 1], dones[..n - 1], es[..n - 1], xs[..n - 1], n - 1) &&
      if reach0[n - 1] then
        Analysed(irs0[n - 1], bbs0[n - 1], ins0[n - 1], bbr0[n - 1], dones[n - 1], es[n - 1], xs[n - 1], opts[n - 1])
      else !opts[n - 1])
  }

  /** AllAnalysed, read at function i. */
  lemma {:induction false} AllAnalysedAt(irs0: seq<seq<Instr>>, bbs0: seq<seq<Block>>, ins0: seq<seq<seq<nat>>>,
                                         bbr0: seq<seq<bool>>, reach0: seq<bool>, opts: seq<bool>, dones: seq<bool>,
                                         es: seq<seq<Facts>>, xs: seq<seq<Facts>>, n: nat, i: nat)
    requires AllAnalysed(irs0, bbs0, ins0, bbr0, reach0, opts, dones, es, xs, n) && i < n
    ensures reach0[i] ==> Analysed(irs0[i], bbs0[i], ins0[i], bbr0[i], dones[i], es[i], xs[i], opts[i])
    ensures !reach0[i] ==> !opts[i]
    decreases n
  {
    if i < n - 1 {
      AllAnalysedAt(irs0, bbs0, ins0, bbr0, reach0, opts[..n - 1], dones[..n - 1], es[..n - 1], xs[..n - 1], n - 1, i);
    }
  }

  /** Appending the outcome of function n extends AllAnalysed to n + 1. */
  lemma AllAnalysedSnoc(irs0: seq<seq<Instr>>, bbs0: seq<seq<Block>>, ins0: seq<seq<seq<nat>>>,
                        bbr0: seq<seq<bool>>, reach0: seq<bool>, opts: seq<bool>, dones: seq<bool>,
                        es: seq<seq<Facts>>, xs: seq<seq<Facts>>, n: nat,
                        o: bool, d: bool, e: seq<Facts>, x: seq<Facts>)
    requires AllAnalysed(irs0, bbs0, ins0, bbr0, reach0, opts, dones, es, xs, n)
    requires n < |irs0| && n < |bbs0| && n < |ins0| && n < |bbr0| && n < |reach0|
    requires if reach0[n] then Analysed(irs0[n], bbs0[n], ins0[n], bbr0[n], d, e, x, o) else !o
    ensures AllAnalysed(irs0, bbs0, ins0, bbr0, reach0, opts + [o], dones + [d], es + [e], xs + [x], n + 1)
  {
    assert (opts + [o])[..n] == opts && (dones + [d])[..n] == dones;
    assert (es + [e])[..n] == es && (xs + [x])[..n] == xs;
  }

  /** One turn of the loop of `ir_constant`: function i, when it is reachable. */
  method ConstantOne(cfg: Cfg, fuel: nat, ghost irs0: seq<Instr>, ghost keys0: set<nat>, ghost reach0: bool,
                     ghost bbs0: seq<Block>, ghost ins0: seq<seq<nat>>, ghost bbr0: seq<bool>)
    returns (opt: bool, ghost done: bool, ghost e: seq<Facts>, ghost x: seq<Facts>)
    requires GraphRewritten(cfg, irs0, keys0, reach0) && cfg.irs == irs0
    requires cfg.bbs == bbs0 && cfg.ins == ins0 && cfg.bbReach == bbr0
    modifies cfg
    ensures GraphRewritten(cfg, irs0, keys0, reach0)
    ensures if reach0 then Analysed(irs0, bbs0, ins0, bbr0, done, e, x, opt) else !opt
  {
    opt, done, e, x := false, false, [], [];
    if cfg.reachable {
      ghost var folded;
      opt, done, e, x, folded := ConstantCfg(cfg, fuel);
    }
  }

  /** The loop of `ir_constant` over the functions: each reachable one is analysed and
      folded; the flag is raised when the fold of some function raised it. */
  method ConstantCfgs(cfgs: seq<Cfg>, fuel: nat, ghost irs0: seq<seq<Instr>>, ghost keys0: seq<set<nat>>,
                      ghost reach0: seq<bool>, ghost bbs0: seq<seq<Block>>, ghost ins0: seq<seq<seq<nat>>>,
                      ghost bbr0: seq<seq<bool>>)
    returns (opt: bool, ghost opts: seq<bool>, ghost dones: seq<bool>, ghost es: seq<seq<Facts>>,
             ghost xs: seq<seq<Facts>>)
    requires DistinctCfgs(cfgs) && forall i | 0 <= i < |cfgs| :: Ready(cfgs[i])
    requires Snapshot(cfgs, irs0, keys0, reach0) && FlowSnapshot(cfgs, bbs0, ins0, bbr0)
    modifies cfgs
    ensures Rewritten(cfgs, irs0, keys0, reach0)
    ensures AllAnalysed(irs0, bbs0, ins0, bbr0, reach0, opts, dones, es, xs, |cfgs|)
    ensures opt <==> true in opts
  {
    opt := false;
    opts, dones, es, xs := [], [], [], [];
    for i := 0 to |cfgs|
      invariant forall j | 0 <= j < |cfgs| :: GraphRewritten(cfgs[j], irs0[j], keys0[j], reach0[j])
      invariant forall j | i <= j < |cfgs| ::
        cfgs[j].irs == irs0[j] && cfgs[j].bbs == bbs0[j] && cfgs[j].ins == ins0[j] && cfgs[j].bbReach == bbr0[j]
      invariant AllAnalysed(irs0, bbs0, ins0, bbr0, reach0, opts, dones, es, xs, i)
      invariant opt <==> true in opts
    {
      var o, done, e, x := ConstantOne(cfgs[i], fuel, irs0[i], keys0[i], reach0[i], bbs0[i], ins0[i], bbr0[i]);
      AllAnalysedSnoc(irs0, bbs0, ins0, bbr0, reach0, opts, dones, es, xs, i, o, done, e, x);
      opt := opt || o;
      opts, dones, es, xs := opts + [o], dones + [done], es + [e], xs + [x];
    }
  }

  /** The loop of `ir_constant` on a ready program, before reachability is rechecked. */
  method ConstantFuncs(prog: Program, fuel: nat)
    returns (opt: bool, ghost opts: seq<bool>, ghost dones: seq<bool>, ghost es: seq<seq<Facts>>,
             ghost xs: seq<seq<Facts>>)
    requires ProgramReady(prog)
    modifies prog.cfgs
    ensures ProgramReady(prog)
    ensures PassRelates(old(IrsOf(prog.cfgs)), IrsOf(prog.cfgs), old(ReachOf(prog.cfgs)))
    ensures AllAnalysed(old(IrsOf(prog.cfgs)), old(BbsOf(prog.cfgs)), old(InsOf(prog.cfgs)),
                        old(BbReachOf(prog.cfgs)), old(ReachOf(prog.cfgs)), opts, dones, es, xs, |prog.cfgs|)
    ensures opt <==> true in opts
  {
    ghost var irs0, keys0, reach0 := IrsOf(prog.cfgs), KeysOf(prog.cfgs), ReachOf(prog.cfgs);
    ReadyParts(prog, irs0, keys0, reach0);
    opt, opts, dones, es, xs := ConstantCfgs(prog.cfgs, fuel, irs0, keys0, reach0,
                                             BbsOf(prog.cfgs), InsOf(prog.cfgs), BbReachOf(prog.cfgs));
    StillReady(prog, irs0, keys0, reach0);
  }

  /**
   * `ir_constant`: every reachable function is analysed and folded, then
   * `check_program_reachable` recomputes which functions are reachable. The
   * result is `do_opt`, raised when the fold of some reachable function raised it;
   * every function whose analysis drained was folded under a solution of its equations.
   */
  method ConstantProgram(prog: Program, fuel: nat)
    returns (opt: bool, ghost opts: seq<bool>, ghost dones: seq<bool>, ghost es: seq<seq<Facts>>,
             ghost xs: seq<seq<Facts>>)
    requires ProgramReady(prog)
    modifies prog.cfgs
    ensures ProgramReady(prog)
    ensures PassRelates(old(IrsOf(prog.cfgs)), IrsOf(prog.cfgs), old(ReachOf(prog.cfgs)))
    ensures AllAnalysed(old(IrsOf(prog.cfgs)), old(BbsOf(prog.cfgs)), old(InsOf(prog.cfgs)),
                        old(BbReachOf(prog.cfgs)), old(ReachOf(prog.cfgs)), opts, dones, es, xs, |prog.cfgs|)
    ensures opt <==> true in opts
  {
    opt, opts, dones, es, xs := ConstantFuncs(prog, fuel);
    Recheck(prog);
  }
}
