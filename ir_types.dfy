/**
 * The three-address IR: operands, operators, instructions, and the
 * equality and hashing used to hash-cons arithmetic expressions.
 */
module IrTypes {
  import opened Base

  /** An operand: a numbered variable `v<id>` or an immediate `#<val>`. */
  datatype Opr = Var(id: nat) | Imm(val: int)

  /** The binary arithmetic operators; `Code` is their value in the operator enumeration. */
  datatype ArithOp = Plus | Minus | Star | Div

  function Code(op: ArithOp): (c: nat)
    ensures 4 <= c <= 7
  {
    match op
    case Plus => 4
    case Minus => 5
    case Star => 6
    case Div => 7
  }

  predicate Commutative(op: ArithOp) { op == Plus || op == Star }

  /** A label as both the IR dump and the MIPS output write it: `.L<n>`. */
  function LabelText(l: nat): (s: string)
    ensures |s| > 2 && s[..2] == ".L"
  {
    ".L" + NatToString(l)
  }

  /** Relational operators, in the order of their enumeration. */
  datatype Relop = GT | LE | GE | LT | EQ | NEQ

  function RelopIndex(r: Relop): (i: nat)
    ensures i < 6
  {
    match r
    case GT => 0
    case LE => 1
    case GE => 2
    case LT => 3
    case EQ => 4
    case NEQ => 5
  }

  function RelopOf(i: nat): (r: Relop)
    requires i < 6
    ensures RelopIndex(r) == i
  {
    if i == 0 then GT else if i == 1 then LE else if i == 2 then GE
    else if i == 3 then LT else if i == 4 then EQ else NEQ
  }

  /** The comparison a relational operator denotes. */
  predicate EvalRelop(r: Relop, x: int, y: int) {
    match r
    case GT => x > y
    case LE => x <= y
    case GE => x >= y
    case LT => x < y
    case EQ => x == y
    case NEQ => x != y
  }

  /** Negation flips the lowest bit of the operator's index. */
  function Negate(r: Relop): Relop {
    RelopOf(((RelopIndex(r) as bv8) ^ 1) as int)
  }

  /** Swapping the operands maps index `i <= 3` to `3 - i` and keeps EQ and NEQ. */
  function Mirror(r: Relop): Relop {
    var i := RelopIndex(r);
    if i <= 3 then RelopOf(3 - i) else r
  }

  lemma NegateNegates(r: Relop, x: int, y: int)
    ensures EvalRelop(Negate(r), x, y) == !EvalRelop(r, x, y)
    ensures Negate(Negate(r)) == r
  {
    match r
    case GT => assert Negate(r) == LE;
    case LE => assert Negate(r) == GT;
    case GE => assert Negate(r) == LT;
    case LT => assert Negate(r) == GE;
    case EQ => assert Negate(r) == NEQ;
    case NEQ => assert Negate(r) == EQ;
  }

  lemma MirrorSwaps(r: Relop, x: int, y: int)
    ensures EvalRelop(Mirror(r), y, x) == EvalRelop(r, x, y)
    ensures Mirror(Mirror(r)) == r
  {
  }

  /** The instructions. Jumps carry `jid`, the identity of the jump object. */
  datatype Instr =
    | Nop
    | Label(lbl: nat)
    | Func(name: string, params: seq<nat>)
    | Mov(lhs: nat, rhs: Opr)
    | Arth(lhs: nat, opr1: Opr, opr2: Opr, op: ArithOp)
    | Addr(lhs: nat, src: nat)
    | Load(lhs: nat, src: nat)
    | Store(addr: nat, rhs: Opr)
    | Goto(target: nat, jid: nat)
    | Branch(opr1: Opr, opr2: Opr, rel: Relop, target: nat, jid: nat)
    | Ret(opr: Opr)
    | Alloc(v: nat, size: int)
    | Call(ret: nat, func: string, args: seq<Opr>)
    | Read(v: nat)
    | Write(opr: Opr)
  {
    predicate IsJump() { Goto? || Branch? }
  }

  /** Operand equality: same kind, and same id or same value. */
  predicate SameOpr(a: Opr, b: Opr) {
    match a
    case Var(i) => b.Var? && b.id == i
    case Imm(v) => b.Imm? && b.val == v
  }

  lemma SameOprIsEquality(a: Opr, b: Opr)
    ensures SameOpr(a, b) <==> a == b
  {
  }

  const TWO64: int := 0x1_0000_0000_0000_0000

  /** Reinterpretation of a C `int` or id as a 64-bit unsigned word (sign extension). */
  function U64(x: int): bv64 {
    (x % TWO64) as bv64
  }

  /** The operand's hash: the id or value shifted left by one, tagged with the kind in bit 0. */
  function HashOpr(a: Opr): bv64
  {
    match a
    case Var(i) => U64(i) << 1
    case Imm(v) => (U64(v) << 1) | 1
  }

  /** An arithmetic expression, the part of an arithmetic instruction that hash-consing sees. */
  datatype Expr = Expr(opr1: Opr, opr2: Opr, op: ArithOp)

  /** Structural equality of expressions, up to commutativity of `+` and `*`. */
  predicate SameArth(a: Expr, b: Expr) {
    a.op == b.op &&
    ((SameOpr(a.opr1, b.opr1) && SameOpr(a.opr2, b.opr2)) ||
     (Commutative(a.op) && SameOpr(a.opr1, b.opr2) && SameOpr(a.opr2, b.opr1)))
  }

  /** The expression hash: operand hashes are xor-ed for commutative operators, the first
      one shifted by 16 otherwise, and the operator lands in the low two bits. */
  function HashArth(e: Expr): bv64
  {
    Packed(HashBase(HashOpr(e.opr1), HashOpr(e.opr2), e.op), e.op)
  }

  /** Bit 0 of an operand's hash tells an immediate from a variable. */
  lemma HashOprTag(a: Opr)
    ensures (HashOpr(a) & 1 == 1) <==> a.Imm?
  {
  }

  /** The low two bits of the expression hash number its operator from 0. */
  lemma HashLowBits(e: Expr)
    ensures HashArth(e) & 3 == (Code(e.op) - 4) as bv64
  {
    CodeLowBits(e.op);
    PackedLowBits(HashBase(HashOpr(e.opr1), HashOpr(e.opr2), e.op), (Code(e.op) as bv64) & 3);
  }

  lemma PackedLowBits(base: bv64, low: bv64)
    requires low < 4
    ensures ((base << 2) | low) & 3 == low
  {
  }

  /** The operand part of the expression hash. */
  function HashBase(h1: bv64, h2: bv64, op: ArithOp): bv64
  {
    if Commutative(op) then h1 ^ h2 else (h1 << 16) ^ h2
  }

  /** The operand part shifted up, with the operator in the low two bits. */
  function Packed(base: bv64, op: ArithOp): (h: bv64)
  {
    (base << 2) | ((Code(op) as bv64) & 3)
  }

  /** The low two bits of an operator code number the operators from 0. */
  lemma CodeLowBits(op: ArithOp)
    ensures (Code(op) as bv64) & 3 == (Code(op) - 4) as bv64
  {
    match op
    case Plus =>
    case Minus =>
    case Star =>
    case Div =>
  }

  /** Equal expressions hash equal, so hash-consing can find them. */
  lemma SameArthSameHash(a: Expr, b: Expr)
    requires SameArth(a, b)
    ensures HashArth(a) == HashArth(b)
  {
    SameOprIsEquality(a.opr1, b.opr1);
    SameOprIsEquality(a.opr2, b.opr2);
    if a != b {
      SameOprIsEquality(a.opr1, b.opr2);
      SameOprIsEquality(a.opr2, b.opr1);
      assert b == Expr(a.opr2, a.opr1, a.op) && Commutative(a.op);
      SwapSameHash(a.opr1, a.opr2, a.op);
    }
  }

  /** Swapping the operands of a commutative operator keeps the hash. */
  lemma SwapSameHash(x: Opr, y: Opr, op: ArithOp)
    requires Commutative(op)
    ensures HashArth(Expr(x, y, op)) == HashArth(Expr(y, x, op))
  {
    BaseCommutes(HashOpr(x), HashOpr(y), op);
  }

  lemma BaseCommutes(h1: bv64, h2: bv64, op: ArithOp)
    requires Commutative(op)
    ensures HashBase(h1, h2, op) == HashBase(h2, h1, op)
  {
  }

  /** Expressions with different operators never collide. */
  lemma DifferentOpDifferentHash(a: Expr, b: Expr)
    requires a.op != b.op
    ensures HashArth(a) != HashArth(b)
  {
    HashLowBits(a);
    HashLowBits(b);
    CodesDiffer(a.op, b.op);
    LowBitsDiffer(HashArth(a), HashArth(b));
  }

  lemma CodesDiffer(op1: ArithOp, op2: ArithOp)
    requires op1 != op2
    ensures (Code(op1) - 4) as bv64 != (Code(op2) - 4) as bv64
  {
  }

  lemma LowBitsDiffer(h1: bv64, h2: bv64)
    requires h1 & 3 != h2 & 3
    ensures h1 != h2
  {
  }

  /** A total order on operands, used to pick a canonical operand order. */
  predicate OprLess(a: Opr, b: Opr) {
    match a
    case Var(i) => b.Imm? || (b.Var? && i < b.id)
    case Imm(v) => b.Imm? && v < b.val
  }

  /** The representative of an expression's equivalence class: commutative operands sorted. */
  function Canon(e: Expr): (c: Expr)
    ensures SameArth(e, c)
    ensures c.op == e.op
  {
    if Commutative(e.op) && OprLess(e.opr2, e.opr1) then Expr(e.opr2, e.opr1, e.op) else e
  }

  /** Two expressions are the same exactly when their representatives coincide, so a map
      keyed by representatives is a map keyed up to `SameArth`. */
  lemma SameArthIffCanon(a: Expr, b: Expr)
    ensures SameArth(a, b) <==> Canon(a) == Canon(b)
  {
    SameOprIsEquality(a.opr1, b.opr1);
    SameOprIsEquality(a.opr2, b.opr2);
    SameOprIsEquality(a.opr1, b.opr2);
    SameOprIsEquality(a.opr2, b.opr1);
  }

  /** `is_iropr_imm`: the operand is the immediate `k`. */
  predicate IsImm(o: Opr, k: int) { o.Imm? && o.val == k }

  /** The variables an operand mentions. */
  function OprVars(o: Opr): (s: set<nat>)
    ensures forall v: nat :: v in s <==> o == Var(v)
  {
    if o.Var? then {o.id} else {}
  }
}
