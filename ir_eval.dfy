/**
 * A reference meaning for the instructions, against which the analyses and
 * rewrites are judged. A store gives every variable a C `int`; a step relates
 * the store before an instruction to a store after it. Memory is not
 * modelled: an address, a load, a call or an input may give the variable it
 * defines any value.
 */
module IrEval {
  import opened Base
  import opened IrTypes

  /** Variable values; an unset variable reads as 0 and every value is read as a C `int`. */
  type Store = map<nat, int>

  function Val(s: Store, v: nat): (r: int)
    ensures IsInt32(r)
  {
    if v in s then Wrap32(s[v]) else 0
  }

  /** The value an operand denotes: a variable's value or the immediate as a C `int`. */
  function OprVal(s: Store, o: Opr): (r: int)
    ensures IsInt32(r)
    ensures o.Var? ==> r == Val(s, o.id)
    ensures o.Imm? && IsInt32(o.val) ==> r == o.val
  {
    match o
    case Var(v) => Val(s, v)
    case Imm(k) => Wrap32(k)
  }

  /** The one arithmetic case without a result: division by zero. */
  predicate ArthDefined(op: ArithOp, y: int)
  {
    op != Div || y != 0
  }

  /** C `int` arithmetic: the exact result wrapped to 32 bits, division truncating toward zero. */
  function ArthVal(op: ArithOp, x: int, y: int): (r: int)
    requires ArthDefined(op, y)
    ensures IsInt32(r)
  {
    Wrap32(match op
      case Plus => x + y
      case Minus => x - y
      case Star => x * y
      case Div => TruncDiv(x, y))
  }

  /** s2 agrees with s1 on every variable outside `defs`. */
  ghost predicate Keeps(s1: Store, s2: Store, defs: set<nat>)
  {
    forall v: nat :: v !in defs ==> Val(s2, v) == Val(s1, v)
  }

  /** The variables an instruction (re)defines. */
  function Defs(x: Instr): (d: set<nat>)
    ensures x.Mov? || x.Arth? || x.Addr? || x.Load? ==> d == {x.lhs}
  {
    match x
    case Func(_, ps) => set k | 0 <= k < |ps| :: ps[k]
    case Mov(l, _) => {l}
    case Arth(l, _, _, _) => {l}
    case Addr(l, _) => {l}
    case Load(l, _) => {l}
    case Call(l, _, _) => {l}
    case Read(l) => {l}
    case _ => {}
  }

  /** Executing x from s1 may leave s2: a move and an arithmetic set their destination
      to the operands' value (division by zero has no successor state), any other
      definition leaves its variables unconstrained, and everything else keeps the store. */
  ghost predicate Step(s1: Store, x: Instr, s2: Store)
  {
    Keeps(s1, s2, Defs(x)) &&
    match x
    case Mov(l, r) => Val(s2, l) == OprVal(s1, r)
    case Arth(l, a, b, op) =>
      ArthDefined(op, OprVal(s1, b)) && Val(s2, l) == ArthVal(op, OprVal(s1, a), OprVal(s1, b))
    case _ => true
  }

  /** Whether a conditional jump on `a rel b` is taken from store s. */
  predicate Taken(s: Store, a: Opr, b: Opr, rel: Relop)
  {
    EvalRelop(rel, OprVal(s, a), OprVal(s, b))
  }

  /** The values an instruction hands to the world outside the variables: the address and
      value of a store, the returned value, the written value, the call's arguments. */
  function Emits(s: Store, x: Instr): seq<int>
  {
    match x
    case Store(a, r) => [Val(s, a), OprVal(s, r)]
    case Ret(o) => [OprVal(s, o)]
    case Write(o) => [OprVal(s, o)]
    case Call(_, _, args) => seq(|args|, k requires 0 <= k < |args| => OprVal(s, args[k]))
    case _ => []
  }

  /** Running xs from s1 may leave s2. */
  ghost predicate Run(s1: Store, xs: seq<Instr>, s2: Store)
    decreases |xs|
  {
    if |xs| == 0 then Keeps(s1, s2, {})
    else exists s :: Step(s1, xs[0], s) && Run(s, xs[1..], s2)
  }

  /** y can stand in for x: from any store, whatever x can leave y can leave too, and
      both hand out the same values. */
  ghost predicate Refines(x: Instr, y: Instr)
  {
    forall s1, s2 :: Step(s1, x, s2) ==> Step(s1, y, s2) && Emits(s1, y) == Emits(s1, x)
  }

  /** From store s1, y can stand in for x: whatever x can leave, y can leave too, and both
      hand out the same values. */
  ghost predicate RefinesAt(s1: Store, x: Instr, y: Instr)
  {
    (forall s2 :: Step(s1, x, s2) ==> Step(s1, y, s2)) && Emits(s1, y) == Emits(s1, x)
  }

  /** How a store after a move is recognised. */
  lemma StepMov(s1: Store, s2: Store, l: nat, r: Opr)
    requires Keeps(s1, s2, {l}) && Val(s2, l) == OprVal(s1, r)
    ensures Step(s1, Mov(l, r), s2)
  {
  }

  /** How a store after an arithmetic is recognised. */
  lemma StepArth(s1: Store, s2: Store, l: nat, a: Opr, b: Opr, op: ArithOp)
    requires Keeps(s1, s2, {l}) && ArthDefined(op, OprVal(s1, b))
    requires Val(s2, l) == ArthVal(op, OprVal(s1, a), OprVal(s1, b))
    ensures Step(s1, Arth(l, a, b, op), s2)
  {
  }

  /** Standing in for is transitive. */
  lemma RefinesAtTrans(s1: Store, x: Instr, y: Instr, z: Instr)
    requires RefinesAt(s1, x, y) && RefinesAt(s1, y, z)
    ensures RefinesAt(s1, x, z)
  {
  }
}
