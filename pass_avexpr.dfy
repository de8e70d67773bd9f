/**
 * `ir_avexpr`: available expressions. A forward analysis maps each arithmetic
 * expression (up to commutativity) to a variable known to hold its value,
 * with top for "no information yet"; an arithmetic whose value is available
 * becomes a move (or a nop), and on the final rounds every operand is folded
 * back along its chain of copies.
 */
module AvexprPass {
  import opened Base
  import opened IrTypes
  import opened IrEval
  import opened Container
  import opened Dataflow
  import opened IrProgram
  import opened CfgBuild
  import opened Passes
  import opened Sweep

  /** Expression (by its representative) to a variable holding its value. */
  type Avail = map<Expr, nat>

  /** A per-position map: top, or the available expressions. */
  type AvFact = Fact<Expr, nat>

  /** `hmap_get` on a map that is not top: the entry of e's representative. */
  function Find(m: Avail, e: Expr): Option<nat>
  {
    if Canon(e) in m then Some(m[Canon(e)]) else None
  }

  /** `hmap_put`: e (by its representative) is now held by v. */
  function Put(m: Avail, e: Expr, v: nat): Avail
  {
    m[Canon(e) := v]
  }

  /** The key `o + #0` under which a copy of o is recorded. */
  function CopyKey(o: Opr): Expr
  {
    Expr(o, Imm(0), Plus)
  }

  /* ------------------------------------------------------------------ */
  /* What a map of available expressions means                          */
  /* ------------------------------------------------------------------ */

  /** In store s, variable v holds the value of e (and e has a value). */
  ghost predicate HeldIn(s: Store, e: Expr, v: nat)
  {
    ArthDefined(e.op, OprVal(s, e.opr2)) && Val(s, v) == ArthVal(e.op, OprVal(s, e.opr1), OprVal(s, e.opr2))
  }

  /** Every entry of m is true in s. */
  ghost predicate Holds(m: Avail, s: Store)
  {
    forall e | e in m :: HeldIn(s, e, m[e])
  }

  /** An expression and its representative have the same value. */
  lemma CanonHeld(s: Store, e: Expr, v: nat)
    ensures HeldIn(s, Canon(e), v) <==> HeldIn(s, e, v)
  {
    if Canon(e) != e {
      var x, y := OprVal(s, e.opr1), OprVal(s, e.opr2);
      assert e.op == Plus ==> x + y == y + x;
      assert e.op == Star ==> x * y == y * x;
    }
  }

  /** What `Find` returns is true in every store the map holds in. */
  lemma FindSound(m: Avail, e: Expr, s: Store)
    requires Holds(m, s) && Find(m, e).Some?
    ensures HeldIn(s, e, Find(m, e).value)
  {
    CanonHeld(s, e, m[Canon(e)]);
  }

  /** Putting a true entry keeps the map true. */
  lemma PutHolds(m: Avail, e: Expr, v: nat, s: Store)
    requires Holds(m, s) && HeldIn(s, e, v)
    ensures Holds(Put(m, e, v), s)
  {
    CanonHeld(s, e, v);
  }

  /** A recorded copy `o + #0` held by n means n has o's value. */
  lemma CopyHeld(s: Store, o: Opr, n: nat)
    ensures HeldIn(s, CopyKey(o), n) <==> Val(s, n) == OprVal(s, o)
  {
  }

  /* ------------------------------------------------------------------ */
  /* Kill and the copy chains                                           */
  /* ------------------------------------------------------------------ */

  /** `kill_condfunc`: the entry mentions v as an operand or as the holder. */
  predicate Mentions(e: Expr, w: nat, v: nat)
  {
    e.opr1 == Var(v) || e.opr2 == Var(v) || w == v
  }

  /** `ir_avexpr_kill`: every entry that mentions v goes. */
  function Kill(m: Avail, v: nat): (r: Avail)
    ensures forall e :: e in r <==> e in m && !Mentions(e, m[e], v)
    ensures forall e | e in r :: r[e] == m[e]
  {
    FilterMap(m, (e, w) => Mentions(e, w, v))
  }

  /** An operand that is not redefined keeps its value. */
  lemma OprKept(s1: Store, s2: Store, d: set<nat>, o: Opr)
    requires Keeps(s1, s2, d) && (o.Var? ==> o.id !in d)
    ensures OprVal(s2, o) == OprVal(s1, o)
  {
  }

  /** An entry none of whose variables is redefined stays true. */
  lemma HeldKept(s1: Store, s2: Store, d: set<nat>, e: Expr, w: nat)
    requires Keeps(s1, s2, d) && HeldIn(s1, e, w) && w !in d
    requires (e.opr1.Var? ==> e.opr1.id !in d) && (e.opr2.Var? ==> e.opr2.id !in d)
    ensures HeldIn(s2, e, w)
  {
    OprKept(s1, s2, d, e.opr1);
    OprKept(s1, s2, d, e.opr2);
  }

  /** The entries that survive a kill of v stay true when only v changes. */
  lemma KillHolds(m: Avail, v: nat, s1: Store, s2: Store)
    requires Holds(m, s1) && Keeps(s1, s2, {v})
    ensures Holds(Kill(m, v), s2)
  {
    var r := Kill(m, v);
    forall e | e in r ensures HeldIn(s2, e, r[e]) {
      assert e in m && !Mentions(e, m[e], v) && r[e] == m[e];
      HeldKept(s1, s2, {v}, e, m[e]);
    }
  }

  /** A map holds in any store that agrees on every variable. */
  lemma KeptHolds(m: Avail, s1: Store, s2: Store)
    requires Holds(m, s1) && Keeps(s1, s2, {})
    ensures Holds(m, s2)
  {
    forall e | e in m ensures HeldIn(s2, e, m[e]) {
      HeldKept(s1, s2, {}, e, m[e]);
    }
  }

  /**
   * The chain of copies of o: the variable recorded under `o + #0`, then the one
   * under that variable `+ #0`, and so on. The walk takes at most `fuel` steps.
   */
  function Chain(m: Avail, o: Opr, fuel: nat): (ns: seq<nat>)
    ensures |ns| <= fuel
    decreases fuel
  {
    match Find(m, CopyKey(o))
    case None => []
    case Some(n) => if fuel == 0 then [] else [n] + Chain(m, Var(n), fuel - 1)
  }

  /** Every variable on o's chain holds o's value. */
  lemma {:induction false} ChainSound(m: Avail, o: Opr, fuel: nat, s: Store)
    requires Holds(m, s)
    ensures forall k | 0 <= k < |Chain(m, o, fuel)| :: Val(s, Chain(m, o, fuel)[k]) == OprVal(s, o)
    decreases fuel
  {
    var f := Find(m, CopyKey(o));
    if f.Some? && fuel > 0 {
      var n := f.value;
      FindSound(m, CopyKey(o), s);
      CopyHeld(s, o, n);
      ChainSound(m, Var(n), fuel - 1, s);
      var ns := Chain(m, o, fuel);
      assert ns == [n] + Chain(m, Var(n), fuel - 1);
      forall k | 0 <= k < |ns| ensures Val(s, ns[k]) == OprVal(s, o) {
        if k > 0 {
          assert ns[k] == Chain(m, Var(n), fuel - 1)[k - 1];
        }
      }
    }
  }

  /** The walk of a chain as the C code's loops do it: `hmap_get` on `cur + #0` until NULL. */
  method WalkChain(m: Avail, o: Opr) returns (ns: seq<nat>)
    ensures ns == Chain(m, o, |m|)
  {
    ns := [];
    var cur: Opr, fuel: nat := o, |m|;
    var next := Find(m, CopyKey(cur));
    while next.Some? && fuel > 0
      invariant ns + Chain(m, cur, fuel) == Chain(m, o, |m|)
      invariant next == Find(m, CopyKey(cur))
      decreases fuel
    {
      ns := ns + [next.value];
      cur, fuel := Var(next.value), fuel - 1;
      next := Find(m, CopyKey(cur));
    }
  }

  /* ------------------------------------------------------------------ */
  /* Gen and transfer                                                   */
  /* ------------------------------------------------------------------ */

  /** One `hmap_put` after another: each key becomes held by l. */
  function PutAll(out: Avail, es: seq<Expr>, l: nat): Avail
    decreases |es|
  {
    if |es| == 0 then out else PutAll(Put(out, es[0], l), es[1..], l)
  }

  /** Putting true entries keeps the map true. */
  lemma {:induction false} PutAllHolds(out: Avail, es: seq<Expr>, l: nat, s: Store)
    requires Holds(out, s) && AllHeld(s, es, l)
    ensures Holds(PutAll(out, es, l), s)
    decreases |es|
  {
    if |es| > 0 {
      PutHolds(out, es[0], l, s);
      assert forall k | 0 <= k < |es| - 1 :: es[1..][k] == es[k + 1];
      PutAllHolds(Put(out, es[0], l), es[1..], l, s);
    }
  }

  /** Every key in es is held by l in s. */
  ghost predicate AllHeld(s: Store, es: seq<Expr>, l: nat)
  {
    forall k | 0 <= k < |es| :: HeldIn(s, es[k], l)
  }

  lemma AllHeldConcat(s: Store, es1: seq<Expr>, es2: seq<Expr>, l: nat)
    requires AllHeld(s, es1, l) && AllHeld(s, es2, l)
    ensures AllHeld(s, es1 + es2, l)
  {
  }

  /** The keys f(n) of every n other than l in ns, in order: the shape of the C code's
      loops over a chain, which skip the defined variable. */
  function KeysAlong(ns: seq<nat>, l: nat, f: nat -> seq<Expr>): seq<Expr>
    decreases |ns|
  {
    if |ns| == 0 then [] else (if ns[0] != l then f(ns[0]) else []) + KeysAlong(ns[1..], l, f)
  }

  lemma {:induction false} KeysAlongHeld(ns: seq<nat>, l: nat, f: nat -> seq<Expr>, s: Store)
    requires forall j | 0 <= j < |ns| && ns[j] != l :: AllHeld(s, f(ns[j]), l)
    ensures AllHeld(s, KeysAlong(ns, l, f), l)
    decreases |ns|
  {
    if |ns| > 0 {
      assert forall j | 0 <= j < |ns| - 1 :: ns[1..][j] == ns[j + 1];
      KeysAlongHeld(ns[1..], l, f, s);
      if ns[0] != l {
        AllHeldConcat(s, f(ns[0]), KeysAlong(ns[1..], l, f), l);
      }
    }
  }

  /** The key a chain variable n gives `ir_avexpr_gen_mov`: `n + #0`. */
  function CopyOf(): nat -> seq<Expr>
  {
    (n: nat) => [CopyKey(Var(n))]
  }

  /** The key a chain variable n of the second operand gives: `a1 op n`. */
  function SecondOf(a1: Opr, op: ArithOp): nat -> seq<Expr>
  {
    (n: nat) => [Expr(a1, Var(n), op)]
  }

  /** The keys a chain variable n of the first operand gives: those of
      `ir_avexpr_arth_opr2` for `n op b`. */
  function FirstOf(m: Avail, l: nat, b: Opr, op: ArithOp): nat -> seq<Expr>
  {
    (n: nat) => Opr2Keys(m, l, Var(n), b, op)
  }

  /** The keys `ir_avexpr_gen_mov` puts for `l := r`: `r + #0` when r is not l, then
      `n + #0` for every n other than l on r's chain in the in-map. */
  function MovKeys(m: Avail, l: nat, r: Opr): seq<Expr>
  {
    (if r != Var(l) then [CopyKey(r)] else []) + KeysAlong(Chain(m, r, |m|), l, CopyOf())
  }

  /** The keys `ir_avexpr_arth_opr2` puts for `l := a1 op b`: `a1 op b` when b is not l,
      then `a1 op n` for every n other than l on b's chain. */
  function Opr2Keys(m: Avail, l: nat, a1: Opr, b: Opr, op: ArithOp): seq<Expr>
  {
    (if b != Var(l) then [Expr(a1, b, op)] else []) + KeysAlong(Chain(m, b, |m|), l, SecondOf(a1, op))
  }

  /** The keys `ir_avexpr_gen_arth` should put for `l := a op b`: `a op b` when neither
      operand is l, then the keys of `ir_avexpr_arth_opr2` for every n other than l on
      a's chain. */
  function ArthKeys(m: Avail, l: nat, a: Opr, b: Opr, op: ArithOp): seq<Expr>
  {
    (if a != Var(l) && b != Var(l) then [Expr(a, b, op)] else []) + ChainKeys(m, l, a, b, op)
  }

  /** The keys `ir_avexpr_gen_arth` puts as written: its first put only checks a. */
  function ArthKeysAsWritten(m: Avail, l: nat, a: Opr, b: Opr, op: ArithOp): seq<Expr>
  {
    (if a != Var(l) then [Expr(a, b, op)] else []) + ChainKeys(m, l, a, b, op)
  }

  /** The keys of `ir_avexpr_arth_opr2` for every n other than l on a's chain. */
  function ChainKeys(m: Avail, l: nat, a: Opr, b: Opr, op: ArithOp): seq<Expr>
  {
    KeysAlong(Chain(m, a, |m|), l, FirstOf(m, l, b, op))
  }

  /** After `l := r`, every key `ir_avexpr_gen_mov` puts is held by l. */
  lemma MovKeysHeld(m: Avail, l: nat, r: Opr, s1: Store, s2: Store)
    requires Holds(m, s1) && Step(s1, Mov(l, r), s2)
    ensures AllHeld(s2, MovKeys(m, l, r), l)
  {
    var ns := Chain(m, r, |m|);
    ChainSound(m, r, |m|, s1);
    if r != Var(l) {
      OprKept(s1, s2, {l}, r);
    }
    var f := CopyOf();
    forall j | 0 <= j < |ns| && ns[j] != l ensures AllHeld(s2, f(ns[j]), l) {
      CopyHeld(s2, Var(ns[j]), l);
    }
    KeysAlongHeld(ns, l, f, s2);
    AllHeldConcat(s2, if r != Var(l) then [CopyKey(r)] else [], KeysAlong(ns, l, f), l);
  }

  /** After `l := a1 op b`, where a1 is not l and has a's value before, every key of
      `ir_avexpr_arth_opr2` for a1 is held by l. */
  lemma Opr2KeysHeld(m: Avail, l: nat, a: Opr, a1: Opr, b: Opr, op: ArithOp, s1: Store, s2: Store)
    requires Holds(m, s1) && Step(s1, Arth(l, a, b, op), s2)
    requires a1 != Var(l) && OprVal(s1, a1) == OprVal(s1, a)
    ensures AllHeld(s2, Opr2Keys(m, l, a1, b, op), l)
  {
    var ns := Chain(m, b, |m|);
    ChainSound(m, b, |m|, s1);
    OprKept(s1, s2, {l}, a1);
    if b != Var(l) {
      OprKept(s1, s2, {l}, b);
    }
    var f := SecondOf(a1, op);
    forall j | 0 <= j < |ns| && ns[j] != l ensures AllHeld(s2, f(ns[j]), l) {
      OprKept(s1, s2, {l}, Var(ns[j]));
    }
    KeysAlongHeld(ns, l, f, s2);
    AllHeldConcat(s2, if b != Var(l) then [Expr(a1, b, op)] else [], KeysAlong(ns, l, f), l);
  }

  /** After `l := a op b`, every key the corrected `ir_avexpr_gen_arth` puts is held by l. */
  lemma ArthKeysHeld(m: Avail, l: nat, a: Opr, b: Opr, op: ArithOp, s1: Store, s2: Store)
    requires Holds(m, s1) && Step(s1, Arth(l, a, b, op), s2)
    ensures AllHeld(s2, ArthKeys(m, l, a, b, op), l)
  {
    var ns := Chain(m, a, |m|);
    ChainSound(m, a, |m|, s1);
    var f := FirstOf(m, l, b, op);
    forall j | 0 <= j < |ns| && ns[j] != l ensures AllHeld(s2, f(ns[j]), l) {
      Opr2KeysHeld(m, l, a, Var(ns[j]), b, op, s1, s2);
    }
    KeysAlongHeld(ns, l, f, s2);
    if a != Var(l) && b != Var(l) {
      OprKept(s1, s2, {l}, a);
      OprKept(s1, s2, {l}, b);
    }
    AllHeldConcat(s2, if a != Var(l) && b != Var(l) then [Expr(a, b, op)] else [], ChainKeys(m, l, a, b, op), l);
  }

  /** The transfer of one instruction, the visitor table of `ir_avexpr`: the defined
      variable is killed, then a move or an arithmetic adds what it makes available. A
      function header, like the other instructions, changes nothing. */
  function Transfer(m: Avail, x: Instr): Avail
  {
    match x
    case Mov(l, r) => PutAll(Kill(m, l), MovKeys(m, l, r), l)
    case Arth(l, a, b, op) => PutAll(Kill(m, l), ArthKeys(m, l, a, b, op), l)
    case Addr(l, _) => Kill(m, l)
    case Load(l, _) => Kill(m, l)
    case Call(ret, _, _) => Kill(m, ret)
    case Read(v) => Kill(m, v)
    case _ => m
  }

  /** The transfer keeps the map true: if it holds before the instruction, it holds after.
      A function header, which the C code does not let kill its parameters, is only met
      with the empty map of the entry. */
  lemma TransferSound(m: Avail, x: Instr, s1: Store, s2: Store)
    requires Holds(m, s1) && Step(s1, x, s2) && (x.Func? ==> m == map[])
    ensures Holds(Transfer(m, x), s2)
  {
    match x
    case Mov(l, r) =>
      KillHolds(m, l, s1, s2);
      MovKeysHeld(m, l, r, s1, s2);
      PutAllHolds(Kill(m, l), MovKeys(m, l, r), l, s2);
    case Arth(l, a, b, op) =>
      KillHolds(m, l, s1, s2);
      ArthKeysHeld(m, l, a, b, op, s1, s2);
      PutAllHolds(Kill(m, l), ArthKeys(m, l, a, b, op), l, s2);
    case Addr(l, _) => KillHolds(m, l, s1, s2);
    case Load(l, _) => KillHolds(m, l, s1, s2);
    case Call(ret, _, _) => KillHolds(m, ret, s1, s2);
    case Read(v) => KillHolds(m, v, s1, s2);
    case Func(_, _) =>
    case Nop => KeptHolds(m, s1, s2);
    case Label(_) => KeptHolds(m, s1, s2);
    case Store(_, _) => KeptHolds(m, s1, s2);
    case Goto(_, _) => KeptHolds(m, s1, s2);
    case Branch(_, _, _, _, _) => KeptHolds(m, s1, s2);
    case Ret(_) => KeptHolds(m, s1, s2);
    case Alloc(_, _) => KeptHolds(m, s1, s2);
    case Write(_) => KeptHolds(m, s1, s2);
  }

  /** The transfer as `ir_avexpr_gen_arth` is written. */
  function TransferAsWritten(m: Avail, x: Instr): Avail
  {
    if x.Arth? then PutAll(Kill(m, x.lhs), ArthKeysAsWritten(m, x.lhs, x.opr1, x.opr2, x.op), x.lhs)
    else Transfer(m, x)
  }

  /** As written, `v1 := v0 - v1` records that `v0 - v1` is held in v1, which is false
      once v1 has changed: from v0 = 5, v1 = 2 the new v1 is 3, not 5 - 3. */
  lemma AsWrittenRecordsStaleFact()
    ensures var x := Arth(1, Var(0), Var(1), Minus);
      var s1: Store := map[0 := 5, 1 := 2];
      var s2: Store := map[0 := 5, 1 := 3];
      Holds(map[], s1) && Step(s1, x, s2) && !Holds(TransferAsWritten(map[], x), s2)
  {
    var x := Arth(1, Var(0), Var(1), Minus);
    var s1: Store := map[0 := 5, 1 := 2];
    var s2: Store := map[0 := 5, 1 := 3];
    var e := Expr(Var(0), Var(1), Minus);
    assert Chain(map[], Var(0), 0) == [];
    assert TransferAsWritten(map[], x) == map[e := 1];
    assert !HeldIn(s2, e, 1);
    StepArth(s1, s2, 1, Var(0), Var(1), Minus);
  }

  /** Which then turns the following `v2 := v0 - v1` into `v2 := v1`: from v0 = 5, v1 = 3
      the arithmetic leaves v2 = 2, which the move cannot. */
  lemma AsWrittenMiscompiles()
    ensures var m := TransferAsWritten(map[], Arth(1, Var(0), Var(1), Minus));
      var y := Arth(2, Var(0), Var(1), Minus);
      var s2: Store := map[0 := 5, 1 := 3];
      Elim(m, y) == Mov(2, Var(1)) && !RefinesAt(s2, y, Elim(m, y))
  {
    var e := Expr(Var(0), Var(1), Minus);
    var m := TransferAsWritten(map[], Arth(1, Var(0), Var(1), Minus));
    assert Chain(map[], Var(0), 0) == [];
    assert m == map[e := 1];
    var y := Arth(2, Var(0), Var(1), Minus);
    assert Avail2(m, Var(0), Var(1), Minus, |m|) == Some(1);
    var s2: Store := map[0 := 5, 1 := 3];
    var s3 := s2[2 := 2];
    StepArth(s2, s3, 2, Var(0), Var(1), Minus);
    assert !Step(s2, Mov(2, Var(1)), s3);
  }

  /** Running a list from a map that holds keeps it holding. */
  function TransferSeq(m: Avail, xs: seq<Instr>): Avail
    decreases |xs|
  {
    if |xs| == 0 then m else TransferSeq(Transfer(m, xs[0]), xs[1..])
  }

  /** A function header comes first, and only after the empty map. */
  predicate HeaderFirst(m: Avail, xs: seq<Instr>)
  {
    forall k | 0 <= k < |xs| && xs[k].Func? :: k == 0 && m == map[]
  }

  lemma {:induction false} TransferSeqSound(m: Avail, xs: seq<Instr>, s1: Store, s2: Store)
    requires Holds(m, s1) && Run(s1, xs, s2) && HeaderFirst(m, xs)
    ensures Holds(TransferSeq(m, xs), s2)
    decreases |xs|
  {
    if |xs| == 0 {
      KeptHolds(m, s1, s2);
    } else {
      var s :| Step(s1, xs[0], s) && Run(s, xs[1..], s2);
      TransferSound(m, xs[0], s1, s);
      assert forall k | 0 <= k < |xs| - 1 :: xs[1..][k] == xs[k + 1];
      TransferSeqSound(Transfer(m, xs[0]), xs[1..], s, s2);
    }
  }

  /* ------------------------------------------------------------------ */
  /* Looking an expression up                                           */
  /* ------------------------------------------------------------------ */

  /** `ir_avexpr_arth_get2`: `a op c` for c = b and then along b's chain, until found. */
  function Avail2(m: Avail, a: Opr, c: Opr, op: ArithOp, fuel: nat): Option<nat>
    decreases fuel
  {
    var t := Find(m, Expr(a, c, op));
    if t.Some? then t
    else match Find(m, CopyKey(c))
      case None => None
      case Some(n) => if fuel == 0 then None else Avail2(m, a, Var(n), op, fuel - 1)
  }

  /** `ir_avexpr_get_arth`: `ir_avexpr_arth_get2` for a and then along a's chain. */
  function AvailFrom(m: Avail, a: Opr, b: Opr, op: ArithOp, fuel: nat): Option<nat>
    decreases fuel
  {
    var t := Avail2(m, a, b, op, |m|);
    if t.Some? then t
    else match Find(m, CopyKey(a))
      case None => None
      case Some(n) => if fuel == 0 then None else AvailFrom(m, Var(n), b, op, fuel - 1)
  }

  /** The variable the in-map says holds e, if any. */
  function Available(m: Avail, e: Expr): Option<nat>
  {
    AvailFrom(m, e.opr1, e.opr2, e.op, |m|)
  }

  lemma {:induction false} Avail2Sound(m: Avail, a: Opr, c: Opr, op: ArithOp, fuel: nat, s: Store)
    requires Holds(m, s) && Avail2(m, a, c, op, fuel).Some?
    ensures HeldIn(s, Expr(a, c, op), Avail2(m, a, c, op, fuel).value)
    decreases fuel
  {
    if Find(m, Expr(a, c, op)).Some? {
      FindSound(m, Expr(a, c, op), s);
    } else {
      var n := Find(m, CopyKey(c)).value;
      FindSound(m, CopyKey(c), s);
      CopyHeld(s, c, n);
      Avail2Sound(m, a, Var(n), op, fuel - 1, s);
    }
  }

  lemma {:induction false} AvailFromSound(m: Avail, a: Opr, b: Opr, op: ArithOp, fuel: nat, s: Store)
    requires Holds(m, s) && AvailFrom(m, a, b, op, fuel).Some?
    ensures HeldIn(s, Expr(a, b, op), AvailFrom(m, a, b, op, fuel).value)
    decreases fuel
  {
    if Avail2(m, a, b, op, |m|).Some? {
      Avail2Sound(m, a, b, op, |m|, s);
    } else {
      var n := Find(m, CopyKey(a)).value;
      FindSound(m, CopyKey(a), s);
      CopyHeld(s, a, n);
      AvailFromSound(m, Var(n), b, op, fuel - 1, s);
    }
  }

  /** What the lookup finds holds e's value in every store the in-map holds in. */
  lemma AvailableSound(m: Avail, e: Expr, s: Store)
    requires Holds(m, s) && Available(m, e).Some?
    ensures HeldIn(s, e, Available(m, e).value)
  {
    AvailFromSound(m, e.opr1, e.opr2, e.op, |m|, s);
  }

  /** The loop of `ir_avexpr_arth_get2`. */
  method GetArth2(m: Avail, a: Opr, b: Opr, op: ArithOp) returns (r: Option<nat>)
    ensures r == Avail2(m, a, b, op, |m|)
  {
    var c: Opr, fuel: nat := b, |m|;
    r := Find(m, Expr(a, c, op));
    while r.None?
      invariant Avail2(m, a, c, op, fuel) == Avail2(m, a, b, op, |m|)
      invariant r == Find(m, Expr(a, c, op))
      decreases fuel
    {
      var next := Find(m, CopyKey(c));
      if next.None? || fuel == 0 {
        return None;
      }
      c, fuel := Var(next.value), fuel - 1;
      r := Find(m, Expr(a, c, op));
    }
  }

  /** The loop of `ir_avexpr_get_arth`. */
  method GetArth(m: Avail, e: Expr) returns (r: Option<nat>)
    ensures r == Available(m, e)
  {
    var a: Opr, fuel: nat := e.opr1, |m|;
    r := GetArth2(m, a, e.opr2, e.op);
    while r.None?
      invariant AvailFrom(m, a, e.opr2, e.op, fuel) == Available(m, e)
      invariant r == Avail2(m, a, e.opr2, e.op, |m|)
      decreases fuel
    {
      var next := Find(m, CopyKey(a));
      if next.None? || fuel == 0 {
        return None;
      }
      a, fuel := Var(next.value), fuel - 1;
      r := GetArth2(m, a, e.opr2, e.op);
    }
  }

  /* ------------------------------------------------------------------ */
  /* Elimination and reverse folding                                    */
  /* ------------------------------------------------------------------ */

  /** `ir_avexpr_elim_bb` on one instruction: an arithmetic whose value some variable
      holds becomes a move from it, or a nop when that variable is its own destination. */
  function Elim(m: Avail, x: Instr): (y: Instr)
    ensures Fits(x, y)
    ensures !x.Arth? ==> y == x
    ensures y != x ==> y.Mov? || y.Nop?
  {
    if x.Arth? then
      match Available(m, Expr(x.opr1, x.opr2, x.op))
      case None => x
      case Some(v) => if v == x.lhs then Nop else Mov(x.lhs, Var(v))
    else x
  }

  /** In a store the in-map holds in, the eliminated instruction can stand in for the original. */
  lemma ElimRefines(m: Avail, x: Instr, s: Store)
    requires Holds(m, s)
    ensures RefinesAt(s, x, Elim(m, x))
  {
    if x.Arth? {
      var e := Expr(x.opr1, x.opr2, x.op);
      var r := Available(m, e);
      if r.Some? {
        AvailableSound(m, e, s);
        forall s2 | Step(s, x, s2) ensures Step(s, Elim(m, x), s2) {
          if r.value != x.lhs {
            StepMov(s, s2, x.lhs, Var(r.value));
          }
        }
      }
    }
  }

  /** `reverse_fold` on a variable: the end of its chain of copies. */
  function ChainEnd(m: Avail, v: nat, fuel: nat): nat
    decreases fuel
  {
    match Find(m, CopyKey(Var(v)))
    case None => v
    case Some(n) => if fuel == 0 then v else ChainEnd(m, n, fuel - 1)
  }

  lemma {:induction false} ChainEndSound(m: Avail, v: nat, fuel: nat, s: Store)
    requires Holds(m, s)
    ensures Val(s, ChainEnd(m, v, fuel)) == Val(s, v)
    decreases fuel
  {
    var f := Find(m, CopyKey(Var(v)));
    if f.Some? && fuel > 0 {
      FindSound(m, CopyKey(Var(v)), s);
      CopyHeld(s, Var(v), f.value);
      ChainEndSound(m, f.value, fuel - 1, s);
    }
  }

  /** `reverse_fold`: an immediate stays, a variable becomes the end of its chain. */
  function FoldOpr(m: Avail, o: Opr): (r: Opr)
    ensures r.Imm? <==> o.Imm?
  {
    if o.Imm? then o else Var(ChainEnd(m, o.id, |m|))
  }

  /** The loop of `reverse_fold`. */
  method ReverseFold(m: Avail, o: Opr) returns (r: Opr)
    ensures r == FoldOpr(m, o)
  {
    if o.Imm? {
      return o;
    }
    var v: nat, fuel: nat := o.id, |m|;
    var next := Find(m, CopyKey(Var(v)));
    while next.Some? && fuel > 0
      invariant ChainEnd(m, v, fuel) == ChainEnd(m, o.id, |m|)
      invariant next == Find(m, CopyKey(Var(v)))
      decreases fuel
    {
      v, fuel := next.value, fuel - 1;
      next := Find(m, CopyKey(Var(v)));
    }
    r := Var(v);
  }

  /** A folded operand has the operand's value wherever the in-map holds. */
  lemma FoldOprSound(m: Avail, o: Opr, s: Store)
    requires Holds(m, s)
    ensures OprVal(s, FoldOpr(m, o)) == OprVal(s, o)
  {
    if o.Var? {
      ChainEndSound(m, o.id, |m|, s);
    }
  }

  function FoldOprs(m: Avail, os: seq<Opr>): (r: seq<Opr>)
    ensures |r| == |os|
  {
    seq(|os|, k requires 0 <= k < |os| => FoldOpr(m, os[k]))
  }

  /** The `ir_revefold` visitors: every operand read is folded, and a move that becomes
      a copy of its own destination becomes a nop. */
  function Revefold(m: Avail, x: Instr): Instr
  {
    match x
    case Mov(l, r) => var r1 := FoldOpr(m, r); if r1 == Var(l) then Nop else Mov(l, r1)
    case Arth(l, a, b, op) => Arth(l, FoldOpr(m, a), FoldOpr(m, b), op)
    case Load(l, src) => Load(l, ChainEnd(m, src, |m|))
    case Store(addr, r) => Store(ChainEnd(m, addr, |m|), FoldOpr(m, r))
    case Branch(a, b, rel, t, j) => Branch(FoldOpr(m, a), FoldOpr(m, b), rel, t, j)
    case Ret(o) => Ret(FoldOpr(m, o))
    case Call(ret, f, args) => Call(ret, f, FoldOprs(m, args))
    case Write(o) => Write(FoldOpr(m, o))
    case _ => x
  }

  /** Folding keeps what a rewrite must keep: the kind of instruction, its jump target
      and its destination. */
  lemma RevefoldFits(m: Avail, x: Instr)
    ensures Fits(x, Revefold(m, x))
    ensures Revefold(m, x).Arth? <==> x.Arth?
  {
  }

  /** In a store the in-map holds in, the folded instruction can stand in for the original. */
  lemma RevefoldRefines(m: Avail, x: Instr, s: Store)
    requires Holds(m, s)
    ensures RefinesAt(s, x, Revefold(m, x))
  {
    if x.Mov? {
      MovFoldRefines(m, x.lhs, x.rhs, s);
    } else if x.Arth? {
      ArthFoldRefines(m, x.lhs, x.opr1, x.opr2, x.op, s);
    } else if x.Call? {
      CallFoldRefines(m, x.ret, x.func, x.args, s);
    } else {
      OtherFoldRefines(m, x, s);
    }
  }

  /** Two instructions other than moves and arithmetic that define the same variables
      and hand out the same values stand in for each other. */
  lemma PlainRefines(s: Store, x: Instr, y: Instr)
    requires !x.Mov? && !x.Arth? && !y.Mov? && !y.Arth?
    requires Defs(y) == Defs(x) && Emits(s, y) == Emits(s, x)
    ensures RefinesAt(s, x, y)
  {
  }

  lemma OtherFoldRefines(m: Avail, x: Instr, s: Store)
    requires Holds(m, s) && !x.Mov? && !x.Arth? && !x.Call?
    ensures RefinesAt(s, x, Revefold(m, x))
  {
    if x.Store? {
      StoreFoldRefines(m, x.addr, x.rhs, s);
    } else if x.Ret? || x.Write? {
      FoldOprSound(m, x.opr, s);
      OutFoldRefines(m, x, s);
    } else if x.Load? || x.Branch? {
      PlainRefines(s, x, Revefold(m, x));
    } else {
      assert Revefold(m, x) == x;
    }
  }

  lemma OutFoldRefines(m: Avail, x: Instr, s: Store)
    requires x.Ret? || x.Write?
    requires OprVal(s, FoldOpr(m, x.opr)) == OprVal(s, x.opr)
    ensures RefinesAt(s, x, Revefold(m, x))
  {
    PlainRefines(s, x, Revefold(m, x));
  }

  lemma StoreFoldRefines(m: Avail, addr: nat, r: Opr, s: Store)
    requires Holds(m, s)
    ensures RefinesAt(s, Store(addr, r), Revefold(m, Store(addr, r)))
  {
    ChainEndSound(m, addr, |m|, s);
    FoldOprSound(m, r, s);
    PlainRefines(s, Store(addr, r), Store(ChainEnd(m, addr, |m|), FoldOpr(m, r)));
  }

  lemma ArthFoldRefines(m: Avail, l: nat, a: Opr, b: Opr, op: ArithOp, s: Store)
    requires Holds(m, s)
    ensures RefinesAt(s, Arth(l, a, b, op), Revefold(m, Arth(l, a, b, op)))
  {
    FoldOprSound(m, a, s);
    FoldOprSound(m, b, s);
  }

  /** The folded branch decides as the original does, and the folded load reads the
      same address, in a store the in-map holds in. */
  lemma RevefoldKeepsDecisions(m: Avail, x: Instr, s: Store)
    requires Holds(m, s)
    ensures x.Branch? ==> var y := Revefold(m, x);
      y.Branch? && Taken(s, y.opr1, y.opr2, y.rel) == Taken(s, x.opr1, x.opr2, x.rel)
    ensures x.Load? ==> var y := Revefold(m, x); y.Load? && Val(s, y.src) == Val(s, x.src)
  {
    if x.Branch? {
      FoldOprSound(m, x.opr1, s);
      FoldOprSound(m, x.opr2, s);
    } else if x.Load? {
      ChainEndSound(m, x.src, |m|, s);
    }
  }

  lemma MovFoldRefines(m: Avail, l: nat, r: Opr, s: Store)
    requires Holds(m, s)
    ensures RefinesAt(s, Mov(l, r), Revefold(m, Mov(l, r)))
  {
    var y := Revefold(m, Mov(l, r));
    FoldOprSound(m, r, s);
    forall s2 | Step(s, Mov(l, r), s2) ensures Step(s, y, s2) {
      if y.Mov? {
        StepMov(s, s2, l, y.rhs);
      }
    }
  }

  lemma CallFoldRefines(m: Avail, ret: nat, f: string, args: seq<Opr>, s: Store)
    requires Holds(m, s)
    ensures RefinesAt(s, Call(ret, f, args), Revefold(m, Call(ret, f, args)))
  {
    var y := Revefold(m, Call(ret, f, args));
    forall k | 0 <= k < |args| ensures OprVal(s, y.args[k]) == OprVal(s, args[k]) {
      FoldOprSound(m, args[k], s);
    }
    assert Emits(s, y) == Emits(s, Call(ret, f, args));
    PlainRefines(s, Call(ret, f, args), y);
  }

  /* ------------------------------------------------------------------ */
  /* The analysis over a graph, and the two sweeps                       */
  /* ------------------------------------------------------------------ */

  /** The in-map at position p of a block that starts at st and is entered with f. */
  function InAt(f: Avail, irs: seq<Instr>, st: nat, p: nat): Avail
    requires st <= p <= |irs|
  {
    TransferSeq(f, irs[st..p])
  }

  /** `ir_avexpr_transfer_bb` as the driver calls it: block b's instructions from in-map f;
      a top in-map is never transferred (the driver skips it). */
  function BlockTransfer(irs: seq<Instr>, bbs: seq<Block>, b: nat, f: AvFact): AvFact
  {
    if f.Known? && b < |bbs| && bbs[b].start <= bbs[b].end <= |irs| then
      Known(InAt(f.m, irs, bbs[b].start, bbs[b].end))
    else f
  }

  /** `ir_avexpr_skip`: a block whose in-map is still top waits. */
  predicate Skip(f: AvFact)
  {
    f.Top?
  }

  /** `ir_avexpr_elim_bb` at position q of block b, under the in-maps e. */
  function ElimAt(irs0: seq<Instr>, bbs: seq<Block>, e: seq<AvFact>, b: nat, q: nat, x: Instr): Instr
  {
    if b < |bbs| && b < |e| && e[b].Known? && bbs[b].start <= q <= |irs0| then
      Elim(InAt(e[b].m, irs0, bbs[b].start, q), x)
    else x
  }

  /** `ir_revefold_bb` at position q of block b: the in-maps are those the analysis found
      for the instructions before elimination. */
  function FoldAt(irs0: seq<Instr>, bbs: seq<Block>, e: seq<AvFact>, b: nat, q: nat, x: Instr): Instr
  {
    if b < |bbs| && b < |e| && e[b].Known? && bbs[b].start <= q <= |irs0| then
      Revefold(InAt(e[b].m, irs0, bbs[b].start, q), x)
    else x
  }

  function ElimRewrite(irs0: seq<Instr>, bbs: seq<Block>, e: seq<AvFact>): Rewrite
  {
    (b: nat, q: nat, x: Instr) => ElimAt(irs0, bbs, e, b, q, x)
  }

  function FoldRewrite(irs0: seq<Instr>, bbs: seq<Block>, e: seq<AvFact>): Rewrite
  {
    (b: nat, q: nat, x: Instr) => FoldAt(irs0, bbs, e, b, q, x)
  }

  /** Elimination only ever puts a fitting instruction in place. */
  lemma ElimFits(irs0: seq<Instr>, bbs: seq<Block>, e: seq<AvFact>)
    ensures AlwaysFits(ElimRewrite(irs0, bbs, e))
  {
    forall b: nat, q: nat, x: Instr ensures Fits(x, ElimRewrite(irs0, bbs, e)(b, q, x)) {
      if b < |bbs| && b < |e| && e[b].Known? && bbs[b].start <= q <= |irs0| {
        var y := Elim(InAt(e[b].m, irs0, bbs[b].start, q), x);
      }
    }
  }

  /** Folding only ever puts a fitting instruction in place. */
  lemma FoldFits(irs0: seq<Instr>, bbs: seq<Block>, e: seq<AvFact>)
    ensures AlwaysFits(FoldRewrite(irs0, bbs, e))
  {
    forall b: nat, q: nat, x: Instr ensures Fits(x, FoldRewrite(irs0, bbs, e)(b, q, x)) {
      if b < |bbs| && b < |e| && e[b].Known? && bbs[b].start <= q <= |irs0| {
        RevefoldFits(InAt(e[b].m, irs0, bbs[b].start, q), x);
      }
    }
  }

  /** The intersection meet with top as its identity obeys the laws the driver needs. */
  lemma AvMeetLaws()
    ensures MeetLaws(Meet<Expr, nat>)
  {
    forall a: AvFact, b: AvFact ensures Meet(Meet(a, b), b) == Meet(a, b) {
      MeetAssociates(a, b, b);
      MeetIdempotent(b);
    }
    forall a: AvFact, b: AvFact, c: AvFact ensures Meet(Meet(a, b), c) == Meet(Meet(a, c), b) {
      MeetAssociates(a, b, c);
      MeetCommutes(b, c);
      MeetAssociates(a, c, b);
    }
  }

  /** The maps solve the forward equations: a reachable block's in-map is known, its
      out-map is the transfer of its in-map, and its in-map is contained in the out-map
      of every reachable predecessor. */
  ghost predicate Solution(irs: seq<Instr>, bbs: seq<Block>, ins: seq<seq<nat>>, reach: seq<bool>,
                           e: seq<AvFact>, x: seq<AvFact>)
  {
    |e| == |bbs| + 1 && |x| == |bbs| + 1 && |reach| == |bbs| + 1 && |ins| == |bbs| + 1 &&
    forall b | 0 <= b < |bbs| && reach[b] ::
      e[b].Known? && x[b] == BlockTransfer(irs, bbs, b, e[b]) && Absorbs(Meet, ins[b], reach, x, e[b])
  }

  /**
   * The solution is sound along every edge c -> b between reachable blocks: if c's in-map
   * holds in the store on entry to c, then b's in-map holds in the store after running c.
   */
  lemma EdgeSound(irs: seq<Instr>, bbs: seq<Block>, ins: seq<seq<nat>>, reach: seq<bool>,
                  e: seq<AvFact>, x: seq<AvFact>, b: nat, k: nat, s0: Store, s: Store)
    requires Solution(irs, bbs, ins, reach, e, x) && BlocksSound(irs, bbs)
    requires b < |bbs| && reach[b] && k < |ins[b]| && ins[b][k] < |bbs| && reach[ins[b][k]]
    requires Holds(e[ins[b][k]].m, s0)
    requires HeaderFirst(e[ins[b][k]].m, irs[bbs[ins[b][k]].start..bbs[ins[b][k]].end])
    requires Run(s0, irs[bbs[ins[b][k]].start..bbs[ins[b][k]].end], s)
    ensures Holds(e[b].m, s)
  {
    var c := ins[b][k];
    TransferSeqSound(e[c].m, irs[bbs[c].start..bbs[c].end], s0, s);
    assert Meet(e[b], x[c]) == e[b];
    forall d | d in e[b].m ensures HeldIn(s, d, e[b].m[d]) {
      MeetIsLowerBound(e[b], x[c], d);
    }
  }

  /**
   * What the two sweeps leave at a position is sound: when the block's in-map holds on
   * entry and execution of the original block reaches position q in store s, the final
   * instruction there can stand in for the original, and a branch decides the same way.
   */
  lemma RewriteSound(irs0: seq<Instr>, bbs: seq<Block>, e: seq<AvFact>, b: nat, q: nat, s0: Store, s: Store)
    requires b < |bbs| && b < |e| && e[b].Known? && bbs[b].start <= q < |irs0|
    requires Holds(e[b].m, s0) && HeaderFirst(e[b].m, irs0[bbs[b].start..q])
    requires Run(s0, irs0[bbs[b].start..q], s)
    ensures var y := ElimAt(irs0, bbs, e, b, q, irs0[q]);
      RefinesAt(s, irs0[q], y) && RefinesAt(s, irs0[q], FoldAt(irs0, bbs, e, b, q, y))
    ensures irs0[q].Branch? ==> var z := FoldAt(irs0, bbs, e, b, q, ElimAt(irs0, bbs, e, b, q, irs0[q]));
      z.Branch? && Taken(s, z.opr1, z.opr2, z.rel) == Taken(s, irs0[q].opr1, irs0[q].opr2, irs0[q].rel)
  {
    var m := InAt(e[b].m, irs0, bbs[b].start, q);
    TransferSeqSound(e[b].m, irs0[bbs[b].start..q], s0, s);
    var y := Elim(m, irs0[q]);
    ElimRefines(m, irs0[q], s);
    RevefoldRefines(m, y, s);
    RefinesAtTrans(s, irs0[q], y, Revefold(m, y));
    RevefoldKeepsDecisions(m, y, s);
  }

  /** Block in-maps the driver starts from: the entry block's is empty, every other is top. */
  function EntryMaps(n: nat): (e0: seq<AvFact>)
    ensures |e0| == n + 1 && e0[0] == Known(map[])
    ensures forall b | 0 < b <= n :: e0[b].Top?
  {
    seq(n + 1, (b: nat) => if b == 0 then Known(map[]) else Top)
  }

  /** `ir_analyse_cfg` with elimination, then, on the final round, with folding. */
  method Sweeps(cfg: Cfg, bbs: seq<Block>, e: seq<AvFact>, final: bool) returns (opt: bool, ghost elimd: seq<Instr>)
    requires Ready(cfg) && bbs == cfg.bbs
    modifies cfg
    ensures Kept(cfg, old(cfg.labels), old(cfg.nextJid), old(cfg.exprMap), old(cfg.Shape()))
    ensures SweptBlocks(old(cfg.irs), elimd, bbs, cfg.bbReach, ElimRewrite(old(cfg.irs), bbs, e), |bbs|)
    ensures final ==> SweptBlocks(elimd, cfg.irs, bbs, cfg.bbReach, FoldRewrite(old(cfg.irs), bbs, e), |bbs|)
    ensures !final ==> cfg.irs == elimd
    ensures AllFit(old(cfg.irs), cfg.irs)
    ensures opt <==> cfg.irs != old(cfg.irs)
  {
    var irs := cfg.irs;
    ElimFits(irs, bbs, e);
    opt := SweepCfg(cfg, ElimRewrite(irs, bbs, e));
    elimd := cfg.irs;
    if final {
      AllFitRelates(irs, elimd);
      RelateReady(irs, elimd, bbs, cfg.labelBlock);
      FoldFits(irs, bbs, e);
      var o := SweepCfg(cfg, FoldRewrite(irs, bbs, e));
      AllFitTrans(irs, elimd, cfg.irs);
      FoldKeepsElim(irs, elimd, cfg.irs, bbs, cfg.bbReach, e);
      opt := opt || o;
    }
  }

  /** Folding never undoes an elimination: an arithmetic that became a move or a nop
      does not come back. */
  lemma FoldKeepsElim(irs0: seq<Instr>, elimd: seq<Instr>, irs: seq<Instr>, bbs: seq<Block>, reach: seq<bool>,
                      e: seq<AvFact>)
    requires SweptBlocks(irs0, elimd, bbs, reach, ElimRewrite(irs0, bbs, e), |bbs|)
    requires SweptBlocks(elimd, irs, bbs, reach, FoldRewrite(irs0, bbs, e), |bbs|)
    ensures elimd != irs0 ==> irs != irs0
  {
    if elimd != irs0 {
      var q :| 0 <= q < |irs0| && elimd[q] != irs0[q];
      var b :| 0 <= b < |bbs| && reach[b] && bbs[b].start <= q < bbs[b].end;
      assert elimd[q] == ElimAt(irs0, bbs, e, b, q, irs0[q]);
      assert irs[q] == FoldAt(irs0, bbs, e, b, q, elimd[q]);
      if b < |e| && e[b].Known? {
        RevefoldFits(InAt(e[b].m, irs0, bbs[b].start, q), elimd[q]);
      }
    }
  }

  /**
   * One function (`ir_avexpr`'s loop body): the forward analysis with the intersection
   * meet, then elimination in every reachable block and, on the final round, folding
   * under the same in-maps. The graph is not rebuilt: the block shape stays as it was.
   * The sweeps run only when the driver reached its fixpoint.
   */
  method AvexprCfg(cfg: Cfg, final: bool, fuel: nat)
    returns (opt: bool, done: bool, ghost e: seq<AvFact>, ghost x: seq<AvFact>, ghost elimd: seq<Instr>)
    requires Ready(cfg)
    modifies cfg
    ensures Ready(cfg) && cfg.Graph() == old(cfg.Graph()) && cfg.labels == old(cfg.labels)
    ensures cfg.reachable == old(cfg.reachable)
    ensures AllFit(old(cfg.irs), cfg.irs)
    ensures AllRelate(old(cfg.irs), cfg.irs)
    ensures !done ==> cfg.irs == old(cfg.irs) && !opt
    ensures done ==> Solution(old(cfg.irs), cfg.bbs, cfg.ins, cfg.bbReach, e, x)
    ensures done ==> SweptBlocks(old(cfg.irs), elimd, cfg.bbs, cfg.bbReach, ElimRewrite(old(cfg.irs), cfg.bbs, e), |cfg.bbs|)
    ensures done && final ==> SweptBlocks(elimd, cfg.irs, cfg.bbs, cfg.bbReach, FoldRewrite(old(cfg.irs), cfg.bbs, e), |cfg.bbs|)
    ensures done && !final ==> cfg.irs == elimd
    ensures opt <==> cfg.irs != old(cfg.irs)
  {
    var irs, bbs, n := cfg.irs, cfg.bbs, |cfg.bbs|;
    var trans := (b: nat, f: AvFact) => BlockTransfer(irs, bbs, b, f);
    AvMeetLaws();
    var e0 := EntryMaps(n);
    var x0: seq<AvFact> := seq(n + 1, _ => Top);
    var e1, x1, d := IterCfg(cfg.outs, cfg.ins, cfg.bbReach, n, true, Meet, Skip, trans, e0, x0, fuel);
    e, x, done := e1, x1, d;
    opt := false;
    elimd := irs;
    if done {
      forall b | 0 <= b < n && cfg.bbReach[b]
        ensures e[b].Known? && x[b] == BlockTransfer(irs, bbs, b, e[b]) && Absorbs(Meet, cfg.ins[b], cfg.bbReach, x, e[b])
      {
        assert Stable(cfg.ins, cfg.bbReach, Meet, Skip, trans, e, x, b);
      }
      opt, elimd := Sweeps(cfg, bbs, e1, final);
    } else {
      assert AllFit(irs, cfg.irs);
    }
    AllFitRelates(irs, cfg.irs);
    RelateReady(irs, cfg.irs, bbs, cfg.labelBlock);
  }

  /** What the analysis and the sweeps of one function gave: where the driver drained,
      the maps solve the equations of its graph, every reachable block was eliminated
      under them (elimd) and, on the final round, folded under the same in-maps (irs);
      where it did not drain, the code is untouched. */
  ghost predicate Eliminated(irs0: seq<Instr>, bbs: seq<Block>, ins0: seq<seq<nat>>, reach0: seq<bool>,
                            final: bool, done: bool, e: seq<AvFact>, x: seq<AvFact>, elimd: seq<Instr>,
                            irs: seq<Instr>)
  {
    (done ==> Solution(irs0, bbs, ins0, reach0, e, x) &&
              SweptBlocks(irs0, elimd, bbs, reach0, ElimRewrite(irs0, bbs, e), |bbs|) &&
              (final ==> SweptBlocks(elimd, irs, bbs, reach0, FoldRewrite(irs0, bbs, e), |bbs|)) &&
              (!final ==> irs == elimd)) &&
    (!done ==> irs == irs0)
  }

  /** Eliminated holds of every reachable function below n, and an unreachable one kept its
      code (stated one function at a time; AllEliminatedAt reads it back). */
  ghost predicate AllEliminated(irs0: seq<seq<Instr>>, bbs0: seq<seq<Block>>, ins0: seq<seq<seq<nat>>>,
                               bbr0: seq<seq<bool>>, reach0: seq<bool>, final: bool, dones: seq<bool>,
                               es: seq<seq<AvFact>>, xs: seq<seq<AvFact>>, elimds: seq<seq<Instr>>,
                               news: seq<seq<Instr>>, n: nat)
    decreases n
  {
    n <= |irs0| && n <= |bbs0| && n <= |ins0| && n <= |bbr0| && n <= |reach0| &&
    |dones| == |es| == |xs| == |elimds| == |news| == n &&
    (n > 0 ==>
      AllEliminated(irs0, bbs0, ins0, bbr0, reach0, final, dones[..n - 1], es[..n - 1], xs[..n - 1],
                   elimds[..n - 1], news[..n - 1], n - 1) &&
      if reach0[n - 1] then
        Eliminated(irs0[n - 1], bbs0[n - 1], ins0[n - 1], bbr0[n - 1], final, dones[n - 1], es[n - 1], xs[n - 1],
                  elimds[n - 1], news[n - 1])
      else news[n - 1] == irs0[n - 1])
  }

  /** AllEliminated, read at function i. */
  lemma {:induction false} AllEliminatedAt(irs0: seq<seq<Instr>>, bbs0: seq<seq<Block>>, ins0: seq<seq<seq<nat>>>,
                                          bbr0: seq<seq<bool>>, reach0: seq<bool>, final: bool, dones: seq<bool>,
                                          es: seq<seq<AvFact>>, xs: seq<seq<AvFact>>, elimds: seq<seq<Instr>>,
                                          news: seq<seq<Instr>>, n: nat, i: nat)
    requires AllEliminated(irs0, bbs0, ins0, bbr0, reach0, final, dones, es, xs, elimds, news, n) && i < n
    ensures reach0[i] ==>
      Eliminated(irs0[i], bbs0[i], ins0[i], bbr0[i], final, dones[i], es[i], xs[i], elimds[i], news[i])
    ensures !reach0[i] ==> news[i] == irs0[i]
    decreases n
  {
    if i < n - 1 {
      AllEliminatedAt(irs0, bbs0, ins0, bbr0, reach0, final, dones[..n - 1], es[..n - 1], xs[..n - 1],
                     elimds[..n - 1], news[..n - 1], n - 1, i);
    }
  }

  /** Appending the outcome of function n extends AllEliminated to n + 1. */
  lemma AllEliminatedSnoc(irs0: seq<seq<Instr>>, bbs0: seq<seq<Block>>, ins0: seq<seq<seq<nat>>>,
                         bbr0: seq<seq<bool>>, reach0: seq<bool>, final: bool, dones: seq<bool>,
                         es: seq<seq<AvFact>>, xs: seq<seq<AvFact>>, elimds: seq<seq<Instr>>,
                         news: seq<seq<Instr>>, n: nat,
                         d: bool, e: seq<AvFact>, x: seq<AvFact>, el: seq<Instr>, y: seq<Instr>)
    requires AllEliminated(irs0, bbs0, ins0, bbr0, reach0, final, dones, es, xs, elimds, news, n)
    requires n < |irs0| && n < |bbs0| && n < |ins0| && n < |bbr0| && n < |reach0|
    requires if reach0[n] then Eliminated(irs0[n], bbs0[n], ins0[n], bbr0[n], final, d, e, x, el, y)
             else y == irs0[n]
    ensures AllEliminated(irs0, bbs0, ins0, bbr0, reach0, final, dones + [d], es + [e], xs + [x],
                         elimds + [el], news + [y], n + 1)
  {
    assert (dones + [d])[..n] == dones && (es + [e])[..n] == es && (xs + [x])[..n] == xs;
    assert (elimds + [el])[..n] == elimds && (news + [y])[..n] == news;
  }

  /** The state of the loop of `ir_avexpr` before function i: every graph is still ready
      and related to its snapshot and holds now, those from i on are untouched, and those
      below i were analysed and rewritten. */
  ghost predicate Halfway(cfgs: seq<Cfg>, irs0: seq<seq<Instr>>, keys0: seq<set<nat>>, reach0: seq<bool>,
                          bbs0: seq<seq<Block>>, ins0: seq<seq<seq<nat>>>, bbr0: seq<seq<bool>>, final: bool,
                          dones: seq<bool>, es: seq<seq<AvFact>>, xs: seq<seq<AvFact>>, elimds: seq<seq<Instr>>,
                          now: seq<seq<Instr>>, i: nat)
    reads cfgs
  {
    i <= |cfgs| && DistinctCfgs(cfgs) &&
    |now| == |irs0| == |keys0| == |reach0| == |bbs0| == |ins0| == |bbr0| == |cfgs| &&
    (forall j | 0 <= j < |cfgs| :: GraphRewritten(cfgs[j], irs0[j], keys0[j], reach0[j]) && cfgs[j].irs == now[j]) &&
    (forall j | i <= j < |cfgs| ::
       now[j] == irs0[j] && cfgs[j].bbs == bbs0[j] && cfgs[j].ins == ins0[j] && cfgs[j].bbReach == bbr0[j]) &&
    AllEliminated(irs0, bbs0, ins0, bbr0, reach0, final, dones, es, xs, elimds, now[..i], i)
  }

  /** Turn i of the loop of `ir_avexpr`: function i is analysed and rewritten and its
      outcome appended; the result says whether its instructions changed. */
  method AvexprNext(cfgs: seq<Cfg>, i: nat, final: bool, fuel: nat, ghost irs0: seq<seq<Instr>>,
                    ghost keys0: seq<set<nat>>, ghost reach0: seq<bool>, ghost bbs0: seq<seq<Block>>,
                    ghost ins0: seq<seq<seq<nat>>>, ghost bbr0: seq<seq<bool>>, ghost dones: seq<bool>,
                    ghost es: seq<seq<AvFact>>, ghost xs: seq<seq<AvFact>>, ghost elimds: seq<seq<Instr>>,
                    ghost now: seq<seq<Instr>>)
    returns (o: bool, ghost dones1: seq<bool>, ghost es1: seq<seq<AvFact>>, ghost xs1: seq<seq<AvFact>>,
             ghost elimds1: seq<seq<Instr>>, ghost now1: seq<seq<Instr>>)
    requires i < |cfgs|
    requires Halfway(cfgs, irs0, keys0, reach0, bbs0, ins0, bbr0, final, dones, es, xs, elimds, now, i)
    modifies cfgs
    ensures Halfway(cfgs, irs0, keys0, reach0, bbs0, ins0, bbr0, final, dones1, es1, xs1, elimds1, now1, i + 1)
    ensures now1 == now[i := now1[i]] && (o <==> now1[i] != irs0[i])
  {
    OthersApart(cfgs, i);
    ghost var d, e, x, el;
    o, d, e, x, el := AvexprOne(cfgs[i], final, fuel, irs0[i], keys0[i], reach0[i], bbs0[i], ins0[i], bbr0[i]);
    AllEliminatedSnoc(irs0, bbs0, ins0, bbr0, reach0, final, dones, es, xs, elimds, now[..i], i, d, e, x, el,
                      cfgs[i].irs);
    now1 := now[i := cfgs[i].irs];
    assert now1[..i + 1] == now[..i] + [cfgs[i].irs];
    dones1, es1, xs1, elimds1 := dones + [d], es + [e], xs + [x], elimds + [el];
  }

  /** The loop of `ir_avexpr` over the functions: each reachable one is analysed and
      rewritten under the solution its driver found; the flag is raised exactly when some
      instruction changed. */
  method AvexprCfgs(cfgs: seq<Cfg>, final: bool, fuel: nat, ghost irs0: seq<seq<Instr>>,
                    ghost keys0: seq<set<nat>>, ghost reach0: seq<bool>, ghost bbs0: seq<seq<Block>>,
                    ghost ins0: seq<seq<seq<nat>>>, ghost bbr0: seq<seq<bool>>)
    returns (opt: bool, ghost dones: seq<bool>, ghost es: seq<seq<AvFact>>, ghost xs: seq<seq<AvFact>>,
             ghost elimds: seq<seq<Instr>>)
    requires DistinctCfgs(cfgs) && forall i | 0 <= i < |cfgs| :: Ready(cfgs[i])
    requires Snapshot(cfgs, irs0, keys0, reach0) && FlowSnapshot(cfgs, bbs0, ins0, bbr0)
    modifies cfgs
    ensures Rewritten(cfgs, irs0, keys0, reach0)
    ensures AllEliminated(irs0, bbs0, ins0, bbr0, reach0, final, dones, es, xs, elimds, IrsOf(cfgs), |cfgs|)
    ensures opt <==> IrsOf(cfgs) != irs0
  {
    opt := false;
    dones, es, xs, elimds := [], [], [], [];
    ghost var now := irs0;
    for i := 0 to |cfgs|
      invariant Halfway(cfgs, irs0, keys0, reach0, bbs0, ins0, bbr0, final, dones, es, xs, elimds, now, i)
      invariant opt <==> DiffersBelow(now, irs0, i)
    {
      var o: bool;
      ghost var now1;
      o, dones, es, xs, elimds, now1 := AvexprNext(cfgs, i, final, fuel, irs0, keys0, reach0, bbs0, ins0, bbr0,
                                                   dones, es, xs, elimds, now);
      DiffersStep(now, irs0, i, now1[i]);
      opt := opt || o;
      now := now1;
    }
    assert now[..|cfgs|] == now;
    IrsKept(cfgs, now);
    DiffersAll(IrsOf(cfgs), irs0);
  }

  /** One turn of that loop: a reachable function is analysed and rewritten under the
      solution found, and the result says whether its instructions changed. */
  method AvexprOne(cfg: Cfg, final: bool, fuel: nat, ghost irs0: seq<Instr>, ghost keys0: set<nat>,
                   ghost reach0: bool, ghost bbs0: seq<Block>, ghost ins0: seq<seq<nat>>, ghost bbr0: seq<bool>)
    returns (opt: bool, ghost done: bool, ghost e: seq<AvFact>, ghost x: seq<AvFact>, ghost elimd: seq<Instr>)
    requires GraphRewritten(cfg, irs0, keys0, reach0) && cfg.irs == irs0
    requires cfg.bbs == bbs0 && cfg.ins == ins0 && cfg.bbReach == bbr0
    modifies cfg
    ensures GraphRewritten(cfg, irs0, keys0, reach0)
    ensures opt <==> cfg.irs != irs0
    ensures if reach0 then Eliminated(irs0, bbs0, ins0, bbr0, final, done, e, x, elimd, cfg.irs)
            else cfg.irs == irs0
  {
    opt, done, e, x, elimd := false, false, [], [], irs0;
    if cfg.reachable {
      opt, done, e, x, elimd := AvexprCfg(cfg, final, fuel);
    }
  }

  /**
   * `ir_avexpr`: every reachable function is analysed and rewritten. The result is
   * `do_opt`, raised exactly when some instruction changed; every function whose
   * analysis drained was rewritten under a solution of its equations. Unlike the other
   * passes the graphs are not rebuilt and reachability is not rechecked.
   */
  method AvexprProgram(prog: Program, final: bool, fuel: nat)
    returns (opt: bool, ghost dones: seq<bool>, ghost es: seq<seq<AvFact>>, ghost xs: seq<seq<AvFact>>,
             ghost elimds: seq<seq<Instr>>)
    requires ProgramReady(prog)
    modifies prog.cfgs
    ensures ProgramReady(prog)
    ensures PassRelates(old(IrsOf(prog.cfgs)), IrsOf(prog.cfgs), old(ReachOf(prog.cfgs)))
    ensures AllEliminated(old(IrsOf(prog.cfgs)), old(BbsOf(prog.cfgs)), old(InsOf(prog.cfgs)),
                         old(BbReachOf(prog.cfgs)), old(ReachOf(prog.cfgs)), final,
                         dones, es, xs, elimds, IrsOf(prog.cfgs), |prog.cfgs|)
    ensures opt <==> IrsOf(prog.cfgs) != old(IrsOf(prog.cfgs))
  {
    ghost var irs0, keys0, reach0 := IrsOf(prog.cfgs), KeysOf(prog.cfgs), ReachOf(prog.cfgs);
    ghost var bbs0, ins0, bbr0 := BbsOf(prog.cfgs), InsOf(prog.cfgs), BbReachOf(prog.cfgs);
    ReadyParts(prog, irs0, keys0, reach0);
    FlowParts(prog.cfgs, bbs0, ins0, bbr0);
    opt, dones, es, xs, elimds := AvexprCfgs(prog.cfgs, final, fuel, irs0, keys0, reach0, bbs0, ins0, bbr0);
    StillReady(prog, irs0, keys0, reach0);
    assert irs0 == old(IrsOf(prog.cfgs)) && reach0 == old(ReachOf(prog.cfgs));
    assert bbs0 == old(BbsOf(prog.cfgs)) && ins0 == old(InsOf(prog.cfgs)) && bbr0 == old(BbReachOf(prog.cfgs));
  }
}
