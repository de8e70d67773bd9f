/**
 * What the code the lowering emits for a condition does when it runs. A piece of code
 * is run from a position: labels are passed over, moves update the store, and a jump
 * continues after its label when the label comes later in the piece, or leaves the
 * piece when the label is not in it. The theorems: the short-circuit code for a
 * condition leaves through its true label exactly when the C condition holds (a
 * non-zero value, a comparison, `!`, `&&`, `||`), and the code of `v2b` ends with its
 * temporary holding 1 or 0 accordingly.
 */
module LowerFlow {
  import opened Base
  import opened IrTypes
  import opened Ast
  import opened AstIr
  import IrEval
  import Sem = Semantics

  type Store = IrEval.Store

  /* ------------------------------------------------------------------ */
  /* Running a piece of code                                             */
  /* ------------------------------------------------------------------ */

  /** How a run ends: it leaves through a label the piece does not place, it runs past
      the end, or it meets something it does not run (any other instruction, or a jump
      back to an earlier label). */
  datatype Exit = To(out: nat, s: Store) | Falls(s: Store) | Stuck

  /** The first position of label `l` in `c`. */
  function Find(c: seq<Instr>, l: nat): (r: Option<nat>)
    ensures r.Some? ==> r.value < |c| && c[r.value] == Label(l)
    ensures r.Some? ==> forall i | 0 <= i < r.value :: c[i] != Label(l)
    ensures r.None? <==> Label(l) !in c
  {
    if c == [] then None
    else if c[0] == Label(l) then Some(0)
    else match Find(c[1..], l)
      case None => None
      case Some(p) => Some(p + 1)
  }

  /** Running `c` from position `pc` with store `s`. */
  function Flow(c: seq<Instr>, pc: nat, s: Store): (e: Exit)
    decreases |c| - pc, 1
  {
    if pc >= |c| then Falls(s)
    else
      var x := c[pc];
      if x.Label? then Flow(c, pc + 1, s)
      else if x.Mov? then Flow(c, pc + 1, s[x.lhs := IrEval.OprVal(s, x.rhs)])
      else if x.Goto? then Jump(c, pc, x.target, s)
      else if x.Branch? then
        if IrEval.Taken(s, x.opr1, x.opr2, x.rel) then Jump(c, pc, x.target, s) else Flow(c, pc + 1, s)
      else Stuck
  }

  /** The jump at `pc` to label `l`. */
  function Jump(c: seq<Instr>, pc: nat, l: nat, s: Store): (e: Exit)
    decreases |c| - pc, 0
  {
    match Find(c, l)
    case None => To(l, s)
    case Some(p) => if p > pc then Flow(c, p + 1, s) else Stuck
  }

  /** How `P + R` goes on once its prefix `P` has ended with `e`. */
  function Resume(P: seq<Instr>, R: seq<Instr>, e: Exit): Exit
  {
    match e
    case Stuck => Stuck
    case Falls(s) => Flow(P + R, |P|, s)
    case To(l, s) =>
      match Find(R, l)
      case None => To(l, s)
      case Some(q) => Flow(P + R, |P| + q + 1, s)
  }

  /** The first position of a label in `P + R`. */
  lemma {:induction false} FindConcat(P: seq<Instr>, R: seq<Instr>, l: nat)
    ensures Find(P + R, l) ==
      if Label(l) in P then Find(P, l)
      else if Label(l) in R then Some(|P| + Find(R, l).value)
      else None
  {
    if P == [] {
      assert P + R == R;
    } else {
      assert (P + R)[1..] == P[1..] + R;
      assert (P + R)[0] == P[0];
      FindConcat(P[1..], R, l);
      assert Label(l) in P <==> P[0] == Label(l) || Label(l) in P[1..];
    }
  }

  /** Running `P + R` inside `P` is running `P`, then going on as `Resume` says. */
  lemma {:induction false} FlowPrefix(P: seq<Instr>, R: seq<Instr>, pc: nat, s: Store)
    requires pc <= |P|
    ensures Flow(P + R, pc, s) == Resume(P, R, Flow(P, pc, s))
    decreases |P| - pc, 1
  {
    if pc < |P| {
      var x := P[pc];
      assert (P + R)[pc] == x;
      if x.Label? {
        FlowPrefix(P, R, pc + 1, s);
      } else if x.Mov? {
        FlowPrefix(P, R, pc + 1, s[x.lhs := IrEval.OprVal(s, x.rhs)]);
      } else if x.Goto? {
        JumpPrefix(P, R, pc, x.target, s);
      } else if x.Branch? {
        if IrEval.Taken(s, x.opr1, x.opr2, x.rel) {
          JumpPrefix(P, R, pc, x.target, s);
        } else {
          FlowPrefix(P, R, pc + 1, s);
        }
      }
    }
  }

  lemma {:induction false} JumpPrefix(P: seq<Instr>, R: seq<Instr>, pc: nat, l: nat, s: Store)
    requires pc < |P|
    ensures Jump(P + R, pc, l, s) == Resume(P, R, Jump(P, pc, l, s))
    decreases |P| - pc, 0
  {
    FindConcat(P, R, l);
    if Label(l) in P {
      var p := Find(P, l).value;
      if p > pc {
        FlowPrefix(P, R, p + 1, s);
      }
    }
  }

  /** No jump of `R` goes to a label that `P` places. */
  predicate NoJumpInto(R: seq<Instr>, P: seq<Instr>)
  {
    forall i | 0 <= i < |R| && R[i].IsJump() :: Label(R[i].target) !in P
  }

  /** Running the suffix `R` of `P + R` is running `R` alone, when no jump of `R` goes
      back into `P`. */
  lemma {:induction false} FlowSuffix(P: seq<Instr>, R: seq<Instr>, q: nat, s: Store)
    requires q <= |R| && NoJumpInto(R, P)
    ensures Flow(P + R, |P| + q, s) == Flow(R, q, s)
    decreases |R| - q, 1
  {
    if q < |R| {
      var x := R[q];
      assert (P + R)[|P| + q] == x;
      if x.Label? {
        FlowSuffix(P, R, q + 1, s);
      } else if x.Mov? {
        FlowSuffix(P, R, q + 1, s[x.lhs := IrEval.OprVal(s, x.rhs)]);
      } else if x.Goto? {
        JumpSuffix(P, R, q, x.target, s);
      } else if x.Branch? {
        if IrEval.Taken(s, x.opr1, x.opr2, x.rel) {
          JumpSuffix(P, R, q, x.target, s);
        } else {
          FlowSuffix(P, R, q + 1, s);
        }
      }
    }
  }

  lemma {:induction false} JumpSuffix(P: seq<Instr>, R: seq<Instr>, q: nat, l: nat, s: Store)
    requires q < |R| && NoJumpInto(R, P) && R[q].IsJump() && R[q].target == l
    ensures Jump(P + R, |P| + q, l, s) == Jump(R, q, l, s)
    decreases |R| - q, 0
  {
    FindConcat(P, R, l);
    if Label(l) in R {
      var p := Find(R, l).value;
      if p > q {
        FlowSuffix(P, R, p + 1, s);
      }
    }
  }

  /* ------------------------------------------------------------------ */
  /* The conditions whose code is only jumps                             */
  /* ------------------------------------------------------------------ */

  /** An operand read without code: a constant, a declared `int` variable, or one of
      those in parentheses. */
  predicate Leaf(n: Node, ctx: Ctx, ids: seq<int>)
  {
    if n.ExpPara? then Leaf(n.exp, ctx, ids)
    else (n.ExpInt? ||
          (n.ExpId? && n.sym < |ids| && n.sym < |ctx.syms| && ids[n.sym] >= 0 && ctx.syms[n.sym].Int?))
  }

  /** The value of such an operand: a C `int`. */
  function LeafVal(n: Node, ids: seq<int>, s: Store): (v: int)
    ensures IsInt32(v)
  {
    if n.ExpPara? then LeafVal(n.exp, ids, s)
    else if n.ExpInt? then Wrap32(n.ival)
    else if n.ExpId? && n.sym < |ids| && ids[n.sym] >= 0 then IrEval.Val(s, ids[n.sym])
    else 0
  }

  /** A condition built from such operands with comparisons, `!`, `&&`, `||` and
      parentheses. */
  predicate PureCond(n: Node, ctx: Ctx, ids: seq<int>)
  {
    if n.Exp2? && (n.op == AndOp || n.op == OrOp) then PureCond(n.lexp, ctx, ids) && PureCond(n.rexp, ctx, ids)
    else if n.Exp2? && n.op == RelOp then Leaf(n.lexp, ctx, ids) && Leaf(n.rexp, ctx, ids)
    else if n.Exp1? && n.op1 == NotOp then Leaf(n.exp, ctx, ids)
    else if n.ExpPara? then PureCond(n.exp, ctx, ids)
    else (n.ExpInt? || n.ExpId?) && Leaf(n, ctx, ids)
  }

  /** Whether a condition holds in C: an operand when it is not zero, `&&` and `||` as
      conjunction and disjunction, `!` when its operand is zero. */
  predicate Holds(n: Node, ids: seq<int>, s: Store)
  {
    if n.Exp2? && n.op == AndOp then Holds(n.lexp, ids, s) && Holds(n.rexp, ids, s)
    else if n.Exp2? && n.op == OrOp then Holds(n.lexp, ids, s) || Holds(n.rexp, ids, s)
    else if n.Exp2? && n.op == RelOp then EvalRelop(n.relop, LeafVal(n.lexp, ids, s), LeafVal(n.rexp, ids, s))
    else if n.Exp1? && n.op1 == NotOp then LeafVal(n.exp, ids, s) == 0
    else if n.ExpPara? then Holds(n.exp, ids, s)
    else LeafVal(n, ids, s) != 0
  }

  /** Lowering an operand for its value emits nothing and gives an operand whose value is
      the operand's. */
  lemma {:induction false} LeafValue(n: Node, ctx: Ctx, st: St, s: Store)
    requires Leaf(n, ctx, st.ids)
    ensures V(n, ctx, st).st == st
    ensures Atom(V(n, ctx, st).opr, st) == V(n, ctx, st)
    ensures IrEval.OprVal(s, Plain(V(n, ctx, st).opr)) == LeafVal(n, st.ids, s)
  {
    if n.ExpPara? {
      LeafValue(n.exp, ctx, st, s);
    }
  }

  /** The code emitted between two states. */
  function Frag(a: St, b: St): (c: seq<Instr>)
    requires a.cur.irs <= b.cur.irs
    ensures a.cur.irs + c == b.cur.irs
  {
    b.cur.irs[|a.cur.irs|..]
  }

  /** Every label `c` places is in `[lo, hi)`. */
  predicate PlacedIn(c: seq<Instr>, lo: nat, hi: nat)
  {
    forall i | 0 <= i < |c| && c[i].Label? :: lo <= c[i].lbl < hi
  }

  /** Every jump of `c` goes to `t`, to `f`, or to a label in `[lo, hi)`. */
  predicate JumpsIn(c: seq<Instr>, t: nat, f: nat, lo: nat, hi: nat)
  {
    forall i | 0 <= i < |c| && c[i].IsJump() :: c[i].target == t || c[i].target == f || lo <= c[i].target < hi
  }

  /** Code jumping only to `t`, `f` and `[lo2, hi2)` does not jump into code placing only
      labels in `[lo1, hi1)` when these are apart. */
  lemma Apart(R: seq<Instr>, P: seq<Instr>, t: nat, f: nat, lo1: nat, hi1: nat, lo2: nat, hi2: nat)
    requires JumpsIn(R, t, f, lo2, hi2) && PlacedIn(P, lo1, hi1)
    requires t < lo1 && f < lo1 && hi1 <= lo2
    ensures NoJumpInto(R, P)
  {
  }

  /** The code between `a` and `c` is that between `a` and `b`, then a label, then that
      between the label and `c`. */
  lemma Joined(a: St, b: St, c: St, d: St, l: nat)
    requires a.cur.irs <= b.cur.irs && c.cur.irs == b.cur.irs + [Label(l)] && c.cur.irs <= d.cur.irs
    ensures a.cur.irs <= d.cur.irs
    ensures Frag(a, d) == Frag(a, b) + ([Label(l)] + Frag(c, d))
  {
    assert d.cur.irs == a.cur.irs + (Frag(a, b) + ([Label(l)] + Frag(c, d)));
  }

  /** The conditional jump to `t` followed by the jump to `f` that ends the code of a
      comparison, of `!` and of an operand used as a condition. */
  lemma JumpPair(st: St, a: Opr, b: Opr, rel: Relop, t: nat, f: nat, s: Store)
    requires t in st.cur.labels && f in st.cur.labels
    ensures var r := Emit(Emit(st, Branch(a, b, rel, t, 0)), Goto(f, 0));
      && r.ids == st.ids && r.labelNum == st.labelNum
      && PlacedIn(Frag(st, r), st.labelNum, st.labelNum)
      && JumpsIn(Frag(st, r), t, f, st.labelNum, st.labelNum)
      && Flow(Frag(st, r), 0, s) == To(if IrEval.Taken(s, a, b, rel) then t else f, s)
  {
    var r := Emit(Emit(st, Branch(a, b, rel, t, 0)), Goto(f, 0));
    var j := st.cur.nextJid;
    assert Frag(st, r) == [Branch(a, b, rel, t, j), Goto(f, j + 1)];
    PairFlow([Branch(a, b, rel, t, j), Goto(f, j + 1)], a, b, rel, t, f, j, st.labelNum, s);
  }

  /** The two jumps on their own. */
  lemma PairFlow(c: seq<Instr>, a: Opr, b: Opr, rel: Relop, t: nat, f: nat, j: nat, lo: nat, s: Store)
    requires c == [Branch(a, b, rel, t, j), Goto(f, j + 1)]
    ensures PlacedIn(c, lo, lo) && JumpsIn(c, t, f, lo, lo)
    ensures Flow(c, 0, s) == To(if IrEval.Taken(s, a, b, rel) then t else f, s)
  {
    assert Find(c, t) == None && Find(c, f) == None;
    if IrEval.Taken(s, a, b, rel) {
      assert Flow(c, 0, s) == Jump(c, 0, t, s);
    } else {
      assert Flow(c, 0, s) == Flow(c, 1, s) == Jump(c, 1, f, s);
    }
  }

  /** The code of a pure condition places only labels handed out meanwhile and jumps
      only to its two targets or to those labels, no variable gets an id, and it leaves
      through `t` when the condition holds and through `f` otherwise, with the store
      unchanged, when its targets were handed out before it. */
  lemma {:induction false} CondCode(n: Node, t: nat, f: nat, ctx: Ctx, st: St, s: Store)
    requires PureCond(n, ctx, st.ids)
    requires t in st.cur.labels && f in st.cur.labels && t < st.labelNum && f < st.labelNum
    ensures B(n, t, f, ctx, st).ids == st.ids
    ensures PlacedIn(Frag(st, B(n, t, f, ctx, st)), st.labelNum, B(n, t, f, ctx, st).labelNum)
    ensures JumpsIn(Frag(st, B(n, t, f, ctx, st)), t, f, st.labelNum, B(n, t, f, ctx, st).labelNum)
    ensures Flow(Frag(st, B(n, t, f, ctx, st)), 0, s) == To(if Holds(n, st.ids, s) then t else f, s)
    decreases n, 1
  {
    if n.Exp2? && (n.op == AndOp || n.op == OrOp) {
      JunctionCode(n, t, f, ctx, st, s);
    } else if n.Exp2? && n.op == RelOp {
      LeafValue(n.lexp, ctx, st, s);
      LeafValue(n.rexp, ctx, st, s);
      var a := Plain(V(n.lexp, ctx, st).opr);
      var b := Plain(V(n.rexp, ctx, st).opr);
      assert B(n, t, f, ctx, st) == Emit(Emit(st, Branch(a, b, n.relop, t, 0)), Goto(f, 0));
      JumpPair(st, a, b, n.relop, t, f, s);
    } else if n.Exp1? && n.op1 == NotOp {
      LeafValue(n.exp, ctx, st, s);
      var a := Plain(V(n.exp, ctx, st).opr);
      assert B(n, t, f, ctx, st) == Emit(Emit(st, Branch(a, Imm(0), EQ, t, 0)), Goto(f, 0));
      JumpPair(st, a, Imm(0), EQ, t, f, s);
    } else if n.ExpPara? {
      CondCode(n.exp, t, f, ctx, st, s);
    } else {
      LeafValue(n, ctx, st, s);
      var a := Plain(V(n, ctx, st).opr);
      assert B(n, t, f, ctx, st) == Emit(Emit(st, Branch(a, Imm(0), NEQ, t, 0)), Goto(f, 0));
      JumpPair(st, a, Imm(0), NEQ, t, f, s);
    }
  }

  /** `&&` and `||`: the left side jumps to a fresh label where the right side decides. */
  lemma {:induction false} JunctionCode(n: Node, t: nat, f: nat, ctx: Ctx, st: St, s: Store)
    requires n.Exp2? && (n.op == AndOp || n.op == OrOp) && PureCond(n, ctx, st.ids)
    requires t in st.cur.labels && f in st.cur.labels && t < st.labelNum && f < st.labelNum
    ensures B(n, t, f, ctx, st).ids == st.ids
    ensures PlacedIn(Frag(st, B(n, t, f, ctx, st)), st.labelNum, B(n, t, f, ctx, st).labelNum)
    ensures JumpsIn(Frag(st, B(n, t, f, ctx, st)), t, f, st.labelNum, B(n, t, f, ctx, st).labelNum)
    ensures Flow(Frag(st, B(n, t, f, ctx, st)), 0, s) == To(if Holds(n, st.ids, s) then t else f, s)
    decreases n, 0
  {
    var and := n.op == AndOp;
    var (l, st1) := NewLabel(st);
    var lt, lf := if and then l else t, if and then f else l;
    var st2 := B(n.lexp, lt, lf, ctx, st1);
    CondCode(n.lexp, lt, lf, ctx, st1, s);
    var st3 := Emit(st2, Label(l));
    CondCode(n.rexp, t, f, ctx, st3, s);
    var r := B(n.rexp, t, f, ctx, st3);
    assert B(n, t, f, ctx, st) == r;
    var FA := Frag(st1, st2);
    var FB := Frag(st3, r);
    Joined(st1, st2, st3, r, l);
    JoinShape(FA, FB, lt, lf, t, f, l, st2.labelNum, r.labelNum);
    JoinRun(FA, FB, if Holds(n.lexp, st.ids, s) then lt else lf, t, f, l, st2.labelNum, r.labelNum, s);
  }

  /** The shape of the code of `&&` and `||` from the shapes of its two sides. */
  lemma JoinShape(FA: seq<Instr>, FB: seq<Instr>, lt: nat, lf: nat, t: nat, f: nat, l: nat, m: nat, hi: nat)
    requires (lt == t || lt == l) && (lf == f || lf == l)
    requires PlacedIn(FA, l + 1, m) && JumpsIn(FA, lt, lf, l + 1, m)
    requires PlacedIn(FB, m, hi) && JumpsIn(FB, t, f, m, hi) && l < m <= hi
    ensures PlacedIn(FA + ([Label(l)] + FB), l, hi)
    ensures JumpsIn(FA + ([Label(l)] + FB), t, f, l, hi)
  {
    var c := FA + ([Label(l)] + FB);
    forall i | 0 <= i < |c|
      ensures c[i].Label? ==> l <= c[i].lbl < hi
      ensures c[i].IsJump() ==> c[i].target == t || c[i].target == f || l <= c[i].target < hi
    {
      if i < |FA| {
        assert c[i] == FA[i];
      } else if i > |FA| {
        assert c[i] == FB[i - |FA| - 1];
      } else {
        assert c[i] == Label(l);
      }
    }
  }

  /** Running the code of `&&` and `||`: when the left side leaves through the fresh
      label, the right side runs; otherwise the whole leaves where the left side did. */
  lemma JoinRun(FA: seq<Instr>, FB: seq<Instr>, x: nat, t: nat, f: nat, l: nat, m: nat, hi: nat, s: Store)
    requires Flow(FA, 0, s) == To(x, s) && (x == l || x < l)
    requires PlacedIn(FA, l + 1, m) && l < m
    requires PlacedIn(FB, m, hi) && JumpsIn(FB, t, f, m, hi) && t < l && f < l
    ensures Flow(FA + ([Label(l)] + FB), 0, s) == if x == l then Flow(FB, 0, s) else To(x, s)
  {
    var R := [Label(l)] + FB;
    FlowPrefix(FA, R, 0, s);
    assert Find(R, l) == Some(0);
    if x == l {
      forall i | 0 <= i < |R| && R[i].IsJump()
        ensures Label(R[i].target) !in FA
      {
        if i > 0 {
          assert R[i] == FB[i - 1];
        }
      }
      FlowSuffix(FA, R, 1, s);
      Apart(FB, [Label(l)], t, f, l, l + 1, m, hi);
      FlowSuffix([Label(l)], FB, 0, s);
    } else {
      forall j | 0 <= j < |R|
        ensures R[j] != Label(x)
      {
        if j > 0 {
          assert R[j] == FB[j - 1];
        }
      }
    }
  }

  /** A label below the range of the labels code places is not placed by it. */
  lemma Outside(c: seq<Instr>, lo: nat, hi: nat, x: nat)
    requires PlacedIn(c, lo, hi) && x < lo
    ensures Label(x) !in c
  {
    assert forall j | 0 <= j < |c| :: c[j] != Label(x);
  }

  /** The six instructions that end `v2b`: entered after the true label they set the
      temporary to 1, entered after the false label to 0, and both run to the end. */
  lemma FlagTail(M: seq<Instr>, x: nat, tl: nat, j: nat, s: Store)
    requires M == [Label(tl), Mov(x, Imm(1)), Goto(tl + 2, j), Label(tl + 1), Mov(x, Imm(0)), Label(tl + 2)]
    ensures Find(M, tl) == Some(0) && Find(M, tl + 1) == Some(3)
    ensures Flow(M, 1, s) == Falls(s[x := 1]) && Flow(M, 4, s) == Falls(s[x := 0])
  {
    assert Find(M, tl + 2) == Some(5);
    var s1 := s[x := 1];
    assert Flow(M, 1, s) == Flow(M, 2, s1) == Jump(M, 2, tl + 2, s1) == Flow(M, 6, s1);
    var s0 := s[x := 0];
    assert Flow(M, 4, s) == Flow(M, 5, s0) == Flow(M, 6, s0);
  }

  /** The end of `v2b` run after the code of its condition. */
  lemma FlagRun(c: seq<Instr>, FB: seq<Instr>, x: nat, tl: nat, fl: nat, el: nat, j: nat, h: bool, s: Store)
    requires fl == tl + 1 && el == tl + 2
    requires c == FB + [Label(tl), Mov(x, Imm(1)), Goto(el, j), Label(fl), Mov(x, Imm(0)), Label(el)]
    requires Flow(FB, 0, s) == To(if h then tl else fl, s) && Label(el) !in FB
    ensures Flow(c, 0, s) == Falls(s[x := if h then 1 else 0])
  {
    var M := [Label(tl), Mov(x, Imm(1)), Goto(el, j), Label(fl), Mov(x, Imm(0)), Label(el)];
    FlowPrefix(FB, M, 0, s);
    FlagTail(M, x, tl, j, s);
    assert NoJumpInto(M, FB);
    FlowSuffix(FB, M, if h then 1 else 4, s);
  }

  /** The code of `v2b`: the six instructions that follow the code of the condition. */
  lemma MaterializeCode(x: nat, tl: nat, fl: nat, el: nat, st0: St, st: St)
    requires el in st.cur.labels && st0.cur.irs <= st.cur.irs
    ensures Frag(st0, Materialize(x, tl, fl, el, st)) ==
      Frag(st0, st) + [Label(tl), Mov(x, Imm(1)), Goto(el, st.cur.nextJid), Label(fl), Mov(x, Imm(0)), Label(el)]
  {
    var st1 := Emit(Emit(st, Label(tl)), Mov(x, Imm(1)));
    assert st1.cur.irs == st.cur.irs + [Label(tl), Mov(x, Imm(1))] && st1.cur.nextJid == st.cur.nextJid;
    var st2 := Emit(st1, Goto(el, 0));
    assert st2.cur.irs == st1.cur.irs + [Goto(el, st.cur.nextJid)];
    var M := [Label(tl), Mov(x, Imm(1)), Goto(el, st.cur.nextJid), Label(fl), Mov(x, Imm(0)), Label(el)];
    var r := Materialize(x, tl, fl, el, st);
    assert r.cur.irs == st.cur.irs + M;
    assert st0.cur.irs + (Frag(st0, st) + M) == r.cur.irs;
  }

  /** `ast_ir_exp_v2b` on a pure condition: its code runs to its end, leaving its
      temporary 1 when the condition holds and 0 otherwise, and nothing else changed. */
  lemma FlagFlow(n: Node, ctx: Ctx, st: St, s: Store)
    requires IsCond(n) && PureCond(n, ctx, st.ids)
    ensures V2B(n, ctx, st).opr == TVar(st.varNum, Sem.Int)
    ensures Flow(Frag(st, V2B(n, ctx, st).st), 0, s) ==
      Falls(s[st.varNum := if Holds(n, st.ids, s) then 1 else 0])
  {
    var (tl, st1) := NewLabel(st);
    var (fl, st2) := NewLabel(st1);
    var (el, st3) := NewLabel(st2);
    var (x, st4) := NewVar(st3);
    var st5 := B(n, tl, fl, ctx, st4);
    var r := Materialize(x, tl, fl, el, st5);
    assert V2B(n, ctx, st) == Out(TVar(x, Sem.Int), r);
    CondCode(n, tl, fl, ctx, st4, s);
    MaterializeCode(x, tl, fl, el, st4, st5);
    var FB := Frag(st4, st5);
    assert st.cur.irs == st4.cur.irs;
    Outside(FB, st4.labelNum, st5.labelNum, el);
    FlagRun(Frag(st, r), FB, x, tl, fl, el, st5.cur.nextJid, Holds(n, st.ids, s), s);
  }

  /* ------------------------------------------------------------------ */
  /* Statements with a pure condition                                    */
  /* ------------------------------------------------------------------ */

  /** The first position of label `l` in `c` is `p` when `c` places it there and not before. */
  lemma {:induction false} FindAt(c: seq<Instr>, l: nat, p: nat)
    requires p < |c| && c[p] == Label(l)
    requires forall i | 0 <= i < p :: c[i] != Label(l)
    ensures Find(c, l) == Some(p)
  {
    assert Label(l) in c;
  }

  /** Label `l` is placed first right after `P`, when `P` does not place it. */
  lemma {:induction false} FirstAfter(P: seq<Instr>, Q: seq<Instr>, l: nat)
    requires Label(l) !in P
    ensures Find(P + [Label(l)] + Q, l) == Some(|P|)
  {
    var c := P + [Label(l)] + Q;
    forall i | 0 <= i < |P|
      ensures c[i] != Label(l)
    {
      assert c[i] == P[i];
    }
    FindAt(c, l, |P|);
  }

  /** Code that starts with `FA` and goes on with `R`: when `FA` leaves through a label that
      `R` places first at `p`, the whole goes on right after that position. */
  lemma {:induction false} EnterAt(FA: seq<Instr>, R: seq<Instr>, l: nat, p: nat, s: Store)
    requires Flow(FA, 0, s) == To(l, s) && Find(R, l) == Some(p)
    ensures Flow(FA + R, 0, s) == Flow(FA + R, |FA| + p + 1, s)
  {
    FlowPrefix(FA, R, 0, s);
    ResumeTo(FA, R, l, p, s);
  }

  lemma {:induction false} ResumeTo(FA: seq<Instr>, R: seq<Instr>, l: nat, p: nat, s: Store)
    requires Find(R, l) == Some(p)
    ensures Resume(FA, R, To(l, s)) == Flow(FA + R, |FA| + p + 1, s)
  {
  }

  /** The code of `ast_ir_stmt__if` from the states it passes through. */
  lemma {:induction false} IfCode(st: St, st2: St, b: St, st3: St, st4: St, r: St, tl: nat, fl: nat)
    requires st.cur.irs == st2.cur.irs && st2.cur.irs <= b.cur.irs
    requires st3.cur.irs == b.cur.irs + [Label(tl)] && st3.cur.irs <= st4.cur.irs
    requires r.cur.irs == st4.cur.irs + [Label(fl)]
    ensures st.cur.irs <= r.cur.irs
    ensures Frag(st, r) == Frag(st2, b) + ([Label(tl)] + Frag(st3, st4) + [Label(fl)])
  {
    assert r.cur.irs == st.cur.irs + (Frag(st2, b) + ([Label(tl)] + Frag(st3, st4) + [Label(fl)]));
  }

  /**
   * `ast_ir_stmt__if` on a pure condition: the code of the condition, the true label, the
   * body, the false label. Run from its start it enters the body when the condition
   * holds; when it does not, and the body places no false label of its own, it runs
   * past its end with the store unchanged.
   */
  lemma {:induction false} IfFlow(n: Node, ctx: Ctx, st: St, s: Store)
    requires n.StmtIf? && PureCond(n.exp, ctx, st.ids)
    ensures var tl, fl := st.labelNum, st.labelNum + 1;
      var st2 := NewLabel(NewLabel(st).1).1;
      var FA := Frag(st2, B(n.exp, tl, fl, ctx, st2));
      var st3 := Emit(B(n.exp, tl, fl, ctx, st2), Label(tl));
      var FS := Frag(st3, S(n.stmt, ctx, st3));
      var C := Frag(st, IfS(n, ctx, st));
      && C == FA + ([Label(tl)] + FS + [Label(fl)])
      && (Holds(n.exp, st.ids, s) ==> Flow(C, 0, s) == Flow(C, |FA| + 1, s))
      && (!Holds(n.exp, st.ids, s) && Label(fl) !in FS ==> Flow(C, 0, s) == Falls(s))
  {
    var (tl, st1) := NewLabel(st);
    var (fl, st2) := NewLabel(st1);
    var b := B(n.exp, tl, fl, ctx, st2);
    var st3 := Emit(b, Label(tl));
    var st4 := S(n.stmt, ctx, st3);
    var r := Emit(st4, Label(fl));
    assert IfS(n, ctx, st) == r;
    IfCode(st, st2, b, st3, st4, r, tl, fl);
    CondCode(n.exp, tl, fl, ctx, st2, s);
    LoopRuns(Frag(st, r), Frag(st2, b), Frag(st3, st4), tl, fl, Holds(n.exp, st.ids, s), s);
  }

  /** The code of `ast_ir_stmt__ifelse` from the states it passes through. */
  lemma {:induction false} IfElseCode(st: St, st3: St, b: St, st4: St, t: St, st5: St, e: St, r: St,
                   tl: nat, fl: nat, el: nat, j: nat)
    requires st.cur.irs == st3.cur.irs && st3.cur.irs <= b.cur.irs
    requires st4.cur.irs == b.cur.irs + [Label(tl)] && st4.cur.irs <= t.cur.irs
    requires st5.cur.irs == t.cur.irs + [Goto(el, j), Label(fl)] && st5.cur.irs <= e.cur.irs
    requires r.cur.irs == e.cur.irs + [Label(el)]
    ensures st.cur.irs <= r.cur.irs
    ensures Frag(st, r) ==
      Frag(st3, b) + ([Label(tl)] + Frag(st4, t) + [Goto(el, j), Label(fl)] + Frag(st5, e) + [Label(el)])
  {
    assert r.cur.irs == st.cur.irs +
      (Frag(st3, b) + ([Label(tl)] + Frag(st4, t) + [Goto(el, j), Label(fl)] + Frag(st5, e) + [Label(el)]));
  }

  /**
   * `ast_ir_stmt__ifelse` on a pure condition: the code of the condition, the true label,
   * the then branch, the jump to the end, the false label, the else branch, the end
   * label. Run from its start it enters the then branch when the condition holds and,
   * when the then branch places no false label of its own, the else branch when it does
   * not; the jump that ends the then branch runs past the end of the whole when neither
   * branch places the end label. It returns the three labels, the states after the
   * labels, after the true label and after the false label, and the code of the
   * condition and of the two branches.
   */
  lemma {:induction false} IfElseFlow(n: Node, ctx: Ctx, st: St, s: Store)
      returns (tl: nat, fl: nat, el: nat, st3: St, st4: St, st5: St, FA: seq<Instr>, FT: seq<Instr>, FE: seq<Instr>)
    requires n.StmtIfElse? && PureCond(n.exp, ctx, st.ids)
    ensures tl == st.labelNum && fl == st.labelNum + 1 && el == st.labelNum + 2
    ensures st3 == NewLabel(NewLabel(NewLabel(st).1).1).1 && FA == Frag(st3, B(n.exp, tl, fl, ctx, st3))
    ensures st4 == Emit(B(n.exp, tl, fl, ctx, st3), Label(tl)) && FT == Frag(st4, S(n.ifSt, ctx, st4))
    ensures st5 == Emit(Emit(S(n.ifSt, ctx, st4), Goto(el, 0)), Label(fl)) && FE == Frag(st5, S(n.elseSt, ctx, st5))
    ensures Frag(st, IfElseS(n, ctx, st)) ==
      FA + ([Label(tl)] + FT + [Goto(el, S(n.ifSt, ctx, st4).cur.nextJid), Label(fl)] + FE + [Label(el)])
    ensures Holds(n.exp, st.ids, s) ==>
      Flow(Frag(st, IfElseS(n, ctx, st)), 0, s) == Flow(Frag(st, IfElseS(n, ctx, st)), |FA| + 1, s)
    ensures !Holds(n.exp, st.ids, s) && Label(fl) !in FT ==>
      Flow(Frag(st, IfElseS(n, ctx, st)), 0, s) == Flow(Frag(st, IfElseS(n, ctx, st)), |FA| + |FT| + 3, s)
    ensures Label(el) !in FT + FE ==> Flow(Frag(st, IfElseS(n, ctx, st)), |FA| + 1 + |FT|, s) == Falls(s)
  {
    tl, fl, el := st.labelNum, st.labelNum + 1, st.labelNum + 2;
    st3 := NewLabel(NewLabel(NewLabel(st).1).1).1;
    var b := B(n.exp, tl, fl, ctx, st3);
    st4 := Emit(b, Label(tl));
    var t := S(n.ifSt, ctx, st4);
    st5 := Emit(Emit(t, Goto(el, 0)), Label(fl));
    var e := S(n.elseSt, ctx, st5);
    FA, FT, FE := Frag(st3, b), Frag(st4, t), Frag(st5, e);
    ThreeLabels(st, st3);
    JumpOver(t, el, fl, st5);
    IfElseUnfold(n, ctx, st, st3, st4, st5);
    IfElseCode(st, st3, b, st4, t, st5, e, IfElseS(n, ctx, st), tl, fl, el, t.cur.nextJid);
    IfElseCond(Frag(st, IfElseS(n, ctx, st)), n.exp, ctx, st3, st.ids, FA, FT, FE, tl, fl, el, t.cur.nextJid, s);
  }

  /** The runs of the code of `ast_ir_stmt__ifelse`, from the condition. */
  lemma {:induction false} IfElseCond(C: seq<Instr>, x: Node, ctx: Ctx, st: St, ids: seq<int>, FA: seq<Instr>,
                                      FT: seq<Instr>, FE: seq<Instr>, tl: nat, fl: nat, el: nat, j: nat, s: Store)
    requires st.ids == ids && PureCond(x, ctx, ids)
    requires tl in st.cur.labels && fl in st.cur.labels && el in st.cur.labels
    requires tl < el < st.labelNum && fl < el && tl != fl
    requires FA == Frag(st, B(x, tl, fl, ctx, st))
    requires C == FA + ([Label(tl)] + FT + [Goto(el, j), Label(fl)] + FE + [Label(el)])
    ensures Holds(x, ids, s) ==> Flow(C, 0, s) == Flow(C, |FA| + 1, s)
    ensures !Holds(x, ids, s) && Label(fl) !in FT ==> Flow(C, 0, s) == Flow(C, |FA| + |FT| + 3, s)
    ensures Label(el) !in FT + FE ==> Flow(C, |FA| + 1 + |FT|, s) == Falls(s)
  {
    CondCode(x, tl, fl, ctx, st, s);
    IfElseRuns(C, FA, FT, FE, tl, fl, el, j, st.labelNum, B(x, tl, fl, ctx, st).labelNum, Holds(x, ids, s), s);
  }

  /** The three labels `ast_ir_stmt__ifelse` takes first. */
  lemma {:induction false} ThreeLabels(st: St, st3: St)
    requires st3 == NewLabel(NewLabel(NewLabel(st).1).1).1
    ensures st3.ids == st.ids && st3.cur.irs == st.cur.irs && st3.labelNum == st.labelNum + 3
    ensures st.labelNum in st3.cur.labels && st.labelNum + 1 in st3.cur.labels && st.labelNum + 2 in st3.cur.labels
  {
  }

  /** The jump over the else branch and the false label, appended by `ast_ir_stmt__ifelse`. */
  lemma {:induction false} JumpOver(t: St, el: nat, fl: nat, st5: St)
    requires el in t.cur.labels && st5 == Emit(Emit(t, Goto(el, 0)), Label(fl))
    ensures st5.cur.irs == t.cur.irs + [Goto(el, t.cur.nextJid), Label(fl)]
  {
  }

  /** `IfElseS` spelled out on the states it passes through. */
  lemma {:induction false} IfElseUnfold(n: Node, ctx: Ctx, st: St, st3: St, st4: St, st5: St)
    requires n.StmtIfElse? && st3 == NewLabel(NewLabel(NewLabel(st).1).1).1
    requires st4 == Emit(B(n.exp, st.labelNum, st.labelNum + 1, ctx, st3), Label(st.labelNum))
    requires st5 == Emit(Emit(S(n.ifSt, ctx, st4), Goto(st.labelNum + 2, 0)), Label(st.labelNum + 1))
    ensures IfElseS(n, ctx, st) == Emit(S(n.elseSt, ctx, st5), Label(st.labelNum + 2))
  {
  }

  /** The runs of the code of `ast_ir_stmt__ifelse`, from the run of its condition. */
  lemma {:induction false} IfElseRuns(C: seq<Instr>, FA: seq<Instr>, FT: seq<Instr>, FE: seq<Instr>,
                                      tl: nat, fl: nat, el: nat, j: nat, lo: nat, hi: nat, h: bool, s: Store)
    requires C == FA + ([Label(tl)] + FT + [Goto(el, j), Label(fl)] + FE + [Label(el)])
    requires Flow(FA, 0, s) == To(if h then tl else fl, s)
    requires PlacedIn(FA, lo, hi) && el < lo && tl != el && fl != el && tl != fl
    ensures && (h ==> Flow(C, 0, s) == Flow(C, |FA| + 1, s))
      && (!h && Label(fl) !in FT ==> Flow(C, 0, s) == Flow(C, |FA| + |FT| + 3, s))
      && (Label(el) !in FT + FE ==> Flow(C, |FA| + 1 + |FT|, s) == Falls(s))
  {
    var R := [Label(tl)] + FT + [Goto(el, j), Label(fl)] + FE + [Label(el)];
    if h {
      FindAt(R, tl, 0);
      EnterAt(FA, R, tl, 0, s);
    } else if Label(fl) !in FT {
      assert R == [Label(tl)] + FT + [Goto(el, j)] + [Label(fl)] + (FE + [Label(el)]);
      FirstAfter([Label(tl)] + FT + [Goto(el, j)], FE + [Label(el)], fl);
      EnterAt(FA, R, fl, |FT| + 2, s);
    }
    if Label(el) !in FT + FE {
      GotoEnd(C, FA, FT, FE, tl, fl, el, j, lo, hi, s);
    }
  }

  /** The jump that ends the then branch of `ast_ir_stmt__ifelse` leaves through the end. */
  lemma {:induction false} GotoEnd(C: seq<Instr>, FA: seq<Instr>, FT: seq<Instr>, FE: seq<Instr>, tl: nat, fl: nat,
                                   el: nat, j: nat, lo: nat, hi: nat, s: Store)
    requires C == FA + ([Label(tl)] + FT + [Goto(el, j), Label(fl)] + FE + [Label(el)])
    requires PlacedIn(FA, lo, hi) && el < lo && tl != el && fl != el && Label(el) !in FT + FE
    ensures Flow(C, |FA| + 1 + |FT|, s) == Falls(s)
  {
    var P := FA + ([Label(tl)] + FT + [Goto(el, j), Label(fl)] + FE);
    assert C == P + [Label(el)] + [];
    Outside(FA, lo, hi, el);
    assert Label(el) !in FT && Label(el) !in FE;
    FirstAfter(P, [], el);
    var pc := |FA| + 1 + |FT|;
    assert C[pc] == Goto(el, j);
    assert Flow(C, pc, s) == Jump(C, pc, el, s) == Flow(C, |C|, s);
  }

  /** The code of `ast_ir_stmt__while` from the states it passes through. */
  lemma {:induction false} WhileCode(st: St, st2: St, b: St, st3: St, st4: St, b2: St, r: St, bl: nat, el: nat)
    requires st.cur.irs == st2.cur.irs && st2.cur.irs <= b.cur.irs
    requires st3.cur.irs == b.cur.irs + [Label(bl)] && st3.cur.irs <= st4.cur.irs <= b2.cur.irs
    requires r.cur.irs == b2.cur.irs + [Label(el)]
    ensures st.cur.irs <= r.cur.irs
    ensures Frag(st, r) == Frag(st2, b) + ([Label(bl)] + (Frag(st3, st4) + Frag(st4, b2)) + [Label(el)])
  {
    assert r.cur.irs == st.cur.irs + (Frag(st2, b) + ([Label(bl)] + (Frag(st3, st4) + Frag(st4, b2)) + [Label(el)]));
  }

  /**
   * `ast_ir_stmt__while` on a pure condition: the test, the body label, the body, the
   * test again, the end label. Run from its start it enters the body when the condition
   * holds; when it does not, and neither the body nor the second test places the end
   * label, it runs past its end with the store unchanged. The second test goes back to
   * the body label when the condition holds after the body, and leaves for the end
   * label otherwise. It returns the two labels, the states after the labels, after the
   * body label and after the body, and the code of the test, the body and the second
   * test.
   */
  lemma {:induction false} WhileFlow(n: Node, ctx: Ctx, st: St, s: Store)
      returns (bl: nat, el: nat, st2: St, st3: St, st4: St, FA: seq<Instr>, FS: seq<Instr>, FB: seq<Instr>)
    requires n.StmtWhile? && PureCond(n.exp, ctx, st.ids)
    ensures bl == st.labelNum && el == st.labelNum + 1
    ensures st2 == NewLabel(NewLabel(st).1).1 && FA == Frag(st2, B(n.exp, bl, el, ctx, st2))
    ensures st3 == Emit(B(n.exp, bl, el, ctx, st2), Label(bl))
    ensures st4 == S(n.stmt, ctx, st3) && FS == Frag(st3, st4) && FB == Frag(st4, B(n.exp, bl, el, ctx, st4))
    ensures Frag(st, WhileS(n, ctx, st)) == FA + ([Label(bl)] + (FS + FB) + [Label(el)])
    ensures Holds(n.exp, st.ids, s) ==>
      Flow(Frag(st, WhileS(n, ctx, st)), 0, s) == Flow(Frag(st, WhileS(n, ctx, st)), |FA| + 1, s)
    ensures !Holds(n.exp, st.ids, s) && Label(el) !in FS + FB ==> Flow(Frag(st, WhileS(n, ctx, st)), 0, s) == Falls(s)
    ensures PureCond(n.exp, ctx, st4.ids) ==> Flow(FB, 0, s) == To(if Holds(n.exp, st4.ids, s) then bl else el, s)
  {
    bl, el := st.labelNum, st.labelNum + 1;
    st2 := NewLabel(NewLabel(st).1).1;
    var b := B(n.exp, bl, el, ctx, st2);
    st3 := Emit(b, Label(bl));
    st4 := S(n.stmt, ctx, st3);
    var b2 := B(n.exp, bl, el, ctx, st4);
    FA, FS, FB := Frag(st2, b), Frag(st3, st4), Frag(st4, b2);
    var r := Emit(b2, Label(el));
    assert WhileS(n, ctx, st) == r;
    WhileCode(st, st2, b, st3, st4, b2, r, bl, el);
    assert st2.ids == st.ids;
    CondCode(n.exp, bl, el, ctx, st2, s);
    if PureCond(n.exp, ctx, st4.ids) {
      CondCode(n.exp, bl, el, ctx, st4, s);
    }
    LoopRuns(Frag(st, r), FA, FS + FB, bl, el, Holds(n.exp, st.ids, s), s);
  }

  /** The runs of the code of `ast_ir_stmt__if` and `ast_ir_stmt__while` from the run of
      the condition in front: on to the label after it when the condition holds, past
      the end when it does not and nothing in between places the other label. */
  lemma {:induction false} LoopRuns(C: seq<Instr>, FA: seq<Instr>, M: seq<Instr>, tl: nat, fl: nat, h: bool,
                                    s: Store)
    requires C == FA + ([Label(tl)] + M + [Label(fl)])
    requires Flow(FA, 0, s) == To(if h then tl else fl, s) && tl != fl
    ensures && (h ==> Flow(C, 0, s) == Flow(C, |FA| + 1, s))
      && (!h && Label(fl) !in M ==> Flow(C, 0, s) == Falls(s))
  {
    var R := [Label(tl)] + M + [Label(fl)];
    if h {
      FindAt(R, tl, 0);
      EnterAt(FA, R, tl, 0, s);
    } else if Label(fl) !in M {
      FirstAfter([Label(tl)] + M, [], fl);
      assert [Label(tl)] + M + [Label(fl)] + [] == R;
      EnterAt(FA, R, fl, 1 + |M|, s);
    }
  }

  /* ------------------------------------------------------------------ */
  /* Addresses                                                           */
  /* ------------------------------------------------------------------ */

  /** Running two instructions. */
  lemma {:induction false} RunTwo(s1: Store, x: Instr, y: Instr, s2: Store)
    requires IrEval.Run(s1, [x, y], s2)
    ensures exists s :: IrEval.Step(s1, x, s) && IrEval.Step(s, y, s2)
  {
    var s :| IrEval.Step(s1, x, s) && IrEval.Run(s, [x, y][1..], s2);
    assert [x, y][1..] == [y];
    var s' :| IrEval.Step(s, y, s') && IrEval.Run(s', [y][1..], s2);
    assert IrEval.Step(s, y, s2);
  }

  /** `add_ir` of an arithmetic appends the arithmetic into a temporary and the move from
      it; running the two sets the destination to the result. */
  lemma {:induction false} EmitArth(st: St, r: St, l: nat, a: Opr, b: Opr, op: ArithOp, s1: Store, s2: Store)
    requires op != Div && r == Emit(st, Arth(l, a, b, op))
    ensures |Frag(st, r)| == 2 && Frag(st, r)[0].Arth? && Frag(st, r)[1] == Mov(l, Var(Frag(st, r)[0].lhs))
    ensures IrEval.Run(s1, Frag(st, r), s2) ==>
      && IrEval.Val(s2, l) == IrEval.ArthVal(op, IrEval.OprVal(s1, a), IrEval.OprVal(s1, b))
      && IrEval.Keeps(s1, s2, {Frag(st, r)[0].lhs, l})
  {
    var c := Frag(st, r);
    var e := Canon(Expr(a, b, op));
    var t := if e in st.cur.exprMap then st.cur.exprMap[e] else st.varNum;
    assert c == [Arth(t, a, b, op), Mov(l, Var(t))];
    if IrEval.Run(s1, c, s2) {
      RunTwo(s1, c[0], c[1], s2);
      var m :| IrEval.Step(s1, c[0], m) && IrEval.Step(m, c[1], s2);
      forall v: nat | v !in {t, l}
        ensures IrEval.Val(s2, v) == IrEval.Val(s1, v)
      {
        assert IrEval.Val(s2, v) == IrEval.Val(m, v);
      }
    }
  }

  /** Running `A + B` is running `A`, then `B`. */
  lemma {:induction false} RunSplit(s1: Store, A: seq<Instr>, B: seq<Instr>, s2: Store)
    requires IrEval.Run(s1, A + B, s2)
    ensures exists m :: IrEval.Run(s1, A, m) && IrEval.Run(m, B, s2)
    decreases |A|
  {
    if A == [] {
      assert A + B == B;
      assert IrEval.Run(s1, A, s1);
    } else {
      var s :| IrEval.Step(s1, (A + B)[0], s) && IrEval.Run(s, (A + B)[1..], s2);
      assert (A + B)[1..] == A[1..] + B && (A + B)[0] == A[0];
      RunSplit(s, A[1..], B, s2);
      var m :| IrEval.Run(s, A[1..], m) && IrEval.Run(m, B, s2);
      assert IrEval.Run(s1, A, m);
    }
  }

  /**
   * `ast_ir_exp__array` (ast_ir.c:421-437): the result is a variable exactly when the base
   * is a reference to an array; then, after the code of the base and of the index, four
   * instructions follow, and whenever they run without redefining the base's variable
   * before reading it, the result holds the base plus the index times the element size,
   * in C `int` arithmetic.
   */
  lemma {:induction false} ArrayAddress(n: Node, ctx: Ctx, st: St, s1: Store, s2: Store)
    requires n.ExpArray?
    ensures var arr := V(n.arr, ctx, st);
      var i := V(n.idx, ctx, arr.st);
      var idx := Atom(i.opr, i.st);
      var a := arr.opr;
      var r := ArrayV(n, ctx, st);
      && (r.opr.TVar? <==> a.TVar? && a.ty.Ref? && a.ty.ref.Array?)
      && (r.opr.TVar? ==>
            && |Frag(idx.st, r.st)| == 4
            && (IrEval.Run(s1, Frag(idx.st, r.st), s2) &&
                a.id !in IrEval.Defs(Frag(idx.st, r.st)[0]) + IrEval.Defs(Frag(idx.st, r.st)[1]) ==>
                  IrEval.Val(s2, r.opr.id) ==
                    IrEval.ArthVal(Plus, IrEval.Val(s1, a.id),
                      IrEval.ArthVal(Star, IrEval.OprVal(s1, Plain(idx.opr)),
                                     IrEval.OprVal(s1, Imm(Sem.Size(a.ty.ref.elem)))))))
  {
    var arr := V(n.arr, ctx, st);
    var i := V(n.idx, ctx, arr.st);
    var idx := Atom(i.opr, i.st);
    var a := arr.opr;
    var r := ArrayV(n, ctx, st);
    if a.TVar? && a.ty.Ref? && a.ty.ref.Array? {
      var elem := a.ty.ref.elem;
      var (off, st1) := NewVar(idx.st);
      var (res, st2) := NewVar(st1);
      var size := Imm(Sem.Size(elem));
      var st3 := Emit(st2, Arth(off, Plain(idx.opr), size, Star));
      var st4 := Emit(st3, Arth(res, Var(a.id), Var(off), Plus));
      assert r == Out(TVar(res, Sem.Ref(4, elem)), st4);
      EmitArth(st2, st3, off, Plain(idx.opr), size, Star, s1, s1);
      EmitArth(st3, st4, res, Var(a.id), Var(off), Plus, s1, s1);
      var K1, K2 := Frag(st2, st3), Frag(st3, st4);
      assert idx.st.cur.irs == st2.cur.irs;
      assert Frag(idx.st, r.st) == K1 + K2;
      if IrEval.Run(s1, K1 + K2, s2) && a.id !in IrEval.Defs(K1[0]) + IrEval.Defs(K1[1]) {
        RunSplit(s1, K1, K2, s2);
        var m :| IrEval.Run(s1, K1, m) && IrEval.Run(m, K2, s2);
        EmitArth(st2, st3, off, Plain(idx.opr), size, Star, s1, m);
        EmitArth(st3, st4, res, Var(a.id), Var(off), Plus, m, s2);
        assert IrEval.Val(m, a.id) == IrEval.Val(s1, a.id);
      }
    }
  }

  /** The field table of the struct a reference points to (none when it is not known). */
  function FieldsOf(ctx: Ctx, t: Sem.Type): seq<Field>
    requires t.Ref? && t.ref.Struct?
  {
    if t.ref.def in ctx.fields then ctx.fields[t.ref.def] else []
  }

  /**
   * `ast_ir_exp__dot` (ast_ir.c:439-454): the result is a variable exactly when the base is
   * a reference to a struct with a field of that name at a known offset; then, after the
   * code of the base, two instructions follow, and running them leaves the result
   * holding the base plus the field's offset, in C `int` arithmetic.
   */
  lemma {:induction false} DotAddress(n: Node, ctx: Ctx, st: St, s1: Store, s2: Store)
    requires n.ExpDot?
    ensures var b := V(n.exp, ctx, st);
      var a := b.opr;
      var r := DotV(n, ctx, st);
      && (r.opr.TVar? <==>
            a.TVar? && a.ty.Ref? && a.ty.ref.Struct? && FindField(FieldsOf(ctx, a.ty), n.id).Some? &&
            FindField(FieldsOf(ctx, a.ty), n.id).value.offset >= 0)
      && (r.opr.TVar? ==>
            && |Frag(b.st, r.st)| == 2
            && (IrEval.Run(s1, Frag(b.st, r.st), s2) ==>
                  IrEval.Val(s2, r.opr.id) ==
                    IrEval.ArthVal(Plus, IrEval.Val(s1, a.id),
                      IrEval.OprVal(s1, Imm(FindField(FieldsOf(ctx, a.ty), n.id).value.offset)))))
  {
    var b := V(n.exp, ctx, st);
    var a := b.opr;
    var r := DotV(n, ctx, st);
    if r.opr.TVar? {
      var fd := FindField(FieldsOf(ctx, a.ty), n.id).value;
      var (res, st1) := NewVar(b.st);
      var st2 := Emit(st1, Arth(res, Var(a.id), Imm(fd.offset), Plus));
      assert r == Out(TVar(res, Sem.Ref(4, fd.ty)), st2);
      EmitArth(st1, st2, res, Var(a.id), Imm(fd.offset), Plus, s1, s2);
      assert b.st.cur.irs == st1.cur.irs;
    }
  }

}
