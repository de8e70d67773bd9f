/**
 * The peephole pass run on the freshly lowered code, before any block is built.
 * A window of one, two or three instructions slides over every reachable function,
 * four times: constants are folded and operands normalised inside one instruction,
 * a goto to the very next label is removed, a branch over a goto is inverted, and of
 * two consecutive labels the first is merged into the second.
 *
 * Each rewrite is stated on a value (`Listing`: instructions, labels, jump counter)
 * and performed in place on a graph through the label protocol; the lemmas say what
 * the rewritten code does compared with the original: an instruction that computes
 * the same, a branch taken on the same stores, and control that lands on the same
 * instruction.
 */
module HolePass {
  import opened Base
  import opened IrTypes
  import opened IrEval
  import opened IrProgram

  /* ------------------------------------------------------------------ */
  /* hole_constant on one instruction                                    */
  /* ------------------------------------------------------------------ */

  /**
   * `hole_constant` on `l := a op b`: two immediates fold into a move (division by
   * zero gives 0); an immediate first operand of `+` or `*` moves second, and `x * #0`
   * becomes `#0`; `x - x` becomes `#0`, `x / x` becomes `#1` and `x / #0` becomes `#0`.
   */
  function HoleArth(l: nat, a: Opr, b: Opr, op: ArithOp): (y: Instr)
    ensures (y.Mov? || y.Arth?) && y.lhs == l
    ensures a.Imm? && b.Imm? ==> y.Mov? && y.rhs.Imm? && IsInt32(y.rhs.val)
    ensures y.Arth? ==> y.op == op && multiset{y.opr1, y.opr2} == multiset{a, b}
    ensures y.Arth? && (op == Plus || op == Star) ==> y.opr1.Var?
  {
    if a.Imm? && b.Imm? then
      var x, z := Wrap32(a.val), Wrap32(b.val);
      Mov(l, Imm(if op == Div && z == 0 then 0 else ArthVal(op, x, z)))
    else if op == Plus || op == Star then
      var p, q := if a.Imm? then b else a, if a.Imm? then a else b;
      if op == Star && SameOpr(q, Imm(0)) then Mov(l, Imm(0)) else Arth(l, p, q, op)
    else if op == Minus && SameOpr(a, b) then Mov(l, Imm(0))
    else if op == Div && SameOpr(a, b) then Mov(l, Imm(1))
    else if op == Div && SameOpr(b, Imm(0)) then Mov(l, Imm(0))
    else Arth(l, a, b, op)
  }

  /** What `hole_constant` makes of a branch: kept (with its operands possibly swapped),
      turned into a goto to its label, or removed. */
  datatype BranchFate = Keep(a: Opr, b: Opr, rel: Relop) | Jump | Drop

  /**
   * `hole_constant` on `IF a rel b GOTO`: two immediates decide the branch; an
   * immediate first operand is swapped with the second and the comparison mirrored;
   * the same operand on both sides decides it by the comparison's reflexivity.
   */
  function HoleBranch(a: Opr, b: Opr, rel: Relop): (f: BranchFate)
    ensures f.Keep? ==> f.a.Var? && multiset{f.a, f.b} == multiset{a, b}
    ensures a.Imm? && b.Imm? ==> !f.Keep?
  {
    if a.Imm? && b.Imm? then
      if EvalRelop(rel, Wrap32(a.val), Wrap32(b.val)) then Jump else Drop
    else if a.Imm? then Keep(b, a, Mirror(rel))
    else if SameOpr(a, b) then
      if rel == LE || rel == GE || rel == EQ then Jump else Drop
    else Keep(a, b, rel)
  }

  /** The rewritten arithmetic computes what the original does, from every store where
      the original is defined. */
  lemma HoleArthRefines(l: nat, a: Opr, b: Opr, op: ArithOp)
    ensures Refines(Arth(l, a, b, op), HoleArth(l, a, b, op))
  {
    var x := Arth(l, a, b, op);
    var y := HoleArth(l, a, b, op);
    forall s1, s2 | Step(s1, x, s2) ensures Step(s1, y, s2) && Emits(s1, y) == Emits(s1, x) {
      HoleArthStep(l, a, b, op, s1, s2);
    }
  }

  lemma HoleArthStep(l: nat, a: Opr, b: Opr, op: ArithOp, s1: Store, s2: Store)
    requires Step(s1, Arth(l, a, b, op), s2)
    ensures Step(s1, HoleArth(l, a, b, op), s2)
  {
    var u, v := OprVal(s1, a), OprVal(s1, b);
    assert Keeps(s1, s2, {l}) && ArthDefined(op, v) && Val(s2, l) == ArthVal(op, u, v);
    if a.Imm? && b.Imm? {
      FoldedStep(l, a, b, op, s1, s2);
    } else if op == Plus || op == Star {
      CommutedStep(l, a, b, op, s1, s2);
    } else if op == Minus && SameOpr(a, b) {
      SameOprIsEquality(a, b);
      assert Val(s2, l) == 0;
      StepMov(s1, s2, l, Imm(0));
    } else if op == Div && SameOpr(a, b) {
      SameOprIsEquality(a, b);
      SelfQuotient(u);
      StepMov(s1, s2, l, Imm(1));
    } else if op == Div && SameOpr(b, Imm(0)) {
      assert false;
    } else {
      assert HoleArth(l, a, b, op) == Arth(l, a, b, op);
    }
  }

  /** Two immediates: the move of the folded value. */
  lemma FoldedStep(l: nat, a: Opr, b: Opr, op: ArithOp, s1: Store, s2: Store)
    requires a.Imm? && b.Imm?
    requires Keeps(s1, s2, {l}) && ArthDefined(op, OprVal(s1, b))
    requires Val(s2, l) == ArthVal(op, OprVal(s1, a), OprVal(s1, b))
    ensures Step(s1, HoleArth(l, a, b, op), s2)
  {
    var y := HoleArth(l, a, b, op);
    assert OprVal(s1, a) == Wrap32(a.val) && OprVal(s1, b) == Wrap32(b.val);
    assert y == Mov(l, Imm(ArthVal(op, Wrap32(a.val), Wrap32(b.val))));
    StepMov(s1, s2, l, y.rhs);
  }

  /** `+` and `*`: the operands in either order, and `x * #0` as `#0`. */
  lemma CommutedStep(l: nat, a: Opr, b: Opr, op: ArithOp, s1: Store, s2: Store)
    requires !(a.Imm? && b.Imm?) && (op == Plus || op == Star)
    requires Keeps(s1, s2, {l}) && Val(s2, l) == ArthVal(op, OprVal(s1, a), OprVal(s1, b))
    ensures Step(s1, HoleArth(l, a, b, op), s2)
  {
    var u, v := OprVal(s1, a), OprVal(s1, b);
    var y := HoleArth(l, a, b, op);
    assert u * v == v * u && u + v == v + u;
    assert ArthVal(op, v, u) == ArthVal(op, u, v);
    if y.Mov? {
      assert y.rhs == Imm(0) && op == Star;
      assert u == 0 || v == 0;
      assert u * v == 0;
      StepMov(s1, s2, l, Imm(0));
    } else {
      StepArth(s1, s2, l, y.opr1, y.opr2, op);
    }
  }

  /** A non-zero number divided by itself, in C, is one. */
  lemma SelfQuotient(u: int)
    requires IsInt32(u) && u != 0
    ensures ArthVal(Div, u, u) == 1
  {
    assert Abs(u) / Abs(u) == 1;
    assert TruncDiv(u, u) == 1;
  }

  /**
   * The branch's fate says what it does from any store: a branch turned into a goto
   * was always taken, a removed one never, and a kept one is taken exactly when the
   * original was.
   */
  lemma HoleBranchSound(a: Opr, b: Opr, rel: Relop, s: Store)
    ensures HoleBranch(a, b, rel).Jump? ==> Taken(s, a, b, rel)
    ensures HoleBranch(a, b, rel).Drop? ==> !Taken(s, a, b, rel)
    ensures var f := HoleBranch(a, b, rel);
      f.Keep? ==> (Taken(s, f.a, f.b, f.rel) <==> Taken(s, a, b, rel))
  {
    var x, y := OprVal(s, a), OprVal(s, b);
    if a.Imm? && b.Imm? {
      assert x == Wrap32(a.val) && y == Wrap32(b.val);
    } else if a.Imm? {
      MirrorSwaps(rel, x, y);
      assert HoleBranch(a, b, rel) == Keep(b, a, Mirror(rel));
    } else if SameOpr(a, b) {
      SameOprIsEquality(a, b);
      assert x == y;
    } else {
      assert HoleBranch(a, b, rel) == Keep(a, b, rel);
    }
  }

  /* ------------------------------------------------------------------ */
  /* The code a window works on, and control that lands                  */
  /* ------------------------------------------------------------------ */

  /** A function's instructions, its labels and its jump counter, as one value. */
  datatype Listing = Listing(irs: seq<Instr>, labels: map<nat, LabelRec>, nextJid: nat)

  ghost predicate Ok(c: Listing)
  {
    LabelsOk(c.irs, c.labels, c.nextJid)
  }

  /** The listing of a graph. */
  ghost function ListingOf(cfg: Cfg): Listing
    reads cfg
  {
    Listing(cfg.irs, cfg.labels, cfg.nextJid)
  }

  /** Nops and labels do nothing when control reaches them. */
  predicate Inert(x: Instr)
  {
    x.Nop? || x.Label?
  }

  /** The first position at or after p whose instruction does something (`|irs|` if
      control runs off the end): where control reaching p really arrives. */
  function Landing(irs: seq<Instr>, p: nat): (r: nat)
    requires p <= |irs|
    ensures p <= r <= |irs|
    ensures forall q | p <= q < r :: Inert(irs[q])
    ensures r < |irs| ==> !Inert(irs[r])
    decreases |irs| - p
  {
    if p == |irs| || !Inert(irs[p]) then p else Landing(irs, p + 1)
  }

  /** The landing is the only position with its two properties. */
  lemma LandingAt(irs: seq<Instr>, p: nat, r: nat)
    requires p <= r <= |irs|
    requires forall q | p <= q < r :: Inert(irs[q])
    requires r < |irs| ==> !Inert(irs[r])
    ensures Landing(irs, p) == r
  {
    var r' := Landing(irs, p);
    if r != r' {
      assert false;
    }
  }

  /** Two lists that agree on which positions are inert agree on every landing. */
  ghost predicate SameInert(irs: seq<Instr>, irs': seq<Instr>)
  {
    |irs| == |irs'| && forall q | 0 <= q < |irs| :: Inert(irs'[q]) == Inert(irs[q])
  }

  /** Control lands everywhere as before. */
  ghost predicate LandsSame(irs: seq<Instr>, irs': seq<Instr>)
    requires |irs| == |irs'|
  {
    forall q | 0 <= q <= |irs| :: Landing(irs', q) == Landing(irs, q)
  }

  /** Control lands everywhere as before, except that what landed on p, now inert,
      goes on to where control after p lands. */
  ghost predicate LandsBypassing(irs: seq<Instr>, irs': seq<Instr>, p: nat)
    requires |irs| == |irs'| && p < |irs|
  {
    forall q | 0 <= q <= |irs| ::
      Landing(irs', q) == (if Landing(irs, q) == p then Landing(irs, p + 1) else Landing(irs, q))
  }

  lemma SameInertLands(irs: seq<Instr>, irs': seq<Instr>)
    requires SameInert(irs, irs')
    ensures LandsSame(irs, irs')
  {
    forall q | 0 <= q <= |irs| ensures Landing(irs', q) == Landing(irs, q) {
      LandingAt(irs', q, Landing(irs, q));
    }
  }

  /** Turning one instruction that does something into an inert one makes control that
      arrived there go on to what follows it; every other landing is as before. */
  lemma BypassLands(irs: seq<Instr>, irs': seq<Instr>, p: nat)
    requires |irs| == |irs'| && p < |irs| && !Inert(irs[p]) && Inert(irs'[p])
    requires forall q | 0 <= q < |irs| && q != p :: Inert(irs'[q]) == Inert(irs[q])
    ensures LandsBypassing(irs, irs', p)
  {
    forall q | 0 <= q <= |irs|
      ensures Landing(irs', q) == (if Landing(irs, q) == p then Landing(irs, p + 1) else Landing(irs, q))
    {
      var r := Landing(irs, q);
      if r == p {
        LandingAt(irs', q, Landing(irs, p + 1));
      } else {
        LandingAt(irs', q, r);
      }
    }
  }

  /** A label placed at k in a list where labels are unique is found at k. */
  lemma FoundAt(irs: seq<Instr>, l: nat, k: nat)
    requires LabelsUnique(irs) && k < |irs| && irs[k] == Label(l)
    ensures FindLabel(irs, l) == Some(k)
  {
    assert FindLabel(irs, l).Some?;
  }

  /** A label placed at the same positions in two lists is found at the same place. */
  lemma FoundAlike(irs: seq<Instr>, irs': seq<Instr>, l: nat)
    requires |irs| == |irs'| && LabelsUnique(irs) && LabelsUnique(irs')
    requires forall q | 0 <= q < |irs| :: (irs'[q] == Label(l)) == (irs[q] == Label(l))
    ensures FindLabel(irs', l) == FindLabel(irs, l)
  {
    var f := FindLabel(irs, l);
    if f.Some? {
      FoundAt(irs', l, f.value);
    }
  }

  /** A jump to a label holds one of its references. */
  lemma JumpHoldsRef(c: Listing, p: nat)
    requires Ok(c) && p < |c.irs| && c.irs[p].IsJump()
    ensures c.irs[p].target in c.labels && c.labels[c.irs[p].target].ref >= 1
  {
    assert p in JumpsTo(c.irs, c.irs[p].target);
  }

  /** Two jumps to one label hold two of its references. */
  lemma JumpsHoldRefs(c: Listing, p: nat, q: nat)
    requires Ok(c) && p < q < |c.irs| && c.irs[p].IsJump() && c.irs[q].IsJump()
    requires c.irs[p].target == c.irs[q].target
    ensures c.irs[p].target in c.labels && c.labels[c.irs[p].target].ref >= 2
  {
    var l := c.irs[p].target;
    assert {p, q} <= JumpsTo(c.irs, l);
    assert |{p, q}| == 2;
    SubsetCard({p, q}, JumpsTo(c.irs, l));
  }

  lemma SubsetCard(a: set<nat>, b: set<nat>)
    requires a <= b
    ensures |a| <= |b|
  {
    assert b == a + (b - a);
  }

  /* ------------------------------------------------------------------ */
  /* The label protocol on listings                                      */
  /* ------------------------------------------------------------------ */

  /** `remove_branch_goto` on the jump at p: its label gives back a reference (and turns
      into a nop when none is left) and the jump becomes a nop. */
  function Unjump(c: Listing, p: nat): (r: Listing)
    requires Ok(c) && p < |c.irs| && c.irs[p].IsJump()
    ensures Ok(r) && |r.irs| == |c.irs| && r.irs[p] == Nop && r.nextJid == c.nextJid
    ensures c.irs[p].target in c.labels && r.labels.Keys == c.labels.Keys
    ensures r.labels[c.irs[p].target].ref == c.labels[c.irs[p].target].ref - 1
    ensures forall m | m in c.labels && m != c.irs[p].target :: r.labels[m] == c.labels[m]
    ensures forall q | 0 <= q < |c.irs| && q != p && r.irs[q] != c.irs[q] ::
      r.irs[q] == Nop && c.irs[q] == Label(c.irs[p].target) && c.labels[c.irs[p].target].ref == 1
  {
    RemoveKeepsLabelsOk(c.irs, c.labels, c.nextJid, p);
    var t := Release(c.irs, c.labels, c.irs[p].target);
    Listing(t.0[p := Nop], t.1, c.nextJid)
  }

  /** `add_branch_goto` of a new jump x placed at p: it takes the next identity and is
      recorded on its label. */
  function PlaceNew(c: Listing, p: nat, x: Instr): (r: Listing)
    requires Ok(c) && p < |c.irs| && !c.irs[p].IsJump() && !c.irs[p].Label?
    requires x.IsJump() && x.target in c.labels
    ensures Ok(r) && |r.irs| == |c.irs| && r.labels.Keys == c.labels.Keys
    ensures r.irs == c.irs[p := x.(jid := c.nextJid)]
    ensures r.labels[x.target].ref == c.labels[x.target].ref + 1
    ensures forall m | m in c.labels && m != x.target :: r.labels[m] == c.labels[m]
  {
    PlaceJumpKeepsLabelsOk(c.irs, c.labels, c.nextJid, p, x.(jid := c.nextJid));
    Listing(c.irs[p := x.(jid := c.nextJid)], Register(c.labels, x.target, c.nextJid), c.nextJid + 1)
  }

  /* ------------------------------------------------------------------ */
  /* The four windows, on listings                                       */
  /* ------------------------------------------------------------------ */

  /** `hole_constant` at position p. */
  function HoleConstant(c: Listing, p: nat): (r: Listing)
    requires Ok(c) && p < |c.irs|
    ensures Ok(r) && |r.irs| == |c.irs| && r.labels.Keys == c.labels.Keys
  {
    if c.irs[p].Arth? then FoldArth(c, p)
    else if c.irs[p].Branch? then FoldBranch(c, p)
    else c
  }

  /** `hole_constant` on the arithmetic at p. */
  function FoldArth(c: Listing, p: nat): (r: Listing)
    requires Ok(c) && p < |c.irs| && c.irs[p].Arth?
    ensures Ok(r) && |r.irs| == |c.irs| && r.labels.Keys == c.labels.Keys
    ensures var x := c.irs[p]; r.irs == c.irs[p := HoleArth(x.lhs, x.opr1, x.opr2, x.op)]
  {
    var x := c.irs[p];
    var y := HoleArth(x.lhs, x.opr1, x.opr2, x.op);
    ReplacePlainKeepsLabelsOk(c.irs, c.labels, c.nextJid, p, y);
    Listing(c.irs[p := y], c.labels, c.nextJid)
  }

  /** `hole_constant` on the branch at p. A branch that becomes a goto keeps its label's
      count: the goto's reference is added as the branch's is given back. */
  function FoldBranch(c: Listing, p: nat): (r: Listing)
    requires Ok(c) && p < |c.irs| && c.irs[p].Branch?
    ensures Ok(r) && |r.irs| == |c.irs| && r.labels.Keys == c.labels.Keys
    ensures var x := c.irs[p]; match HoleBranch(x.opr1, x.opr2, x.rel)
      case Keep(a, b, rel) => r.irs == c.irs[p := Branch(a, b, rel, x.target, x.jid)]
      case Jump => r.irs == c.irs[p := Goto(x.target, c.nextJid)]
      case Drop => r.irs[p] == Nop && forall q | 0 <= q < |c.irs| && q != p ::
        (r.irs[q] == c.irs[q] || (c.irs[q].Label? && r.irs[q] == Nop))
  {
    var x := c.irs[p];
    var t := x.target;
    match HoleBranch(x.opr1, x.opr2, x.rel)
    case Keep(a, b, rel) =>
      ReplaceSameJumpKeepsLabelsOk(c.irs, c.labels, c.nextJid, p, Branch(a, b, rel, t, x.jid));
      Listing(c.irs[p := Branch(a, b, rel, t, x.jid)], c.labels, c.nextJid)
    case Jump =>
      BranchToGotoKeepsLabelsOk(c.irs, c.labels, c.nextJid, p);
      Listing(c.irs[p := Goto(t, c.nextJid)],
              c.labels[t := LabelRec(c.labels[t].ref, c.labels[t].ins + [c.nextJid])], c.nextJid + 1)
    case Drop => Unjump(c, p)
  }

  /** The window of `hole_elim_jump1`: a goto to the label right after it. */
  predicate Jump1Fits(irs: seq<Instr>, j: nat)
  {
    j + 2 <= |irs| && irs[j].Goto? && irs[j + 1] == Label(irs[j].target)
  }

  /** `hole_elim_jump1` at j: the goto is removed. */
  function Jump1(c: Listing, j: nat): (r: Listing)
    requires Ok(c) && j + 2 <= |c.irs|
    ensures Ok(r) && |r.irs| == |c.irs| && r.labels.Keys == c.labels.Keys
  {
    if Jump1Fits(c.irs, j) then Unjump(c, j) else c
  }

  /** The window of `hole_elim_jump2`: a branch over a goto to the label right after both. */
  predicate Jump2Fits(irs: seq<Instr>, j: nat)
  {
    j + 3 <= |irs| && irs[j].Branch? && irs[j + 1].Goto? && irs[j + 2] == Label(irs[j].target)
  }

  /** The branch `hole_elim_jump2` puts at j: the negated comparison, to the goto's label. */
  function Inverted(x: Instr, g: Instr): (y: Instr)
    requires x.Branch? && g.Goto?
    ensures y.Branch? && y.target == g.target && y.rel == Negate(x.rel)
  {
    Branch(x.opr1, x.opr2, Negate(x.rel), g.target, 0)
  }

  /** `hole_elim_jump2` at j: the branch is removed, the inverted branch to the goto's
      label takes its place, and the goto is removed. */
  function Jump2(c: Listing, j: nat): (r: Listing)
    requires Ok(c) && j + 3 <= |c.irs|
    ensures Ok(r) && |r.irs| == |c.irs| && r.labels.Keys == c.labels.Keys
  {
    if Jump2Fits(c.irs, j) then Unjump(Jump2Placed(c, j), j + 1) else c
  }

  /** The first step of `hole_elim_jump2`: the old branch is removed. */
  function Jump2Cleared(c: Listing, j: nat): (r: Listing)
    requires Ok(c) && Jump2Fits(c.irs, j)
    ensures Ok(r) && |r.irs| == |c.irs| && r.labels.Keys == c.labels.Keys
    ensures r.irs[j] == Nop && r.irs[j + 1] == c.irs[j + 1] && c.irs[j + 1].target in r.labels
  {
    assert c.irs[j + 1].target in c.labels;
    Unjump(c, j)
  }

  /** The second step of `hole_elim_jump2`: the inverted branch is placed and recorded. */
  function Jump2Placed(c: Listing, j: nat): (r: Listing)
    requires Ok(c) && Jump2Fits(c.irs, j)
    ensures Ok(r) && |r.irs| == |c.irs| && r.labels.Keys == c.labels.Keys
    ensures r.irs[j] == Branch(c.irs[j].opr1, c.irs[j].opr2, Negate(c.irs[j].rel), c.irs[j + 1].target, c.nextJid)
    ensures r.irs[j + 1] == c.irs[j + 1]
  {
    PlaceNew(Jump2Cleared(c, j), j, Inverted(c.irs[j], c.irs[j + 1]))
  }

  /** The window of `hole_elim_label`: two consecutive labels. */
  predicate MergeFits(irs: seq<Instr>, j: nat)
  {
    j + 2 <= |irs| && irs[j].Label? && irs[j + 1].Label?
  }

  /** Retargeting the jump recorded as `jid` on l0 to l1, if it is still placed and
      still targets l0 (otherwise it was removed and nothing is done). */
  function RetargetOne(c: Listing, jid: nat, l0: nat, l1: nat): (r: Listing)
    requires Ok(c) && l1 in c.labels && l0 != l1
    ensures Ok(r) && |r.irs| == |c.irs| && r.labels.Keys == c.labels.Keys && r.nextJid == c.nextJid
    ensures forall q | 0 <= q < |c.irs| :: (r.irs[q] == c.irs[q] ||
      (c.irs[q].IsJump() && c.irs[q].target == l0 && c.irs[q].jid == jid && r.irs[q] == c.irs[q].(target := l1)))
  {
    match FindJump(c.irs, jid)
    case Some(q) =>
      if c.irs[q].target == l0 then
        RetargetKeepsLabelsOk(c.irs, c.labels, c.nextJid, q, l1);
        Listing(c.irs[q := c.irs[q].(target := l1)], Register(c.labels, l1, c.irs[q].jid), c.nextJid)
      else c
    case None => c
  }

  /** Retargeting, in order, every jump recorded in `ins` from l0 to l1. */
  function RetargetAll(c: Listing, ins: seq<nat>, l0: nat, l1: nat): (r: Listing)
    requires Ok(c) && l1 in c.labels && l0 != l1
    ensures Ok(r) && |r.irs| == |c.irs| && r.labels.Keys == c.labels.Keys && r.nextJid == c.nextJid
    ensures forall q | 0 <= q < |c.irs| :: (r.irs[q] == c.irs[q] ||
      (c.irs[q].IsJump() && c.irs[q].target == l0 && c.irs[q].jid in ins && r.irs[q] == c.irs[q].(target := l1)))
    decreases |ins|
  {
    if |ins| == 0 then c
    else
      var c1 := RetargetAll(c, ins[..|ins| - 1], l0, l1);
      RetargetOne(c1, ins[|ins| - 1], l0, l1)
  }

  /** `hole_elim_label` at j: every jump recorded on the first label moves to the second,
      and the first label becomes a nop. */
  function MergeLabels(c: Listing, j: nat): (r: Listing)
    requires Ok(c) && j + 2 <= |c.irs|
    ensures Ok(r) && |r.irs| == |c.irs| && r.labels.Keys == c.labels.Keys
  {
    if MergeFits(c.irs, j) then
      var c1 := Merged(c, j);
      LabelToNopKeepsLabelsOk(c1.irs, c1.labels, c1.nextJid, j);
      Listing(c1.irs[j := Nop], c1.labels, c1.nextJid)
    else c
  }

  /** The jumps recorded on the first label, retargeted to the second. */
  function Merged(c: Listing, j: nat): (r: Listing)
    requires Ok(c) && MergeFits(c.irs, j)
    ensures Ok(r) && |r.irs| == |c.irs| && r.labels.Keys == c.labels.Keys
    ensures c.irs[j].lbl != c.irs[j + 1].lbl
    ensures r.irs[j] == c.irs[j] && r.irs[j + 1] == c.irs[j + 1]
    ensures forall q | 0 <= q < |c.irs| :: (r.irs[q] == c.irs[q] ||
      (c.irs[q].IsJump() && c.irs[q].target == c.irs[j].lbl && r.irs[q] == c.irs[q].(target := c.irs[j + 1].lbl)))
  {
    var l0, l1 := c.irs[j].lbl, c.irs[j + 1].lbl;
    assert l0 != l1 && l1 in c.labels && l0 in c.labels;
    RetargetAll(c, c.labels[l0].ins, l0, l1)
  }

  /* ------------------------------------------------------------------ */
  /* What the windows preserve                                           */
  /* ------------------------------------------------------------------ */

  /**
   * From store s, y can stand where x stood: it computes what x computes, and when x is
   * a branch, y is a goto to its label and x was taken, or a nop and x was not taken, or
   * a branch to the same label, with the same identity, taken exactly when x was.
   */
  ghost predicate StandsFor(s: Store, x: Instr, y: Instr)
  {
    RefinesAt(s, x, y) &&
    (x.Branch? ==> (y.Goto? && y.target == x.target && Taken(s, x.opr1, x.opr2, x.rel)) ||
                   (y.Nop? && !Taken(s, x.opr1, x.opr2, x.rel)) ||
                   (y.Branch? && y.target == x.target && y.jid == x.jid &&
                    (Taken(s, y.opr1, y.opr2, y.rel) <==> Taken(s, x.opr1, x.opr2, x.rel))))
  }

  /**
   * After `hole_constant`, the instruction at p stands for the old one from every store;
   * an instruction other than an arithmetic or a branch is left alone, and no other
   * position changes but a label left without jumps.
   */
  lemma HoleConstantSound(c: Listing, p: nat, s: Store)
    requires Ok(c) && p < |c.irs|
    ensures StandsFor(s, c.irs[p], HoleConstant(c, p).irs[p])
    ensures !c.irs[p].Arth? && !c.irs[p].Branch? ==> HoleConstant(c, p) == c
    ensures var r := HoleConstant(c, p);
      forall q | 0 <= q < |c.irs| && q != p :: r.irs[q] == c.irs[q] || (c.irs[q].Label? && r.irs[q] == Nop)
  {
    var x := c.irs[p];
    if x.Arth? {
      FoldArthSound(c, p, s);
    } else if x.Branch? {
      FoldBranchSound(c, p, s);
      FoldBranchOthers(c, p);
    }
  }

  lemma FoldArthSound(c: Listing, p: nat, s: Store)
    requires Ok(c) && p < |c.irs| && c.irs[p].Arth?
    ensures StandsFor(s, c.irs[p], FoldArth(c, p).irs[p])
  {
    var x := c.irs[p];
    HoleArthRefines(x.lhs, x.opr1, x.opr2, x.op);
  }

  lemma FoldBranchSound(c: Listing, p: nat, s: Store)
    requires Ok(c) && p < |c.irs| && c.irs[p].Branch?
    ensures StandsFor(s, c.irs[p], FoldBranch(c, p).irs[p])
  {
    var x := c.irs[p];
    var y := FoldBranch(c, p).irs[p];
    HoleBranchSound(x.opr1, x.opr2, x.rel, s);
    assert y.Nop? || y.IsJump() by { FoldBranchOthers(c, p); }
    ControlOnlyRefines(s, x, y);
  }

  /** Gotos, branches and nops change no variable and hand nothing out, so any of them
      can stand for another as far as the store goes. */
  lemma ControlOnlyRefines(s: Store, x: Instr, y: Instr)
    requires x.Nop? || x.IsJump()
    requires y.Nop? || y.IsJump()
    ensures RefinesAt(s, x, y)
  {
    assert Defs(x) == {} && Defs(y) == {};
    assert Emits(s, x) == [] && Emits(s, y) == [];
  }

  /** Folding a branch touches no other position but a label left without jumps. */
  lemma FoldBranchOthers(c: Listing, p: nat)
    requires Ok(c) && p < |c.irs| && c.irs[p].Branch?
    ensures var r := FoldBranch(c, p);
      forall q | 0 <= q < |c.irs| && q != p :: r.irs[q] == c.irs[q] || (c.irs[q].Label? && r.irs[q] == Nop)
    ensures var r := FoldBranch(c, p); r.irs[p].Nop? || r.irs[p].IsJump()
  {
    var x := c.irs[p];
    match HoleBranch(x.opr1, x.opr2, x.rel)
    case Keep(_, _, _) =>
    case Jump =>
    case Drop =>
  }

  /** After `hole_constant`, control lands where it did, except that what landed on a
      removed branch goes on to what follows it (the branch was never taken). */
  lemma HoleConstantLands(c: Listing, p: nat)
    requires Ok(c) && p < |c.irs|
    ensures var r := HoleConstant(c, p);
      if c.irs[p].Branch? && r.irs[p].Nop? then LandsBypassing(c.irs, r.irs, p)
      else LandsSame(c.irs, r.irs)
  {
    var r := HoleConstant(c, p);
    if c.irs[p].Branch? {
      FoldBranchOthers(c, p);
      assert forall q | 0 <= q < |c.irs| && q != p :: Inert(r.irs[q]) == Inert(c.irs[q]);
      if r.irs[p].Nop? {
        BypassLands(c.irs, r.irs, p);
      } else {
        assert SameInert(c.irs, r.irs);
        SameInertLands(c.irs, r.irs);
      }
    } else {
      assert SameInert(c.irs, r.irs);
      SameInertLands(c.irs, r.irs);
    }
  }

  /**
   * `hole_elim_jump1`: where the removed goto stood, control now falls through to the
   * instruction the goto reached (its label is the very next one); any other landing
   * is unchanged.
   */
  lemma Jump1Lands(c: Listing, j: nat)
    requires Ok(c) && Jump1Fits(c.irs, j)
    ensures FindLabel(c.irs, c.irs[j].target) == Some(j + 1)
    ensures var r := Jump1(c, j);
      r.irs[j] == Nop && LandsBypassing(c.irs, r.irs, j) &&
      Landing(r.irs, j) == Landing(c.irs, j + 1)
  {
    FoundAt(c.irs, c.irs[j].target, j + 1);
    var r := Jump1(c, j);
    BypassLands(c.irs, r.irs, j);
    assert Landing(c.irs, j) == j;
  }

  /**
   * `hole_elim_jump2`: the inverted branch is taken exactly when the old one was not,
   * and then goes to the goto's label, placed where it was; when it is not taken,
   * control falls through to where the old branch jumped (its label follows the goto).
   * Any other landing is unchanged.
   */
  lemma Jump2Sound(c: Listing, j: nat, s: Store)
    requires Ok(c) && Jump2Fits(c.irs, j)
    ensures var r := Jump2(c, j);
      var x, g, y := c.irs[j], c.irs[j + 1], r.irs[j];
      y.Branch? && y.target == g.target && y.opr1 == x.opr1 && y.opr2 == x.opr2 &&
      (Taken(s, y.opr1, y.opr2, y.rel) <==> !Taken(s, x.opr1, x.opr2, x.rel)) &&
      r.irs[j + 1] == Nop &&
      FindLabel(r.irs, g.target) == FindLabel(c.irs, g.target) &&
      FindLabel(c.irs, x.target) == Some(j + 2) &&
      LandsBypassing(c.irs, r.irs, j + 1) && Landing(r.irs, j + 1) == Landing(c.irs, j + 2)
  {
    var x, g := c.irs[j], c.irs[j + 1];
    NegateNegates(x.rel, OprVal(s, x.opr1), OprVal(s, x.opr2));
    FoundAt(c.irs, x.target, j + 2);
    Jump2Shape(c, j);
  }

  /** The positions `hole_elim_jump2` changes, and the goto's label staying put. */
  lemma Jump2Shape(c: Listing, j: nat)
    requires Ok(c) && Jump2Fits(c.irs, j)
    ensures var r := Jump2(c, j);
      r.irs[j] == Branch(c.irs[j].opr1, c.irs[j].opr2, Negate(c.irs[j].rel), c.irs[j + 1].target, c.nextJid) &&
      r.irs[j + 1] == Nop &&
      FindLabel(r.irs, c.irs[j + 1].target) == FindLabel(c.irs, c.irs[j + 1].target) &&
      LandsBypassing(c.irs, r.irs, j + 1)
  {
    var r := Jump2(c, j);
    Jump2KeepsLabel(c, j);
    FoundAlike(c.irs, r.irs, c.irs[j + 1].target);
    Jump2Inert(c, j);
    BypassLands(c.irs, r.irs, j + 1);
  }

  /** The goto's label keeps a reference at every step of `hole_elim_jump2`, so it is
      never turned into a nop. */
  lemma Jump2KeepsLabel(c: Listing, j: nat)
    requires Ok(c) && Jump2Fits(c.irs, j)
    ensures var l2 := c.irs[j + 1].target;
      forall q | 0 <= q < |c.irs| :: (Jump2(c, j).irs[q] == Label(l2)) == (c.irs[q] == Label(l2))
  {
    var l2 := c.irs[j + 1].target;
    var c2 := Jump2Placed(c, j);
    PlacedKeepsLabel(c, j);
    UnjumpKeepsLabel(c2, j + 1, l2);
  }

  lemma PlacedKeepsLabel(c: Listing, j: nat)
    requires Ok(c) && Jump2Fits(c.irs, j)
    ensures var l2 := c.irs[j + 1].target;
      Jump2Placed(c, j).labels[l2].ref >= 2 &&
      forall q | 0 <= q < |c.irs| :: (Jump2Placed(c, j).irs[q] == Label(l2)) == (c.irs[q] == Label(l2))
  {
    ClearedKeepsLabel(c, j);
    var c1 := Jump2Cleared(c, j);
    assert Jump2Placed(c, j).irs == c1.irs[j := Jump2Placed(c, j).irs[j]];
  }

  lemma ClearedKeepsLabel(c: Listing, j: nat)
    requires Ok(c) && Jump2Fits(c.irs, j)
    ensures var l2 := c.irs[j + 1].target;
      Jump2Cleared(c, j).labels[l2].ref >= 1 &&
      forall q | 0 <= q < |c.irs| :: (Jump2Cleared(c, j).irs[q] == Label(l2)) == (c.irs[q] == Label(l2))
  {
    var l1, l2 := c.irs[j].target, c.irs[j + 1].target;
    if l1 == l2 {
      JumpsHoldRefs(c, j, j + 1);
    }
    UnjumpKeepsLabel(c, j, l2);
    JumpHoldsRef(Jump2Cleared(c, j), j + 1);
  }

  /** Giving back a jump's reference keeps every other label where it is, and its own
      label too when the label holds another reference. */
  lemma UnjumpKeepsLabel(c: Listing, p: nat, m: nat)
    requires Ok(c) && p < |c.irs| && c.irs[p].IsJump()
    requires c.irs[p].target == m ==> c.labels[m].ref >= 2
    ensures forall q | 0 <= q < |c.irs| :: (Unjump(c, p).irs[q] == Label(m)) == (c.irs[q] == Label(m))
  {
  }

  /** Giving back a jump's reference makes no other position inert or active. */
  lemma UnjumpInert(c: Listing, p: nat)
    requires Ok(c) && p < |c.irs| && c.irs[p].IsJump()
    ensures forall q | 0 <= q < |c.irs| && q != p :: Inert(Unjump(c, p).irs[q]) == Inert(c.irs[q])
  {
  }

  /** `hole_elim_jump2` makes only the goto's position inert. */
  lemma Jump2Inert(c: Listing, j: nat)
    requires Ok(c) && Jump2Fits(c.irs, j)
    ensures var r := Jump2(c, j);
      forall q | 0 <= q < |c.irs| && q != j + 1 :: Inert(r.irs[q]) == Inert(c.irs[q])
  {
    var c2 := Jump2Placed(c, j);
    InertAfterPlaced(c, j);
    UnjumpInert(c2, j + 1);
  }

  lemma InertAfterPlaced(c: Listing, j: nat)
    requires Ok(c) && Jump2Fits(c.irs, j)
    ensures forall q | 0 <= q < |c.irs| :: Inert(Jump2Placed(c, j).irs[q]) == Inert(c.irs[q])
  {
    var c1 := Jump2Cleared(c, j);
    UnjumpInert(c, j);
    assert Jump2Placed(c, j).irs == c1.irs[j := Jump2Placed(c, j).irs[j]];
  }

  /**
   * `hole_elim_label`: no jump targets the first label any more; each jump that did now
   * targets the second, which control reaches at the same instruction since the first
   * label stood right before it; every other label stays where it was, and every
   * landing is unchanged.
   */
  lemma MergeSound(c: Listing, j: nat)
    requires Ok(c) && MergeFits(c.irs, j)
    ensures var r := MergeLabels(c, j);
      var l0, l1 := c.irs[j].lbl, c.irs[j + 1].lbl;
      l0 != l1 && r.irs[j] == Nop &&
      JumpsTo(r.irs, l0) == {} &&
      (forall q | 0 <= q < |c.irs| :: (r.irs[q] == c.irs[q] ||
         (q == j && r.irs[q] == Nop) ||
         (c.irs[q].IsJump() && c.irs[q].target == l0 && r.irs[q] == c.irs[q].(target := l1)))) &&
      FindLabel(c.irs, l0) == Some(j) && FindLabel(r.irs, l1) == Some(j + 1) &&
      Landing(c.irs, j) == Landing(c.irs, j + 1) &&
      (forall m | m != l0 :: FindLabel(r.irs, m) == FindLabel(c.irs, m)) &&
      LandsSame(c.irs, r.irs)
  {
    MergeShape(c, j);
    MergeEmptiesLabel(c, j);
    MergeFinds(c, j);
    MergeInert(c, j);
  }

  /** Merging puts a `Nop` where the first label was and retargets only jumps to it. */
  lemma MergeShape(c: Listing, j: nat)
    requires Ok(c) && MergeFits(c.irs, j)
    ensures var r := MergeLabels(c, j);
      var l0, l1 := c.irs[j].lbl, c.irs[j + 1].lbl;
      l0 != l1 && r.irs[j] == Nop &&
      (forall q | 0 <= q < |c.irs| :: (r.irs[q] == c.irs[q] ||
         (q == j && r.irs[q] == Nop) ||
         (c.irs[q].IsJump() && c.irs[q].target == l0 && r.irs[q] == c.irs[q].(target := l1))))
  {
    var c1 := Merged(c, j);
    var r := MergeLabels(c, j);
    assert r.irs == c1.irs[j := Nop];
    forall q | 0 <= q < |c.irs| && q != j
      ensures r.irs[q] == c1.irs[q]
    {
    }
  }

  lemma MergeEmptiesLabel(c: Listing, j: nat)
    requires Ok(c) && MergeFits(c.irs, j)
    ensures JumpsTo(MergeLabels(c, j).irs, c.irs[j].lbl) == {}
  {
    var l0, l1 := c.irs[j].lbl, c.irs[j + 1].lbl;
    var r := MergeLabels(c, j);
    var c1 := Merged(c, j);
    RetargetCovers(c, c.labels[l0].ins, l0, l1);
    forall q | 0 <= q < |r.irs| && r.irs[q].IsJump() ensures r.irs[q].target != l0 {
      assert c1.irs[q] == r.irs[q];
      if c.irs[q].IsJump() && c.irs[q].target == l0 {
        assert c.irs[q].jid in c.labels[l0].ins;
      }
    }
  }

  lemma MergeFinds(c: Listing, j: nat)
    requires Ok(c) && MergeFits(c.irs, j)
    ensures var r := MergeLabels(c, j);
      var l0, l1 := c.irs[j].lbl, c.irs[j + 1].lbl;
      FindLabel(c.irs, l0) == Some(j) && FindLabel(r.irs, l1) == Some(j + 1) &&
      (forall m | m != l0 :: FindLabel(r.irs, m) == FindLabel(c.irs, m))
  {
    var l0, l1 := c.irs[j].lbl, c.irs[j + 1].lbl;
    var r := MergeLabels(c, j);
    MergeKeepsLabels(c, j);
    FoundAt(c.irs, l0, j);
    FoundAt(r.irs, l1, j + 1);
    forall m | m != l0 ensures FindLabel(r.irs, m) == FindLabel(c.irs, m) {
      FoundAlike(c.irs, r.irs, m);
    }
  }

  /** Merging keeps every label but the first where it was. */
  lemma MergeKeepsLabels(c: Listing, j: nat)
    requires Ok(c) && MergeFits(c.irs, j)
    ensures var r := MergeLabels(c, j);
      r.irs[j + 1] == c.irs[j + 1] && LabelsUnique(r.irs) &&
      forall q, m | 0 <= q < |c.irs| && m != c.irs[j].lbl :: (r.irs[q] == Label(m)) == (c.irs[q] == Label(m))
  {
    var c1 := Merged(c, j);
    assert MergeLabels(c, j).irs == c1.irs[j := Nop];
  }

  lemma MergeInert(c: Listing, j: nat)
    requires Ok(c) && MergeFits(c.irs, j)
    ensures LandsSame(c.irs, MergeLabels(c, j).irs)
  {
    var r := MergeLabels(c, j);
    assert SameInert(c.irs, r.irs);
    SameInertLands(c.irs, r.irs);
  }

  /** Every jump to l0 whose identity is in `ins` targets l1 after the retargeting. */
  lemma {:induction false} RetargetCovers(c: Listing, ins: seq<nat>, l0: nat, l1: nat)
    requires Ok(c) && l1 in c.labels && l0 != l1
    ensures var r := RetargetAll(c, ins, l0, l1);
      forall q | 0 <= q < |c.irs| && c.irs[q].IsJump() && c.irs[q].target == l0 && c.irs[q].jid in ins ::
        r.irs[q] == c.irs[q].(target := l1)
    decreases |ins|
  {
    if |ins| > 0 {
      var init, jid := ins[..|ins| - 1], ins[|ins| - 1];
      assert ins == init + [jid];
      var c1 := RetargetAll(c, init, l0, l1);
      RetargetCovers(c, init, l0, l1);
      var r := RetargetOne(c1, jid, l0, l1);
      assert r == RetargetAll(c, ins, l0, l1);
      forall q | 0 <= q < |c.irs| && c.irs[q].IsJump() && c.irs[q].target == l0 && c.irs[q].jid in ins
        ensures r.irs[q] == c.irs[q].(target := l1)
      {
        if c.irs[q].jid in init {
          assert c1.irs[q] == c.irs[q].(target := l1);
        } else {
          assert c.irs[q].jid == jid;
          assert c1.irs[q] == c.irs[q];
          var f := FindJump(c1.irs, jid);
          assert f.Some?;
          assert f.value == q;
        }
      }
    }
  }

  /* ------------------------------------------------------------------ */
  /* The windows on a graph                                              */
  /* ------------------------------------------------------------------ */

  /** `hole_constant` on the graph's position p. */
  method HoleConstantAt(cfg: Cfg, p: nat)
    requires cfg.Valid() && p < |cfg.irs|
    modifies cfg
    ensures cfg.Valid() && ListingOf(cfg) == HoleConstant(old(ListingOf(cfg)), p)
    ensures cfg.exprMap == old(cfg.exprMap) && cfg.Shape() == old(cfg.Shape())
  {
    var x := cfg.irs[p];
    if x.Arth? {
      cfg.ReplacePlain(p, HoleArth(x.lhs, x.opr1, x.opr2, x.op));
    } else if x.Branch? {
      FoldBranchAt(cfg, p);
    }
  }

  /** `hole_constant` on the graph's branch at p. */
  method FoldBranchAt(cfg: Cfg, p: nat)
    requires cfg.Valid() && p < |cfg.irs| && cfg.irs[p].Branch?
    modifies cfg
    ensures cfg.Valid() && ListingOf(cfg) == FoldBranch(old(ListingOf(cfg)), p)
    ensures cfg.exprMap == old(cfg.exprMap) && cfg.Shape() == old(cfg.Shape())
  {
    var x := cfg.irs[p];
    match HoleBranch(x.opr1, x.opr2, x.rel) {
      case Keep(a, b, rel) =>
        cfg.ReplaceJump(p, Branch(a, b, rel, x.target, x.jid));
      case Jump =>
        var _ := cfg.BranchToGoto(p);
      case Drop =>
        cfg.RemoveBranchGoto(p);
    }
  }

  /** `hole_elim_jump1` on the graph's window at j. */
  method ElimJump1At(cfg: Cfg, j: nat)
    requires cfg.Valid() && j + 2 <= |cfg.irs|
    modifies cfg
    ensures cfg.Valid() && ListingOf(cfg) == Jump1(old(ListingOf(cfg)), j)
    ensures cfg.exprMap == old(cfg.exprMap) && cfg.Shape() == old(cfg.Shape())
  {
    if cfg.irs[j].Goto? && cfg.irs[j + 1] == Label(cfg.irs[j].target) {
      cfg.RemoveBranchGoto(j);
    }
  }

  /** `hole_elim_jump2` on the graph's window at j. */
  method ElimJump2At(cfg: Cfg, j: nat)
    requires cfg.Valid() && j + 3 <= |cfg.irs|
    modifies cfg
    ensures cfg.Valid() && ListingOf(cfg) == Jump2(old(ListingOf(cfg)), j)
    ensures cfg.exprMap == old(cfg.exprMap) && cfg.Shape() == old(cfg.Shape())
  {
    if Jump2Fits(cfg.irs, j) {
      ghost var c := ListingOf(cfg);
      var x, g := cfg.irs[j], cfg.irs[j + 1];
      cfg.RemoveBranchGoto(j);
      assert ListingOf(cfg) == Jump2Cleared(c, j);
      var _ := cfg.PlaceJump(j, Inverted(x, g));
      assert ListingOf(cfg) == Jump2Placed(c, j);
      cfg.RemoveBranchGoto(j + 1);
    }
  }

  /** `hole_elim_label` on the graph's window at j. */
  method MergeLabelsAt(cfg: Cfg, j: nat)
    requires cfg.Valid() && j + 2 <= |cfg.irs|
    modifies cfg
    ensures cfg.Valid() && ListingOf(cfg) == MergeLabels(old(ListingOf(cfg)), j)
    ensures cfg.exprMap == old(cfg.exprMap) && cfg.Shape() == old(cfg.Shape())
  {
    if cfg.irs[j].Label? && cfg.irs[j + 1].Label? {
      ghost var c := ListingOf(cfg);
      var l0, l1 := cfg.irs[j].lbl, cfg.irs[j + 1].lbl;
      assert l0 != l1 && l1 in cfg.labels && l0 in cfg.labels;
      var ins := cfg.labels[l0].ins;
      for k := 0 to |ins|
        invariant cfg.Valid() && ListingOf(cfg) == RetargetAll(c, ins[..k], l0, l1)
        invariant cfg.exprMap == old(cfg.exprMap) && cfg.Shape() == old(cfg.Shape())
      {
        RetargetPrefix(c, ins, k, l0, l1);
        RetargetOneAt(cfg, ins[k], l0, l1);
      }
      assert ins[..|ins|] == ins;
      assert ListingOf(cfg) == Merged(c, j);
      cfg.LabelToNop(j);
    }
  }

  /** One more identity retargeted extends the prefix by one. */
  lemma RetargetPrefix(c: Listing, ins: seq<nat>, k: nat, l0: nat, l1: nat)
    requires Ok(c) && l1 in c.labels && l0 != l1 && k < |ins|
    ensures RetargetAll(c, ins[..k + 1], l0, l1) == RetargetOne(RetargetAll(c, ins[..k], l0, l1), ins[k], l0, l1)
  {
    assert ins[..k + 1][..k] == ins[..k];
  }

  /** The jump recorded as `jid`, retargeted from l0 to l1 in the graph. */
  method RetargetOneAt(cfg: Cfg, jid: nat, l0: nat, l1: nat)
    requires cfg.Valid() && l1 in cfg.labels && l0 != l1
    modifies cfg
    ensures cfg.Valid() && ListingOf(cfg) == RetargetOne(old(ListingOf(cfg)), jid, l0, l1)
    ensures cfg.exprMap == old(cfg.exprMap) && cfg.Shape() == old(cfg.Shape())
  {
    var f := FindJump(cfg.irs, jid);
    if f.Some? && cfg.irs[f.value].target == l0 {
      cfg.Retarget(f.value, l1);
    }
  }

  /* ------------------------------------------------------------------ */
  /* Sliding the windows                                                 */
  /* ------------------------------------------------------------------ */

  /** The four rewrites, in the order `ir_hole_opt` applies them. */
  datatype Hole = Constant | ElimJump1 | ElimJump2 | ElimLabel

  /** The window width of a rewrite. */
  function Width(h: Hole): (n: nat)
    ensures 1 <= n <= 3
  {
    match h
    case Constant => 1
    case ElimJump1 => 2
    case ElimJump2 => 3
    case ElimLabel => 2
  }

  /** One rewrite on the window at j. */
  function Apply(c: Listing, h: Hole, j: nat): (r: Listing)
    requires Ok(c) && j + Width(h) <= |c.irs|
    ensures Ok(r) && |r.irs| == |c.irs| && r.labels.Keys == c.labels.Keys
  {
    match h
    case Constant => HoleConstant(c, j)
    case ElimJump1 => Jump1(c, j)
    case ElimJump2 => Jump2(c, j)
    case ElimLabel => MergeLabels(c, j)
  }

  /** The windows at 0, 1, ..., k - 1, in that order. */
  function SweepTo(c: Listing, h: Hole, k: nat): (r: Listing)
    requires Ok(c) && k + Width(h) <= |c.irs| + 1
    ensures Ok(r) && |r.irs| == |c.irs| && r.labels.Keys == c.labels.Keys
  {
    if k == 0 then c else Apply(SweepTo(c, h, k - 1), h, k - 1)
  }

  /** Every window that fits: positions j with j + n <= size. */
  function Sweep(c: Listing, h: Hole): (r: Listing)
    requires Ok(c)
    ensures Ok(r) && |r.irs| == |c.irs| && r.labels.Keys == c.labels.Keys
  {
    if |c.irs| < Width(h) then c else SweepTo(c, h, |c.irs| - Width(h) + 1)
  }

  /** One rewrite on the graph's window at j. */
  method ApplyAt(cfg: Cfg, h: Hole, j: nat)
    requires cfg.Valid() && j + Width(h) <= |cfg.irs|
    modifies cfg
    ensures cfg.Valid() && ListingOf(cfg) == Apply(old(ListingOf(cfg)), h, j)
    ensures cfg.exprMap == old(cfg.exprMap) && cfg.Shape() == old(cfg.Shape())
  {
    match h {
      case Constant => HoleConstantAt(cfg, j);
      case ElimJump1 => ElimJump1At(cfg, j);
      case ElimJump2 => ElimJump2At(cfg, j);
      case ElimLabel => MergeLabelsAt(cfg, j);
    }
  }

  /** `ir_hole` on one graph: the window slides over the whole list. */
  method SweepCfg(cfg: Cfg, h: Hole)
    requires cfg.Valid()
    modifies cfg
    ensures cfg.Valid() && ListingOf(cfg) == Sweep(old(ListingOf(cfg)), h)
    ensures cfg.exprMap == old(cfg.exprMap) && cfg.Shape() == old(cfg.Shape())
  {
    ghost var c := ListingOf(cfg);
    var n := Width(h);
    if |cfg.irs| < n {
      return;
    }
    var j := 0;
    while j + n <= |cfg.irs|
      invariant cfg.Valid() && |cfg.irs| == |c.irs|
      invariant j + n <= |c.irs| + 1
      invariant ListingOf(cfg) == SweepTo(c, h, j)
      invariant cfg.exprMap == old(cfg.exprMap) && cfg.Shape() == old(cfg.Shape())
      decreases |cfg.irs| - j
    {
      ghost var before := ListingOf(cfg);
      ApplyAt(cfg, h, j);
      assert ListingOf(cfg) == Apply(before, h, j) == SweepTo(c, h, j + 1);
      j := j + 1;
    }
  }

  /** The listings of the graphs, in order. */
  ghost function ListingsOf(cfgs: seq<Cfg>): (r: seq<Listing>)
    reads cfgs
    ensures |r| == |cfgs| && forall i | 0 <= i < |cfgs| :: r[i] == ListingOf(cfgs[i])
  {
    if |cfgs| == 0 then [] else ListingsOf(cfgs[..|cfgs| - 1]) + [ListingOf(cfgs[|cfgs| - 1])]
  }

  /** What `ir_hole` leaves in one graph: its listing swept by h if the graph is
      reachable, and untouched otherwise. */
  ghost function SweptIf(c: Listing, reachable: bool, h: Hole): (r: Listing)
    requires Ok(c)
    ensures Ok(r)
  {
    if reachable then Sweep(c, h) else c
  }

  /** The graphs hold the listings `c0`, each swept by h where the graph is reachable. */
  ghost predicate Swept(cfgs: seq<Cfg>, c0: seq<Listing>, h: Hole)
    reads cfgs
  {
    |c0| == |cfgs| &&
    forall i | 0 <= i < |cfgs| :: Ok(c0[i]) && ListingOf(cfgs[i]) == SweptIf(c0[i], cfgs[i].reachable, h)
  }

  /** `ir_hole(f, n)`: the window slides over every reachable function. */
  method HoleProgram(prog: Program, h: Hole)
    requires prog.Valid()
    modifies prog.cfgs
    ensures prog.Valid()
    ensures forall i | 0 <= i < |prog.cfgs| :: (Ok(old(ListingOf(prog.cfgs[i]))) &&
      ListingOf(prog.cfgs[i]) == SweptIf(old(ListingOf(prog.cfgs[i])), prog.cfgs[i].reachable, h))
    ensures forall i | 0 <= i < |prog.cfgs| :: (prog.cfgs[i].Shape() == old(prog.cfgs[i].Shape()) &&
      prog.cfgs[i].exprMap == old(prog.cfgs[i].exprMap))
  {
    ghost var c0 := ListingsOf(prog.cfgs);
    SweepCfgs(prog.cfgs, h, c0);
    assert forall k | 0 <= k < |prog.cfgs| :: prog.cfgs[k].labels.Keys == c0[k].labels.Keys;
  }

  /** The loop of `ir_hole` over the graphs, in order. */
  method SweepCfgs(cfgs: seq<Cfg>, h: Hole, ghost c0: seq<Listing>)
    requires |c0| == |cfgs| && forall a, b | 0 <= a < b < |cfgs| :: cfgs[a] != cfgs[b]
    requires forall k | 0 <= k < |cfgs| :: cfgs[k].Valid() && ListingOf(cfgs[k]) == c0[k]
    modifies cfgs
    ensures Swept(cfgs, c0, h)
    ensures forall k | 0 <= k < |cfgs| :: cfgs[k].Valid()
    ensures forall k | 0 <= k < |cfgs| :: cfgs[k].Shape() == old(cfgs[k].Shape())
    ensures forall k | 0 <= k < |cfgs| :: cfgs[k].exprMap == old(cfgs[k].exprMap)
  {
    ghost var shapes := seq(|cfgs|, k requires 0 <= k < |cfgs| reads cfgs => cfgs[k].Shape());
    ghost var maps := seq(|cfgs|, k requires 0 <= k < |cfgs| reads cfgs => cfgs[k].exprMap);
    for i := 0 to |cfgs|
      invariant forall k | 0 <= k < |cfgs| :: Progress(cfgs[k], c0[k], shapes[k], maps[k], h, k < i)
    {
      if cfgs[i].reachable {
        SweepCfg(cfgs[i], h);
      }
    }
  }

  /** One graph during the loop of `ir_hole`: valid, its blocks and expression map as
      they were, and its listing swept (if it is reachable) once the loop has passed it. */
  ghost predicate Progress(cfg: Cfg, c: Listing, shape: (seq<Block>, Block, seq<seq<nat>>, seq<seq<nat>>, seq<bool>, map<nat, nat>, bool),
                           em: map<Expr, nat>, h: Hole, passed: bool)
    reads cfg
  {
    cfg.Valid() && Ok(c) && cfg.Shape() == shape && cfg.exprMap == em &&
    ListingOf(cfg) == (if passed then SweptIf(c, cfg.reachable, h) else c)
  }

  /** The four sweeps of `ir_hole_opt`, in order, on one listing. */
  ghost function HoleOpt(c: Listing): (r: Listing)
    requires Ok(c)
    ensures Ok(r) && |r.irs| == |c.irs| && r.labels.Keys == c.labels.Keys
  {
    Sweep(Sweep(Sweep(Sweep(c, Constant), ElimJump1), ElimJump2), ElimLabel)
  }

  /** `ir_hole_opt`: constant folding, then the goto, branch and label windows, each over
      every reachable function. */
  method IrHoleOpt(prog: Program)
    requires prog.Valid()
    modifies prog.cfgs
    ensures prog.Valid()
    ensures forall i | 0 <= i < |prog.cfgs| :: prog.cfgs[i].Shape() == old(prog.cfgs[i].Shape())
    ensures forall i | 0 <= i < |prog.cfgs| :: (Ok(old(ListingOf(prog.cfgs[i]))) &&
      ListingOf(prog.cfgs[i]) == (if prog.cfgs[i].reachable then HoleOpt(old(ListingOf(prog.cfgs[i])))
                                  else old(ListingOf(prog.cfgs[i]))))
  {
    HoleProgram(prog, Constant);
    label folded:
    HoleProgram(prog, ElimJump1);
    label jumps1:
    HoleProgram(prog, ElimJump2);
    label jumps2:
    HoleProgram(prog, ElimLabel);
    forall i | 0 <= i < |prog.cfgs|
      ensures ListingOf(prog.cfgs[i]) == (if prog.cfgs[i].reachable then HoleOpt(old(ListingOf(prog.cfgs[i])))
                                          else old(ListingOf(prog.cfgs[i])))
    {
      var r := prog.cfgs[i].reachable;
      assert old@folded(ListingOf(prog.cfgs[i])) == SweptIf(old(ListingOf(prog.cfgs[i])), r, Constant);
      assert old@jumps1(ListingOf(prog.cfgs[i])) == SweptIf(old@folded(ListingOf(prog.cfgs[i])), r, ElimJump1);
      assert old@jumps2(ListingOf(prog.cfgs[i])) == SweptIf(old@jumps1(ListingOf(prog.cfgs[i])), r, ElimJump2);
    }
  }
}
