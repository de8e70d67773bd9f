/**
 * `ir_analyse_cfg` with a rewrite that works position by position: every
 * instruction of every reachable block is replaced, in place, by what the
 * rewrite makes of it at that position. The avexpr elimination and reverse
 * fold and the livevar dead-code elimination are of this kind.
 */
module Sweep {
  import opened IrTypes
  import opened IrProgram
  import opened CfgBuild
  import opened Passes

  /** y can take x's place in the list: it is x itself, or neither is a label, y relates
      to x, it ends a block exactly when x does, and a jump stays the same jump (identity
      and target) while anything else stays a non-jump. */
  predicate Fits(x: Instr, y: Instr)
  {
    x == y ||
    (!x.Label? && !y.Label? && Relates(x, y) && Terminator(y) == Terminator(x) &&
     (x.IsJump() ==> y.IsJump() && y.target == x.target && y.jid == x.jid) &&
     (!x.IsJump() ==> !y.IsJump()))
  }

  /** Position by position, irs1 fits where irs0 was. */
  predicate AllFit(irs0: seq<Instr>, irs1: seq<Instr>)
  {
    |irs1| == |irs0| && forall p | 0 <= p < |irs0| :: Fits(irs0[p], irs1[p])
  }

  /** Two rewrites in a row fit as one. */
  lemma FitsTrans(x0: Instr, x1: Instr, x2: Instr)
    requires Fits(x0, x1) && Fits(x1, x2)
    ensures Fits(x0, x2)
  {
  }

  lemma AllFitTrans(irs0: seq<Instr>, irs1: seq<Instr>, irs2: seq<Instr>)
    requires AllFit(irs0, irs1) && AllFit(irs1, irs2)
    ensures AllFit(irs0, irs2)
  {
    forall p | 0 <= p < |irs0| ensures Fits(irs0[p], irs2[p]) {
      FitsTrans(irs0[p], irs1[p], irs2[p]);
    }
  }

  /** Fitting lists relate, so the graph stays ready. */
  lemma AllFitRelates(irs0: seq<Instr>, irs1: seq<Instr>)
    requires AllFit(irs0, irs1)
    ensures AllRelate(irs0, irs1)
  {
    forall p | 0 <= p < |irs0| ensures Relates(irs0[p], irs1[p]) {
      assert Fits(irs0[p], irs1[p]);
    }
  }

  /** A rewrite of block b's position q: the instruction that replaces x there. */
  type Rewrite = (nat, nat, Instr) -> Instr

  /** Every result of the rewrite fits where it goes. */
  ghost predicate AlwaysFits(rw: Rewrite)
  {
    forall b: nat, q: nat, x: Instr :: Fits(x, rw(b, q, x))
  }

  /** The graph's labels, jump counter, expression table and shape are as given. */
  ghost predicate Kept(cfg: Cfg, labels: map<nat, LabelRec>, nextJid: nat, exprMap: map<Expr, nat>,
                       shape: (seq<Block>, Block, seq<seq<nat>>, seq<seq<nat>>, seq<bool>, map<nat, nat>, bool))
    reads cfg
  {
    cfg.Valid() && cfg.labels == labels && cfg.nextJid == nextJid && cfg.exprMap == exprMap && cfg.Shape() == shape
  }

  /** Overwrites position p with y. */
  method Place(cfg: Cfg, p: nat, y: Instr)
    requires cfg.Valid() && p < |cfg.irs| && !cfg.irs[p].Label? && Fits(cfg.irs[p], y)
    modifies cfg
    ensures cfg.Valid() && cfg.irs == old(cfg.irs)[p := y]
    ensures Kept(cfg, old(cfg.labels), old(cfg.nextJid), old(cfg.exprMap), old(cfg.Shape()))
  {
    if cfg.irs[p].IsJump() {
      cfg.ReplaceJump(p, y);
    } else {
      cfg.ReplacePlain(p, y);
    }
  }

  /** Positions [st, p) of irs hold the rewrite of irs0 for block b; the rest is irs0. */
  predicate SweptTo(irs0: seq<Instr>, irs: seq<Instr>, rw: Rewrite, b: nat, st: nat, p: nat)
  {
    |irs| == |irs0| && st <= p <= |irs0| &&
    (forall q | st <= q < p :: irs[q] == rw(b, q, irs0[q])) &&
    (forall q | 0 <= q < |irs| && !(st <= q < p) :: irs[q] == irs0[q])
  }

  /** The rewrite of one more position. */
  lemma SweptStep(irs0: seq<Instr>, irs: seq<Instr>, rw: Rewrite, b: nat, st: nat, p: nat)
    requires SweptTo(irs0, irs, rw, b, st, p) && p < |irs0|
    ensures SweptTo(irs0, irs[p := rw(b, p, irs[p])], rw, b, st, p + 1)
  {
  }

  /** The block loop of an `*_bb` rewrite: positions [st, ed) of block b, in order. The
      flag is raised when some instruction changes. */
  method SweepBlock(cfg: Cfg, rw: Rewrite, b: nat, st: nat, ed: nat) returns (changed: bool)
    requires cfg.Valid() && st <= ed <= |cfg.irs| && AlwaysFits(rw)
    requires forall q | st <= q < ed :: !cfg.irs[q].Label?
    modifies cfg
    ensures Kept(cfg, old(cfg.labels), old(cfg.nextJid), old(cfg.exprMap), old(cfg.Shape()))
    ensures SweptTo(old(cfg.irs), cfg.irs, rw, b, st, ed)
    ensures changed <==> cfg.irs != old(cfg.irs)
  {
    ghost var irs0 := cfg.irs;
    changed := false;
    for p := st to ed
      invariant Kept(cfg, old(cfg.labels), old(cfg.nextJid), old(cfg.exprMap), old(cfg.Shape()))
      invariant SweptTo(irs0, cfg.irs, rw, b, st, p)
      invariant changed <==> cfg.irs != irs0
    {
      var x := cfg.irs[p];
      var y := rw(b, p, x);
      assert Fits(x, y);
      SweptStep(irs0, cfg.irs, rw, b, st, p);
      ghost var before := cfg.irs;
      Place(cfg, p, y);
      if cfg.irs != irs0 && before == irs0 {
        assert cfg.irs[p] != irs0[p];
      }
      changed := changed || y != x;
    }
  }

  /** Reachable blocks below i hold the rewrite of irs0; everything else is irs0. */
  predicate SweptBlocks(irs0: seq<Instr>, irs: seq<Instr>, bbs: seq<Block>, reach: seq<bool>, rw: Rewrite, i: nat)
  {
    |irs| == |irs0| && i <= |bbs| <= |reach| && BlocksSound(irs0, bbs) &&
    (forall b, q | 0 <= b < i && reach[b] && bbs[b].start <= q < bbs[b].end :: irs[q] == rw(b, q, irs0[q])) &&
    (forall q | 0 <= q < |irs| && !Covered(bbs, reach, i, q) :: irs[q] == irs0[q])
  }

  /** Position q lies in a reachable block below i. */
  predicate Covered(bbs: seq<Block>, reach: seq<bool>, i: nat, q: nat)
    requires i <= |bbs| <= |reach|
  {
    exists b | 0 <= b < i :: reach[b] && bbs[b].start <= q < bbs[b].end
  }

  /** Rewriting reachable block i extends the sweep by one block. */
  lemma SweptBlocksStep(irs0: seq<Instr>, before: seq<Instr>, after: seq<Instr>, bbs: seq<Block>,
                        reach: seq<bool>, rw: Rewrite, i: nat)
    requires SweptBlocks(irs0, before, bbs, reach, rw, i) && i < |bbs| && reach[i]
    requires SweptTo(before, after, rw, i, bbs[i].start, bbs[i].end)
    ensures SweptBlocks(irs0, after, bbs, reach, rw, i + 1)
  {
    var st, ed := bbs[i].start, bbs[i].end;
    forall q | st <= q < ed ensures !Covered(bbs, reach, i, q) {
    }
    forall b, q | 0 <= b < i + 1 && reach[b] && bbs[b].start <= q < bbs[b].end
      ensures after[q] == rw(b, q, irs0[q])
    {
      if b < i {
        assert bbs[b].end <= st;
      }
    }
    forall q | 0 <= q < |after| && !Covered(bbs, reach, i + 1, q) ensures after[q] == irs0[q] {
      assert !(st <= q < ed);
      assert !Covered(bbs, reach, i, q);
    }
  }

  /** An unreachable block i is passed over. */
  lemma SweptBlocksSkip(irs0: seq<Instr>, irs: seq<Instr>, bbs: seq<Block>, reach: seq<bool>, rw: Rewrite, i: nat)
    requires SweptBlocks(irs0, irs, bbs, reach, rw, i) && i < |bbs| && !reach[i]
    ensures SweptBlocks(irs0, irs, bbs, reach, rw, i + 1)
  {
    forall q | 0 <= q < |irs| && !Covered(bbs, reach, i + 1, q) ensures irs[q] == irs0[q] {
      assert !Covered(bbs, reach, i, q);
    }
  }

  /** Block i is still what it was, so it holds no label. */
  lemma UnsweptNoLabel(irs0: seq<Instr>, irs: seq<Instr>, bbs: seq<Block>, reach: seq<bool>, rw: Rewrite, i: nat)
    requires SweptBlocks(irs0, irs, bbs, reach, rw, i) && i < |bbs|
    ensures forall q | bbs[i].start <= q < bbs[i].end :: !irs[q].Label?
  {
    forall q | bbs[i].start <= q < bbs[i].end ensures irs[q] == irs0[q] {
      assert !Covered(bbs, reach, i, q);
    }
  }

  /** A swept list fits the original, position by position. */
  lemma SweptFit(irs0: seq<Instr>, irs: seq<Instr>, bbs: seq<Block>, reach: seq<bool>, rw: Rewrite, i: nat)
    requires SweptBlocks(irs0, irs, bbs, reach, rw, i) && AlwaysFits(rw)
    ensures AllFit(irs0, irs)
  {
    forall q | 0 <= q < |irs0| ensures Fits(irs0[q], irs[q]) {
      if Covered(bbs, reach, i, q) {
        var b :| 0 <= b < i && reach[b] && bbs[b].start <= q < bbs[b].end;
        assert Fits(irs0[q], rw(b, q, irs0[q]));
      }
    }
  }

  /** One turn of the block loop: block i is rewritten when it is reachable. */
  method SweepNext(cfg: Cfg, rw: Rewrite, ghost irs0: seq<Instr>, bbs: seq<Block>, reach: seq<bool>, i: nat,
                   changed: bool) returns (changed': bool)
    requires cfg.Valid() && AlwaysFits(rw) && i < |bbs|
    requires SweptBlocks(irs0, cfg.irs, bbs, reach, rw, i) && (changed <==> cfg.irs != irs0)
    modifies cfg
    ensures Kept(cfg, old(cfg.labels), old(cfg.nextJid), old(cfg.exprMap), old(cfg.Shape()))
    ensures SweptBlocks(irs0, cfg.irs, bbs, reach, rw, i + 1) && (changed' <==> cfg.irs != irs0)
  {
    changed' := changed;
    if reach[i] {
      ghost var before := cfg.irs;
      UnsweptNoLabel(irs0, before, bbs, reach, rw, i);
      var c := SweepBlock(cfg, rw, i, bbs[i].start, bbs[i].end);
      SweptBlocksStep(irs0, before, cfg.irs, bbs, reach, rw, i);
      changed' := changed || c;
      if cfg.irs != irs0 && before == irs0 {
        assert c;
      }
    } else {
      SweptBlocksSkip(irs0, cfg.irs, bbs, reach, rw, i);
    }
  }

  /**
   * `ir_analyse_cfg` with a per-position rewrite: every reachable block is rewritten
   * in block order, and the rest of the list is left alone. The flag is raised when
   * some instruction changes.
   */
  method SweepCfg(cfg: Cfg, rw: Rewrite) returns (changed: bool)
    requires cfg.Valid() && BlocksSound(cfg.irs, cfg.bbs) && |cfg.bbs| <= |cfg.bbReach| && AlwaysFits(rw)
    modifies cfg
    ensures Kept(cfg, old(cfg.labels), old(cfg.nextJid), old(cfg.exprMap), old(cfg.Shape()))
    ensures SweptBlocks(old(cfg.irs), cfg.irs, cfg.bbs, cfg.bbReach, rw, |cfg.bbs|)
    ensures AllFit(old(cfg.irs), cfg.irs)
    ensures changed <==> cfg.irs != old(cfg.irs)
  {
    ghost var irs0 := cfg.irs;
    var bbs, reach := cfg.bbs, cfg.bbReach;
    changed := false;
    for i := 0 to |bbs|
      invariant Kept(cfg, old(cfg.labels), old(cfg.nextJid), old(cfg.exprMap), old(cfg.Shape()))
      invariant SweptBlocks(irs0, cfg.irs, bbs, reach, rw, i)
      invariant changed <==> cfg.irs != irs0
    {
      changed := SweepNext(cfg, rw, irs0, bbs, reach, i, changed);
    }
    SweptFit(irs0, cfg.irs, bbs, reach, rw, |bbs|);
  }
}
