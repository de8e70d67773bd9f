/**
 * Basic blocks and control-flow edges of a function, and the pruning of
 * what cannot be reached: inside a function from its entry block, and
 * across the program from `main` along calls.
 */
module CfgBuild {
  import opened Base
  import opened IrTypes
  import opened IrProgram
  import opened Reach

  /** An instruction that ends a block: a goto, a branch or a return. */
  predicate Terminator(x: Instr) { x.IsJump() || x.Ret? }

  /** The label placed just before position s, if any: the label that opens a block
      starting at s. */
  function OpenedBy(irs: seq<Instr>, s: nat): (r: Option<nat>)
    ensures r.Some? <==> 0 < s <= |irs| && irs[s - 1].Label?
    ensures r.Some? ==> irs[s - 1] == Label(r.value)
  {
    if 0 < s <= |irs| && irs[s - 1].Label? then Some(irs[s - 1].lbl) else None
  }

  /* ------------------------------------------------------------------ */
  /* The block partition                                                 */
  /* ------------------------------------------------------------------ */

  /**
   * Block ranges are non-empty, inside the list and in order; no jump, return
   * or label sits strictly inside a block, and no block ends with a label.
   * Later passes keep this (they only rewrite instructions in place).
   */
  predicate BlocksSound(irs: seq<Instr>, bbs: seq<Block>)
  {
    (forall b | 0 <= b < |bbs| :: bbs[b].start < bbs[b].end <= |irs|) &&
    (forall b1, b2 | 0 <= b1 < b2 < |bbs| :: bbs[b1].end <= bbs[b2].start) &&
    (forall b, p | 0 <= b < |bbs| && bbs[b].start <= p < bbs[b].end - 1 ::
       !Terminator(irs[p]) && !irs[p].Label?) &&
    (forall b | 0 <= b < |bbs| :: !irs[bbs[b].end - 1].Label?)
  }

  /** Each block is as long as it can be: it ends at the end of the list, at a
      terminator, or just before a label. */
  predicate Maximal(irs: seq<Instr>, bbs: seq<Block>)
  {
    forall b | 0 <= b < |bbs| && 0 < bbs[b].end <= |irs| ::
      bbs[b].end == |irs| || Terminator(irs[bbs[b].end - 1]) || irs[bbs[b].end].Label?
  }

  /** Every position below n that lies in no block holds a label. */
  predicate GapsAreLabels(irs: seq<Instr>, bbs: seq<Block>, n: nat)
    requires n <= |irs|
  {
    (forall p | 0 <= p < n && (|bbs| == 0 || p < bbs[0].start) :: irs[p].Label?) &&
    (forall b, p | 0 <= b < |bbs| - 1 && bbs[b].end <= p < bbs[b + 1].start && p < n :: irs[p].Label?) &&
    (forall p | 0 < |bbs| && bbs[|bbs| - 1].end <= p < n :: irs[p].Label?)
  }

  /** A block is opened by the label placed just before it, if there is one. */
  predicate BlockLabels(irs: seq<Instr>, bbs: seq<Block>)
  {
    forall b | 0 <= b < |bbs| :: bbs[b].lbl == OpenedBy(irs, bbs[b].start)
  }

  /** The label-to-block map (`label->bb`) holds exactly the labels that open a block or
      the exit, each mapped to that block (the exit is block `|bbs|`). */
  predicate LabelBlockOk(bbs: seq<Block>, exit: Block, lb: map<nat, nat>)
  {
    (forall b | 0 <= b < |bbs| && bbs[b].lbl.Some? ::
       bbs[b].lbl.value in lb && lb[bbs[b].lbl.value] == b) &&
    (exit.lbl.Some? ==> exit.lbl.value in lb && lb[exit.lbl.value] == |bbs|) &&
    (forall l | l in lb :: lb[l] <= |bbs| &&
       (if lb[l] < |bbs| then bbs[lb[l]].lbl == Some(l) else exit.lbl == Some(l)))
  }

  /** What `build_bb` produces: the maximal blocks, separated only by labels, with the
      exit block as the empty range at the end of the list. */
  predicate Partition(irs: seq<Instr>, bbs: seq<Block>, exit: Block, lb: map<nat, nat>)
  {
    BlocksSound(irs, bbs) && Maximal(irs, bbs) && GapsAreLabels(irs, bbs, |irs|) &&
    BlockLabels(irs, bbs) && exit == Block(OpenedBy(irs, |irs|), |irs|, |irs|) &&
    LabelBlockOk(bbs, exit, lb)
  }

  /** A label that opens the next block is not yet in the map: labels are placed once. */
  lemma NewLabelFresh(irs: seq<Instr>, bbs: seq<Block>, lb: map<nat, nat>, start: nat)
    requires LabelsUnique(irs) && BlocksSound(irs, bbs) && BlockLabels(irs, bbs)
    requires LabelBlockOk(bbs, Block(None, 0, 0), lb)
    requires forall b | 0 <= b < |bbs| :: bbs[b].end <= start
    requires 0 < start <= |irs| && irs[start - 1].Label?
    ensures irs[start - 1].lbl !in lb
  {
    forall l | l in lb
      ensures l != irs[start - 1].lbl
    {
      var b := lb[l];
      var q := bbs[b].start - 1;
      assert irs[q] == Label(l);
      assert q < start - 1;
    }
  }

  /** `add_bb`: appends a block, and points the label that opens it (if any) at it. */
  function AddBb(bbs: seq<Block>, lb: map<nat, nat>, opening: Option<nat>, start: nat, end: nat)
    : (r: (seq<Block>, map<nat, nat>))
    ensures r.0 == bbs + [Block(opening, start, end)]
    ensures opening.Some? ==> r.1 == lb[opening.value := |bbs|]
    ensures opening.None? ==> r.1 == lb
  {
    (bbs + [Block(opening, start, end)], if opening.Some? then lb[opening.value := |bbs|] else lb)
  }

  /** The state of `build_bb` after scanning the first j instructions: the blocks so far
      partition the list up to `start`, and [start, j) is an open block in progress. */
  ghost predicate Scanned(irs: seq<Instr>, j: nat, bbs: seq<Block>, lb: map<nat, nat>, opening: Option<nat>, start: nat)
  {
    start <= j <= |irs| && opening == OpenedBy(irs, start) &&
    BlocksSound(irs, bbs) && Maximal(irs, bbs) && BlockLabels(irs, bbs) &&
    (forall b | 0 <= b < |bbs| :: bbs[b].end <= start) &&
    GapsAreLabels(irs, bbs, start) &&
    (forall p | start <= p < j :: !Terminator(irs[p]) && !irs[p].Label?) &&
    LabelBlockOk(bbs, Block(None, 0, 0), lb) &&
    (0 < start ==> |bbs| > 0)
  }

  lemma CloseSound(irs: seq<Instr>, bbs: seq<Block>, x: Block)
    requires BlocksSound(irs, bbs) && (forall b | 0 <= b < |bbs| :: bbs[b].end <= x.start)
    requires x.start < x.end <= |irs| && !irs[x.end - 1].Label?
    requires forall p | x.start <= p < x.end - 1 :: !Terminator(irs[p]) && !irs[p].Label?
    ensures BlocksSound(irs, bbs + [x])
  {
    var bbs' := bbs + [x];
    assert forall b | 0 <= b < |bbs| :: bbs'[b] == bbs[b];
  }

  lemma CloseMaximal(irs: seq<Instr>, bbs: seq<Block>, x: Block)
    requires Maximal(irs, bbs)
    requires x.end == |irs| || (0 < x.end < |irs| && (Terminator(irs[x.end - 1]) || irs[x.end].Label?))
    ensures Maximal(irs, bbs + [x])
  {
    var bbs' := bbs + [x];
    assert forall b | 0 <= b < |bbs| :: bbs'[b] == bbs[b];
  }

  lemma CloseGaps(irs: seq<Instr>, bbs: seq<Block>, x: Block)
    requires x.start <= x.end <= |irs| && GapsAreLabels(irs, bbs, x.start)
    requires BlocksSound(irs, bbs) && forall b | 0 <= b < |bbs| :: bbs[b].end <= x.start
    ensures GapsAreLabels(irs, bbs + [x], x.end)
  {
    var bbs' := bbs + [x];
    assert forall b | 0 <= b < |bbs| :: bbs'[b] == bbs[b];
    forall b, p | 0 <= b < |bbs'| - 1 && bbs'[b].end <= p < bbs'[b + 1].start && p < x.end
      ensures irs[p].Label?
    {
      if b == |bbs| - 1 {
        assert bbs[|bbs| - 1].end <= p < x.start;
      } else {
        assert bbs'[b + 1] == bbs[b + 1];
      }
    }
  }

  lemma CloseLabels(irs: seq<Instr>, bbs: seq<Block>, lb: map<nat, nat>, x: Block)
    requires LabelsUnique(irs) && BlocksSound(irs, bbs) && BlockLabels(irs, bbs)
    requires LabelBlockOk(bbs, Block(None, 0, 0), lb)
    requires forall b | 0 <= b < |bbs| :: bbs[b].end <= x.start
    requires x.start <= |irs| && x.lbl == OpenedBy(irs, x.start)
    ensures var r := AddBb(bbs, lb, x.lbl, x.start, x.end);
      BlockLabels(irs, r.0) && LabelBlockOk(r.0, Block(None, 0, 0), r.1)
  {
    if x.lbl.Some? {
      NewLabelFresh(irs, bbs, lb, x.start);
    }
    var r := AddBb(bbs, lb, x.lbl, x.start, x.end);
    assert forall b | 0 <= b < |bbs| :: r.0[b] == bbs[b];
    AppendLabelBlock(bbs, lb, x);
  }

  /** A block opened by a label not yet in the map joins it under its new number. */
  lemma AppendLabelBlock(bbs: seq<Block>, lb: map<nat, nat>, x: Block)
    requires LabelBlockOk(bbs, Block(None, 0, 0), lb)
    requires x.lbl.Some? ==> x.lbl.value !in lb
    ensures var r := AddBb(bbs, lb, x.lbl, x.start, x.end);
      LabelBlockOk(r.0, Block(None, 0, 0), r.1)
  {
    var r := AddBb(bbs, lb, x.lbl, x.start, x.end);
    assert forall b | 0 <= b < |bbs| :: r.0[b] == bbs[b];
  }

  /** Closing the block in progress as [start, end) keeps the partition, now up to `end`. */
  lemma CloseBlock(irs: seq<Instr>, j: nat, bbs: seq<Block>, lb: map<nat, nat>, opening: Option<nat>,
                   start: nat, end: nat)
    requires LabelsUnique(irs) && Scanned(irs, j, bbs, lb, opening, start)
    requires end <= j + 1 && start < end <= |irs| && !irs[end - 1].Label?
    requires end == |irs| || Terminator(irs[end - 1]) || irs[end].Label?
    ensures var r := AddBb(bbs, lb, opening, start, end);
      BlocksSound(irs, r.0) && Maximal(irs, r.0) && BlockLabels(irs, r.0) &&
      (forall b | 0 <= b < |r.0| :: r.0[b].end <= end) && GapsAreLabels(irs, r.0, end) &&
      LabelBlockOk(r.0, Block(None, 0, 0), r.1) && |r.0| > 0
  {
    var x := Block(opening, start, end);
    CloseSound(irs, bbs, x);
    CloseMaximal(irs, bbs, x);
    CloseGaps(irs, bbs, x);
    CloseLabels(irs, bbs, lb, x);
  }

  /** Scanning a goto, branch or return closes the block in progress after it. */
  lemma ScanTerminator(irs: seq<Instr>, j: nat, bbs: seq<Block>, lb: map<nat, nat>, opening: Option<nat>, start: nat)
    requires LabelsUnique(irs) && Scanned(irs, j, bbs, lb, opening, start) && j < |irs| && Terminator(irs[j])
    ensures var r := AddBb(bbs, lb, opening, start, j + 1);
      Scanned(irs, j + 1, r.0, r.1, None, j + 1)
  {
    CloseBlock(irs, j, bbs, lb, opening, start, j + 1);
  }

  /** Scanning a label closes the non-empty block in progress before it and opens the next. */
  lemma ScanLabelClose(irs: seq<Instr>, j: nat, bbs: seq<Block>, lb: map<nat, nat>, opening: Option<nat>, start: nat)
    requires LabelsUnique(irs) && Scanned(irs, j, bbs, lb, opening, start) && j < |irs| && irs[j].Label?
    requires start < j
    ensures var r := AddBb(bbs, lb, opening, start, j);
      Scanned(irs, j + 1, r.0, r.1, Some(irs[j].lbl), j + 1)
  {
    CloseBlock(irs, j, bbs, lb, opening, start, j);
    var r := AddBb(bbs, lb, opening, start, j);
    OpenAfterLabel(irs, j, r.0, r.1);
  }

  /** Scanning a label with no block in progress opens the next one. */
  lemma ScanLabelOpen(irs: seq<Instr>, j: nat, bbs: seq<Block>, lb: map<nat, nat>, opening: Option<nat>)
    requires Scanned(irs, j, bbs, lb, opening, j) && j < |irs| && irs[j].Label? && !irs[0].Label?
    ensures Scanned(irs, j + 1, bbs, lb, Some(irs[j].lbl), j + 1)
  {
    OpenAfterLabel(irs, j, bbs, lb);
  }

  /** With every block closed by position j, the label at j opens the block in progress. */
  lemma OpenAfterLabel(irs: seq<Instr>, j: nat, bbs: seq<Block>, lb: map<nat, nat>)
    requires j < |irs| && irs[j].Label? && |bbs| > 0
    requires BlocksSound(irs, bbs) && Maximal(irs, bbs) && BlockLabels(irs, bbs)
    requires (forall b | 0 <= b < |bbs| :: bbs[b].end <= j) && GapsAreLabels(irs, bbs, j)
    requires LabelBlockOk(bbs, Block(None, 0, 0), lb)
    ensures Scanned(irs, j + 1, bbs, lb, Some(irs[j].lbl), j + 1)
  {
    forall b, p | 0 <= b < |bbs| - 1 && bbs[b].end <= p < bbs[b + 1].start && p < j + 1
      ensures irs[p].Label?
    {
      assert bbs[b + 1].start < bbs[b + 1].end <= j;
    }
  }

  /** The end of the scan: the exit block, opened by a trailing label, completes the
      partition. */
  lemma ScanExit(irs: seq<Instr>, bbs: seq<Block>, lb: map<nat, nat>, opening: Option<nat>)
    requires LabelsUnique(irs) && BlocksSound(irs, bbs) && Maximal(irs, bbs) && BlockLabels(irs, bbs)
    requires GapsAreLabels(irs, bbs, |irs|) && LabelBlockOk(bbs, Block(None, 0, 0), lb)
    requires forall b | 0 <= b < |bbs| :: bbs[b].end <= |irs|
    requires opening == OpenedBy(irs, |irs|)
    requires opening.Some? ==> forall b | 0 <= b < |bbs| :: bbs[b].end < |irs|
    ensures Partition(irs, bbs, Block(opening, |irs|, |irs|),
                      if opening.Some? then lb[opening.value := |bbs|] else lb)
  {
    if opening.Some? {
      forall b | 0 <= b < |bbs| ensures bbs[b].end <= |irs| - 1 { }
      NewLabelFresh(irs, bbs, lb, |irs|);
    }
    ExitLabelOk(bbs, lb, opening, |irs|);
  }

  /** The exit block, opened by a label not yet placed, joins the label-to-block map. */
  lemma ExitLabelOk(bbs: seq<Block>, lb: map<nat, nat>, opening: Option<nat>, n: nat)
    requires LabelBlockOk(bbs, Block(None, 0, 0), lb)
    requires opening.Some? ==> opening.value !in lb
    ensures LabelBlockOk(bbs, Block(opening, n, n), if opening.Some? then lb[opening.value := |bbs|] else lb)
  {
  }

  /** Scanning any other instruction extends the block in progress. */
  lemma ScanOther(irs: seq<Instr>, j: nat, bbs: seq<Block>, lb: map<nat, nat>, opening: Option<nat>, start: nat)
    requires Scanned(irs, j, bbs, lb, opening, start) && j < |irs| && !Terminator(irs[j]) && !irs[j].Label?
    ensures Scanned(irs, j + 1, bbs, lb, opening, start)
  {
  }

  /** After the scan, the block in progress (if not empty) is the last block, and the
      exit block completes the partition. */
  lemma ScanEnd(irs: seq<Instr>, bbs: seq<Block>, lb: map<nat, nat>, opening: Option<nat>, start: nat)
    requires LabelsUnique(irs) && Scanned(irs, |irs|, bbs, lb, opening, start)
    requires 0 < |irs| && !irs[0].Label?
    ensures var r := if start < |irs| then AddBb(bbs, lb, opening, start, |irs|) else (bbs, lb);
      var o := if start < |irs| then None else opening;
      |r.0| > 0 && Partition(irs, r.0, Block(o, |irs|, |irs|), if o.Some? then r.1[o.value := |r.0|] else r.1)
  {
    if start < |irs| {
      CloseBlock(irs, |irs|, bbs, lb, opening, start, |irs|);
      var r := AddBb(bbs, lb, opening, start, |irs|);
      assert OpenedBy(irs, |irs|) == None;
      ScanExit(irs, r.0, r.1, None);
    } else {
      if opening.Some? {
        forall b | 0 <= b < |bbs| ensures bbs[b].end < |irs| {
          assert !irs[bbs[b].end - 1].Label?;
        }
      }
      ScanExit(irs, bbs, lb, opening);
    }
  }

  /**
   * `build_bb`: splits the list into blocks. A goto, branch or return closes the
   * block it ends; a label closes the block before it (if that is not empty) and
   * opens the next one; what is left at the end is the last block. The exit block
   * is the empty range at the end, opened by a trailing label if there is one.
   */
  method BuildBb(cfg: Cfg)
    requires cfg.Valid() && |cfg.irs| > 0 && cfg.irs[0].Func?
    modifies cfg
    ensures cfg.irs == old(cfg.irs) && cfg.labels == old(cfg.labels) && cfg.nextJid == old(cfg.nextJid)
    ensures cfg.exprMap == old(cfg.exprMap) && cfg.reachable == old(cfg.reachable) && cfg.Valid()
    ensures |cfg.bbs| > 0 && Partition(cfg.irs, cfg.bbs, cfg.exit, cfg.labelBlock)
  {
    var irs := cfg.irs;
    var bbs, exit, lb := ScanBlocks(irs);
    cfg.bbs, cfg.exit, cfg.labelBlock := bbs, exit, lb;
    assert cfg.irs == irs && cfg.bbs == bbs && cfg.exit == exit && cfg.labelBlock == lb;
  }

  /** The scan of `build_bb` over the instruction list. */
  method ScanBlocks(irs: seq<Instr>) returns (bbs: seq<Block>, exit: Block, lb: map<nat, nat>)
    requires LabelsUnique(irs) && |irs| > 0 && !irs[0].Label?
    ensures |bbs| > 0 && Partition(irs, bbs, exit, lb)
  {
    var opening, start;
    bbs, lb, opening, start := ScanAll(irs);
    ScanEnd(irs, bbs, lb, opening, start);
    if start < |irs| {
      var r := AddBb(bbs, lb, opening, start, |irs|);
      bbs, lb, opening := r.0, r.1, None;
    }
    if opening.Some? {
      lb := lb[opening.value := |bbs|];
    }
    exit := Block(opening, |irs|, |irs|);
  }

  /** The scan of `build_bb` over the whole list, before the last block is closed. */
  method ScanAll(irs: seq<Instr>) returns (bbs: seq<Block>, lb: map<nat, nat>, opening: Option<nat>, start: nat)
    requires LabelsUnique(irs) && |irs| > 0 && !irs[0].Label?
    ensures Scanned(irs, |irs|, bbs, lb, opening, start)
  {
    bbs := [];
    lb := map[];
    opening := None;
    start := 0;
    for j := 0 to |irs|
      invariant Scanned(irs, j, bbs, lb, opening, start)
    {
      bbs, lb, opening, start := ScanStep(irs, j, bbs, lb, opening, start);
    }
  }

  /** One position of the scan: a terminator closes the open block after itself, a label
      closes it before itself and opens a labelled one, anything else extends it. */
  method ScanStep(irs: seq<Instr>, j: nat, bbs: seq<Block>, lb: map<nat, nat>, opening: Option<nat>, start: nat)
    returns (bbs': seq<Block>, lb': map<nat, nat>, opening': Option<nat>, start': nat)
    requires LabelsUnique(irs) && j < |irs| && !irs[0].Label?
    requires Scanned(irs, j, bbs, lb, opening, start)
    ensures Scanned(irs, j + 1, bbs', lb', opening', start')
  {
    if Terminator(irs[j]) {
      bbs', lb' := CloseAfter(irs, j, bbs, lb, opening, start);
      opening', start' := None, j + 1;
    } else if irs[j].Label? {
      bbs', lb' := OpenAt(irs, j, bbs, lb, opening, start);
      opening', start' := Some(irs[j].lbl), j + 1;
    } else {
      ScanOther(irs, j, bbs, lb, opening, start);
      bbs', lb', opening', start' := bbs, lb, opening, start;
    }
  }

  /** A terminator at j ends the open block just after itself. */
  method CloseAfter(irs: seq<Instr>, j: nat, bbs: seq<Block>, lb: map<nat, nat>, opening: Option<nat>, start: nat)
    returns (bbs': seq<Block>, lb': map<nat, nat>)
    requires LabelsUnique(irs) && j < |irs| && Terminator(irs[j])
    requires Scanned(irs, j, bbs, lb, opening, start)
    ensures Scanned(irs, j + 1, bbs', lb', None, j + 1)
  {
    ScanTerminator(irs, j, bbs, lb, opening, start);
    var r := AddBb(bbs, lb, opening, start, j + 1);
    bbs', lb' := r.0, r.1;
  }

  /** A label at j ends a non-empty open block just before itself and opens its own. */
  method OpenAt(irs: seq<Instr>, j: nat, bbs: seq<Block>, lb: map<nat, nat>, opening: Option<nat>, start: nat)
    returns (bbs': seq<Block>, lb': map<nat, nat>)
    requires LabelsUnique(irs) && j < |irs| && irs[j].Label? && !irs[0].Label?
    requires Scanned(irs, j, bbs, lb, opening, start)
    ensures Scanned(irs, j + 1, bbs', lb', Some(irs[j].lbl), j + 1)
  {
    if start < j {
      ScanLabelClose(irs, j, bbs, lb, opening, start);
      var r := AddBb(bbs, lb, opening, start, j);
      bbs', lb' := r.0, r.1;
    } else {
      ScanLabelOpen(irs, j, bbs, lb, opening);
      bbs', lb' := bbs, lb;
    }
  }

  /** The step of `BlocksCover`: a non-label position at or after block k's start lies in
      block k or in a later one. */
  lemma {:induction false} CoveredFrom(irs: seq<Instr>, bbs: seq<Block>, p: nat, k: nat) returns (b: nat)
    requires BlocksSound(irs, bbs) && GapsAreLabels(irs, bbs, |irs|)
    requires p < |irs| && !irs[p].Label? && k < |bbs| && bbs[k].start <= p
    ensures b < |bbs| && bbs[b].start <= p < bbs[b].end
    decreases |bbs| - k
  {
    if p < bbs[k].end {
      b := k;
    } else {
      assert k + 1 < |bbs| && bbs[k + 1].start <= p;
      b := CoveredFrom(irs, bbs, p, k + 1);
    }
  }

  /** The blocks cover every instruction that is not a label. */
  lemma BlocksCover(irs: seq<Instr>, bbs: seq<Block>, exit: Block, lb: map<nat, nat>, p: nat) returns (b: nat)
    requires Partition(irs, bbs, exit, lb) && p < |irs| && !irs[p].Label?
    ensures b < |bbs| && bbs[b].start <= p < bbs[b].end
  {
    assert |bbs| > 0 && bbs[0].start <= p;
    b := CoveredFrom(irs, bbs, p, 0);
  }

  /* ------------------------------------------------------------------ */
  /* Edges                                                               */
  /* ------------------------------------------------------------------ */

  /** What `build_cfg` needs: sound blocks, and every jump at the end of a block aims at a
      label that opens a block or the exit. */
  predicate EdgesReady(irs: seq<Instr>, bbs: seq<Block>, lb: map<nat, nat>)
  {
    BlocksSound(irs, bbs) &&
    (forall b | 0 <= b < |bbs| && irs[bbs[b].end - 1].IsJump() :: irs[bbs[b].end - 1].target in lb) &&
    (forall l | l in lb :: lb[l] <= |bbs|)
  }

  /**
   * The successors `build_cfg` links block i to, in order: a branch goes to its
   * target's block and then falls through, a goto only to its target's block, a
   * return to the exit, and any other last instruction falls through to the next
   * block if there is one (the last block then has no successor).
   */
  function Succs(irs: seq<Instr>, bbs: seq<Block>, lb: map<nat, nat>, i: nat): (r: seq<nat>)
    requires EdgesReady(irs, bbs, lb) && i < |bbs|
    ensures |r| <= 2 && forall c | c in r :: c <= |bbs|
    ensures var last := irs[bbs[i].end - 1];
      forall c | c in r :: c == i + 1 || (last.Ret? && c == |bbs|) || (last.IsJump() && c == lb[last.target])
    ensures var last := irs[bbs[i].end - 1];
      i + 1 < |bbs| && !last.Goto? && !last.Ret? ==> i + 1 in r
    ensures var last := irs[bbs[i].end - 1];
      last.IsJump() ==> lb[last.target] in r
    ensures var last := irs[bbs[i].end - 1];
      last.Ret? ==> r == [|bbs|]
  {
    var next: seq<nat> := if i + 1 < |bbs| then [i + 1] else [];
    var last := irs[bbs[i].end - 1];
    if last.Branch? then [lb[last.target]] + next
    else if last.Goto? then [lb[last.target]]
    else if last.Ret? then [|bbs|]
    else next
  }

  /** The edges of `build_cfg`: block i's out-list is `Succs(i)`, the exit has none, and
      each edge b -> c is entered in c's in-list, in the order the blocks are visited. */
  method Edges(irs: seq<Instr>, bbs: seq<Block>, lb: map<nat, nat>) returns (outs: seq<seq<nat>>, ins: seq<seq<nat>>)
    requires EdgesReady(irs, bbs, lb)
    ensures |outs| == |bbs| + 1 && |ins| == |bbs| + 1
    ensures forall i | 0 <= i < |bbs| :: outs[i] == Succs(irs, bbs, lb, i)
    ensures outs[|bbs|] == [] && Closed(outs) && Closed(ins)
    ensures forall b, c | 0 <= b <= |bbs| && 0 <= c <= |bbs| :: c in outs[b] <==> b in ins[c]
  {
    outs := [];
    ins := seq(|bbs| + 1, _ => []);
    for i := 0 to |bbs|
      invariant Linked(irs, bbs, lb, outs, ins, i)
    {
      var os := Succs(irs, bbs, lb, i);
      ghost var ins0 := ins;
      ins := EnterEdges(ins, i, os);
      LinkStep(irs, bbs, lb, outs, ins0, ins, i);
      outs := outs + [os];
    }
    outs := outs + [[]];
    forall c, k | 0 <= c < |ins| && 0 <= k < |ins[c]| ensures ins[c][k] < |ins| {
      assert ins[c][k] in ins[c];
    }
  }

  /** The first i out-lists are built and their edges entered in the in-lists. */
  ghost predicate Linked(irs: seq<Instr>, bbs: seq<Block>, lb: map<nat, nat>, outs: seq<seq<nat>>,
                         ins: seq<seq<nat>>, i: nat)
    requires EdgesReady(irs, bbs, lb)
  {
    i <= |bbs| && |outs| == i && |ins| == |bbs| + 1 &&
    (forall k | 0 <= k < i :: outs[k] == Succs(irs, bbs, lb, k)) &&
    (forall b, c | 0 <= b < i && 0 <= c <= |bbs| :: c in outs[b] <==> b in ins[c]) &&
    (forall b, c | i <= b && 0 <= c <= |bbs| :: b !in ins[c])
  }

  lemma LinkStep(irs: seq<Instr>, bbs: seq<Block>, lb: map<nat, nat>, outs: seq<seq<nat>>,
                 ins0: seq<seq<nat>>, ins: seq<seq<nat>>, i: nat)
    requires EdgesReady(irs, bbs, lb) && Linked(irs, bbs, lb, outs, ins0, i) && i < |bbs|
    requires |ins| == |ins0|
    requires forall c | 0 <= c < |ins| :: i in ins[c] <==> c in Succs(irs, bbs, lb, i)
    requires forall b, c | 0 <= c < |ins| && b != i :: b in ins[c] <==> b in ins0[c]
    ensures Linked(irs, bbs, lb, outs + [Succs(irs, bbs, lb, i)], ins, i + 1)
  {
    var outs' := outs + [Succs(irs, bbs, lb, i)];
    assert forall k | 0 <= k < i :: outs'[k] == outs[k];
  }

  /** Appends block i to the in-list of each of its successors `os`. */
  method EnterEdges(ins0: seq<seq<nat>>, i: nat, os: seq<nat>) returns (ins: seq<seq<nat>>)
    requires forall k | 0 <= k < |os| :: os[k] < |ins0|
    requires forall c | 0 <= c < |ins0| :: i !in ins0[c]
    ensures |ins| == |ins0|
    ensures forall c | 0 <= c < |ins| :: i in ins[c] <==> c in os
    ensures forall b, c | 0 <= c < |ins| && b != i :: b in ins[c] <==> b in ins0[c]
  {
    ins := ins0;
    for k := 0 to |os|
      invariant |ins| == |ins0|
      invariant forall c | 0 <= c < |ins| :: (i in ins[c] <==> c in os[..k])
      invariant forall b, c | 0 <= c < |ins| && b != i :: b in ins[c] <==> b in ins0[c]
    {
      ins := ins[os[k] := ins[os[k]] + [i]];
    }
    assert os[..|os|] == os;
  }

  /* ------------------------------------------------------------------ */
  /* Reachability inside a function                                      */
  /* ------------------------------------------------------------------ */

  /** irs1 is irs0 with some instructions turned into nops. */
  predicate OnlyNops(irs0: seq<Instr>, irs1: seq<Instr>)
  {
    |irs1| == |irs0| && forall p | 0 <= p < |irs0| :: irs1[p] == irs0[p] || irs1[p] == Nop
  }

  /** irs1 is irs0 with [s, e) emptied and, outside it, at most some labels turned into nops. */
  predicate RangeNopped(irs0: seq<Instr>, irs1: seq<Instr>, s: nat, e: nat)
  {
    OnlyNops(irs0, irs1) &&
    (forall p | s <= p < e && p < |irs1| :: irs1[p] == Nop) &&
    (forall p | 0 <= p < |irs0| && !(s <= p < e) && !irs0[p].Label? :: irs1[p] == irs0[p])
  }

  /** Turning instructions into nops keeps the blocks sound. */
  lemma NopsKeepSound(irs0: seq<Instr>, irs1: seq<Instr>, bbs: seq<Block>)
    requires BlocksSound(irs0, bbs) && OnlyNops(irs0, irs1)
    ensures BlocksSound(irs1, bbs)
  {
  }

  /** Turns the instructions in [st, ed) into nops; none of them is a jump or a label. */
  method NopRange(cfg: Cfg, st: nat, ed: nat)
    requires cfg.Valid() && st <= ed <= |cfg.irs|
    requires forall p | st <= p < ed :: !cfg.irs[p].IsJump() && !cfg.irs[p].Label?
    modifies cfg
    ensures cfg.Valid() && cfg.Shape() == old(cfg.Shape())
    ensures cfg.nextJid == old(cfg.nextJid) && cfg.exprMap == old(cfg.exprMap) && cfg.labels == old(cfg.labels)
    ensures |cfg.irs| == old(|cfg.irs|)
    ensures forall q | 0 <= q < |cfg.irs| :: cfg.irs[q] == (if st <= q < ed then Nop else old(cfg.irs[q]))
  {
    for p := st to ed
      invariant cfg.Valid() && cfg.Shape() == old(cfg.Shape()) && |cfg.irs| == old(|cfg.irs|)
      invariant cfg.nextJid == old(cfg.nextJid) && cfg.exprMap == old(cfg.exprMap) && cfg.labels == old(cfg.labels)
      invariant forall q | 0 <= q < |cfg.irs| :: cfg.irs[q] == (if st <= q < p then Nop else old(cfg.irs[q]))
    {
      cfg.ReplacePlain(p, Nop);
    }
  }

  /** Turns every instruction of block i into a nop; a jump at its end is released
      through `remove_branch_goto`, which may turn its label (outside every block)
      into a nop too. */
  method NopBlock(cfg: Cfg, i: nat)
    requires cfg.Valid() && BlocksSound(cfg.irs, cfg.bbs) && i < |cfg.bbs|
    modifies cfg
    ensures cfg.Valid() && cfg.Shape() == old(cfg.Shape())
    ensures cfg.nextJid == old(cfg.nextJid) && cfg.exprMap == old(cfg.exprMap)
    ensures cfg.labels.Keys == old(cfg.labels.Keys)
    ensures RangeNopped(old(cfg.irs), cfg.irs, cfg.bbs[i].start, cfg.bbs[i].end)
  {
    var st, ed := cfg.bbs[i].start, cfg.bbs[i].end - 1;
    ghost var irs0 := cfg.irs;
    NopRange(cfg, st, ed);
    ghost var irs1 := cfg.irs;
    assert RangeNopped(irs0, irs1, st, ed);
    if cfg.irs[ed].IsJump() {
      ReleaseNopped(cfg.irs, cfg.labels, cfg.irs[ed].target, ed);
      cfg.RemoveBranchGoto(ed);
    } else {
      cfg.ReplacePlain(ed, Nop);
      assert RangeNopped(irs1, cfg.irs, ed, ed + 1);
    }
    NoppedTwice(irs0, irs1, cfg.irs, st, ed);
  }

  /** Releasing the jump at p and emptying p changes nothing else but labels. */
  lemma ReleaseNopped(irs: seq<Instr>, labels: map<nat, LabelRec>, l: nat, p: nat)
    requires l in labels && LabelsUnique(irs) && p < |irs|
    ensures RangeNopped(irs, Release(irs, labels, l).0[p := Nop], p, p + 1)
  {
  }

  /** Emptying [st, ed) and then [ed, ed + 1) empties [st, ed + 1). */
  lemma NoppedTwice(irs0: seq<Instr>, irs1: seq<Instr>, irs2: seq<Instr>, st: nat, ed: nat)
    requires st <= ed && RangeNopped(irs0, irs1, st, ed) && RangeNopped(irs1, irs2, ed, ed + 1)
    ensures RangeNopped(irs0, irs2, st, ed + 1)
  {
    forall p | 0 <= p < |irs0| ensures irs2[p] == irs0[p] || irs2[p] == Nop {
      assert irs1[p] == irs0[p] || irs1[p] == Nop;
    }
  }

  /** After pruning blocks below i: each of them is kept when reachable and emptied when
      not; blocks from i on are untouched. */
  predicate PrunedUpTo(irs0: seq<Instr>, irs: seq<Instr>, bbs: seq<Block>, marked: seq<bool>, i: nat)
    requires BlocksSound(irs0, bbs) && |irs| == |irs0| && i <= |bbs| <= |marked|
  {
    (forall b, p | 0 <= b < i && bbs[b].start <= p < bbs[b].end ::
       irs[p] == (if marked[b] then irs0[p] else Nop)) &&
    (forall b, p | i <= b < |bbs| && bbs[b].start <= p < bbs[b].end :: irs[p] == irs0[p])
  }

  /** Pruning stands at block i: the blocks of irs0 are sound, only nops were added, and
      the blocks below i are pruned. */
  predicate Pruning(irs0: seq<Instr>, irs: seq<Instr>, bbs: seq<Block>, marked: seq<bool>, i: nat)
  {
    BlocksSound(irs0, bbs) && i <= |bbs| <= |marked| && OnlyNops(irs0, irs) &&
    PrunedUpTo(irs0, irs, bbs, marked, i)
  }

  /** Emptying block i, or keeping it, extends the pruned prefix. */
  lemma PruneStep(irs0: seq<Instr>, irs: seq<Instr>, irs': seq<Instr>, bbs: seq<Block>, marked: seq<bool>, i: nat)
    requires Pruning(irs0, irs, bbs, marked, i) && i < |bbs|
    requires marked[i] ==> irs' == irs
    requires !marked[i] ==> RangeNopped(irs, irs', bbs[i].start, bbs[i].end)
    ensures Pruning(irs0, irs', bbs, marked, i + 1)
  {
    if !marked[i] {
      forall b, p | 0 <= b < |bbs| && b != i && bbs[b].start <= p < bbs[b].end
        ensures irs'[p] == irs[p]
      {
        assert !irs0[p].Label?;
        if b < i {
          assert bbs[b].end <= bbs[i].start;
        } else {
          assert bbs[i].end <= bbs[b].start;
        }
      }
    }
  }

  /**
   * `check_cfg_reachable`: marks the blocks reachable from the entry block
   * (the exit included), then empties every unreachable block, releasing the
   * jump that ends it. Every successor of a reachable block is reachable.
   */
  method CheckCfgReachable(cfg: Cfg)
    requires cfg.Valid() && BlocksSound(cfg.irs, cfg.bbs) && 0 < |cfg.bbs| <= 0x4000_0000
    requires |cfg.outs| == |cfg.bbs| + 1 && Closed(cfg.outs) && cfg.outs[|cfg.bbs|] == []
    modifies cfg
    ensures cfg.Valid() && BlocksSound(cfg.irs, cfg.bbs) && OnlyNops(old(cfg.irs), cfg.irs)
    ensures cfg.bbs == old(cfg.bbs) && cfg.exit == old(cfg.exit) && cfg.outs == old(cfg.outs)
    ensures cfg.ins == old(cfg.ins) && cfg.labelBlock == old(cfg.labelBlock) && cfg.reachable == old(cfg.reachable)
    ensures cfg.nextJid == old(cfg.nextJid) && cfg.exprMap == old(cfg.exprMap)
    ensures cfg.labels.Keys == old(cfg.labels.Keys)
    ensures |cfg.bbReach| == |cfg.bbs| + 1 && MarkClosed(cfg.outs, cfg.bbReach)
    ensures forall b | 0 <= b <= |cfg.bbs| :: cfg.bbReach[b] <==> Reachable(cfg.outs, 0, b)
    ensures PrunedUpTo(old(cfg.irs), cfg.irs, cfg.bbs, cfg.bbReach, |cfg.bbs|)
  {
    var marked := Bfs(cfg.outs, 0, |cfg.bbs|);
    cfg.bbReach := marked;
    PruneBlocks(cfg);
  }

  /** The second half of `check_cfg_reachable`: every block not marked reachable is emptied. */
  method PruneBlocks(cfg: Cfg)
    requires cfg.Valid() && BlocksSound(cfg.irs, cfg.bbs) && |cfg.bbs| <= |cfg.bbReach|
    modifies cfg
    ensures cfg.Valid() && cfg.Shape() == old(cfg.Shape()) && cfg.labels.Keys == old(cfg.labels.Keys)
    ensures cfg.nextJid == old(cfg.nextJid) && cfg.exprMap == old(cfg.exprMap)
    ensures BlocksSound(cfg.irs, cfg.bbs) && Pruning(old(cfg.irs), cfg.irs, cfg.bbs, cfg.bbReach, |cfg.bbs|)
  {
    var bbs, marked := cfg.bbs, cfg.bbReach;
    ghost var irs0 := cfg.irs;
    for i := 0 to |bbs|
      invariant cfg.Valid() && cfg.Shape() == old(cfg.Shape()) && cfg.labels.Keys == old(cfg.labels.Keys)
      invariant cfg.nextJid == old(cfg.nextJid) && cfg.exprMap == old(cfg.exprMap)
      invariant Pruning(irs0, cfg.irs, bbs, marked, i)
    {
      ghost var irs := cfg.irs;
      NopsKeepSound(irs0, irs, bbs);
      if !marked[i] {
        NopBlock(cfg, i);
      }
      PruneStep(irs0, irs, cfg.irs, bbs, marked, i);
    }
    NopsKeepSound(irs0, cfg.irs, bbs);
  }

  /**
   * `build_cfg`: links the edges of every block and prunes what the entry block
   * cannot reach. Every out-edge has its in-edge.
   */
  method BuildCfg(cfg: Cfg)
    requires cfg.Valid() && EdgesReady(cfg.irs, cfg.bbs, cfg.labelBlock) && 0 < |cfg.bbs| <= 0x4000_0000
    modifies cfg
    ensures cfg.Valid() && BlocksSound(cfg.irs, cfg.bbs) && OnlyNops(old(cfg.irs), cfg.irs)
    ensures cfg.bbs == old(cfg.bbs) && cfg.exit == old(cfg.exit) && cfg.labelBlock == old(cfg.labelBlock)
    ensures cfg.reachable == old(cfg.reachable) && cfg.nextJid == old(cfg.nextJid) && cfg.exprMap == old(cfg.exprMap)
    ensures cfg.labels.Keys == old(cfg.labels.Keys)
    ensures |cfg.outs| == |cfg.bbs| + 1 && |cfg.ins| == |cfg.bbs| + 1 && cfg.outs[|cfg.bbs|] == []
    ensures forall i | 0 <= i < |cfg.bbs| :: cfg.outs[i] == Succs(old(cfg.irs), cfg.bbs, cfg.labelBlock, i)
    ensures forall b, c | 0 <= b <= |cfg.bbs| && 0 <= c <= |cfg.bbs| :: c in cfg.outs[b] <==> b in cfg.ins[c]
    ensures Closed(cfg.outs) && Closed(cfg.ins) && |cfg.bbReach| == |cfg.bbs| + 1 && MarkClosed(cfg.outs, cfg.bbReach)
    ensures forall b | 0 <= b <= |cfg.bbs| :: cfg.bbReach[b] <==> Reachable(cfg.outs, 0, b)
    ensures PrunedUpTo(old(cfg.irs), cfg.irs, cfg.bbs, cfg.bbReach, |cfg.bbs|)
    ensures EdgesReady(cfg.irs, cfg.bbs, cfg.labelBlock)
  {
    var outs, ins := Edges(cfg.irs, cfg.bbs, cfg.labelBlock);
    cfg.outs, cfg.ins := outs, ins;
    ghost var irs0 := cfg.irs;
    CheckCfgReachable(cfg);
    ShapeKeptReady(irs0, cfg.irs, cfg.bbs, cfg.labelBlock);
  }

  /* ------------------------------------------------------------------ */
  /* From blocks to edges                                                */
  /* ------------------------------------------------------------------ */

  /**
   * What a pass may do to one instruction after the blocks are built: turn it
   * into a nop, keep a jump a jump to the same label, keep a return a return,
   * or replace an instruction that neither ends a block nor is a label by
   * another such instruction.
   */
  predicate ShapeKept(x0: Instr, x1: Instr)
  {
    x1 == Nop || x1 == x0 ||
    (x0.IsJump() && x1.IsJump() && x1.target == x0.target) ||
    (x0.Ret? && x1.Ret?) ||
    (!Terminator(x0) && !x0.Label? && !Terminator(x1) && !x1.Label?)
  }

  /** Rewrites of that kind keep the blocks and what `build_cfg` needs. */
  lemma ShapeKeptReady(irs0: seq<Instr>, irs1: seq<Instr>, bbs: seq<Block>, lb: map<nat, nat>)
    requires EdgesReady(irs0, bbs, lb) && |irs1| == |irs0|
    requires forall p | 0 <= p < |irs0| :: ShapeKept(irs0[p], irs1[p])
    ensures EdgesReady(irs1, bbs, lb)
  {
  }

  /** Every jump aims at a placed label that ends the list or is followed by something
      other than a label (the peephole pass merges consecutive labels). */
  predicate TargetsOpen(irs: seq<Instr>)
  {
    forall p | 0 <= p < |irs| && irs[p].IsJump() ::
      exists q | 0 <= q < |irs| :: irs[q] == Label(irs[p].target) && (q + 1 == |irs| || !irs[q + 1].Label?)
  }

  /** Such a label opens a block or the exit, so the partition `build_bb` produces is what
      `build_cfg` needs. */
  lemma PartitionReady(irs: seq<Instr>, bbs: seq<Block>, exit: Block, lb: map<nat, nat>)
    requires Partition(irs, bbs, exit, lb) && TargetsOpen(irs)
    ensures EdgesReady(irs, bbs, lb)
  {
    forall p | 0 <= p < |irs| && irs[p].IsJump()
      ensures irs[p].target in lb
    {
      var q :| 0 <= q < |irs| && irs[q] == Label(irs[p].target) && (q + 1 == |irs| || !irs[q + 1].Label?);
      if q + 1 < |irs| {
        var b := BlocksCover(irs, bbs, exit, lb, q + 1);
        assert bbs[b].start == q + 1;
        assert bbs[b].lbl == Some(irs[p].target);
      } else {
        assert exit.lbl == Some(irs[p].target);
      }
    }
  }

  /* ------------------------------------------------------------------ */
  /* Reachability across the program                                    */
  /* ------------------------------------------------------------------ */

  /** Every called function is in the function table (`check_program_reachable` asserts it). */
  ghost predicate CallsKnown(cfgs: seq<Cfg>, ft: map<string, nat>)
    reads cfgs
  {
    forall i, p | 0 <= i < |cfgs| && 0 <= p < |cfgs[i].irs| && cfgs[i].irs[p].Call? ::
      cfgs[i].irs[p].func in ft
  }

  /** The graphs called from `irs`, through the function table, in call order. */
  function Callees(irs: seq<Instr>, ft: map<string, nat>): (r: seq<nat>)
    requires forall p | 0 <= p < |irs| && irs[p].Call? :: irs[p].func in ft
    ensures forall p | 0 <= p < |irs| && irs[p].Call? :: ft[irs[p].func] in r
    ensures forall c | c in r :: exists p | 0 <= p < |irs| :: irs[p].Call? && ft[irs[p].func] == c
  {
    if |irs| == 0 then []
    else Callees(irs[..|irs| - 1], ft) + (if irs[|irs| - 1].Call? then [ft[irs[|irs| - 1].func]] else [])
  }

  /** The call graph: node i's successors are the graphs that function i calls. */
  ghost function CallGraph(cfgs: seq<Cfg>, ft: map<string, nat>): (g: seq<seq<nat>>)
    requires CallsKnown(cfgs, ft)
    reads cfgs
    ensures |g| == |cfgs| && forall i | 0 <= i < |cfgs| :: g[i] == Callees(cfgs[i].irs, ft)
  {
    if |cfgs| == 0 then [] else CallGraph(cfgs[..|cfgs| - 1], ft) + [Callees(cfgs[|cfgs| - 1].irs, ft)]
  }

  /** The call graph's successor lists, computed function by function. */
  method CallSuccs(cfgs: seq<Cfg>, ft: map<string, nat>) returns (succ: seq<seq<nat>>)
    requires CallsKnown(cfgs, ft) && forall f | f in ft :: ft[f] < |cfgs|
    ensures succ == CallGraph(cfgs, ft) && Closed(succ)
  {
    succ := [];
    for i := 0 to |cfgs|
      invariant |succ| == i && forall k | 0 <= k < i :: succ[k] == Callees(cfgs[k].irs, ft)
    {
      succ := succ + [Callees(cfgs[i].irs, ft)];
    }
    assert Closed(succ) by {
      forall b, k | 0 <= b < |succ| && 0 <= k < |succ[b]|
        ensures succ[b][k] < |succ|
      {
        assert succ[b][k] in Callees(cfgs[b].irs, ft);
      }
    }
  }

  /** Stores the reachability flags, one per graph. */
  method SetReachable(cfgs: seq<Cfg>, marked: seq<bool>)
    requires |marked| == |cfgs| && forall i, j | 0 <= i < j < |cfgs| :: cfgs[i] != cfgs[j]
    modifies cfgs
    ensures forall k | 0 <= k < |cfgs| ::
      cfgs[k].Code() == old(cfgs[k].Code()) && cfgs[k].Graph() == old(cfgs[k].Graph()) &&
      cfgs[k].reachable == marked[k]
  {
    for i := 0 to |cfgs|
      invariant forall k | 0 <= k < |cfgs| ::
        cfgs[k].Code() == old(cfgs[k].Code()) && cfgs[k].Graph() == old(cfgs[k].Graph())
      invariant forall k | 0 <= k < i :: cfgs[k].reachable == marked[k]
    {
      cfgs[i].reachable := marked[i];
    }
  }

  /**
   * `check_program_reachable`: a function is reachable exactly when it is `main`
   * or is called from a reachable function; without `main` nothing is.
   */
  method CheckProgramReachable(prog: Program)
    requires prog.Valid() && 0 < |prog.cfgs| <= 0x4000_0000 && CallsKnown(prog.cfgs, prog.funcTable)
    modifies prog.cfgs
    ensures forall i | 0 <= i < |prog.cfgs| ::
      prog.cfgs[i].Code() == old(prog.cfgs[i].Code()) && prog.cfgs[i].Graph() == old(prog.cfgs[i].Graph())
    ensures forall i | 0 <= i < |prog.cfgs| ::
      prog.cfgs[i].reachable <==>
        ("main" in prog.funcTable && Reachable(old(CallGraph(prog.cfgs, prog.funcTable)), prog.funcTable["main"], i))
  {
    var marked := CallReach(prog.cfgs, prog.funcTable);
    SetReachable(prog.cfgs, marked);
  }

  /** Which functions `main` reaches through calls; none when there is no `main`. */
  method CallReach(cfgs: seq<Cfg>, ft: map<string, nat>) returns (marked: seq<bool>)
    requires 0 < |cfgs| <= 0x4000_0000 && CallsKnown(cfgs, ft) && forall f | f in ft :: ft[f] < |cfgs|
    ensures |marked| == |cfgs|
    ensures forall i | 0 <= i < |cfgs| ::
      marked[i] <==> ("main" in ft && Reachable(CallGraph(cfgs, ft), ft["main"], i))
  {
    var succ := CallSuccs(cfgs, ft);
    if "main" in ft {
      marked := Bfs(succ, ft["main"], |cfgs|);
    } else {
      marked := seq(|cfgs|, _ => false);
    }
  }
}
