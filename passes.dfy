/**
 * What every optimisation pass (`ir_constant`, `ir_avexpr`, `ir_arthprog`,
 * `ir_livevar`) relies on and keeps: a graph whose edges are built, and
 * rewrites that keep the block shape and the calls.
 */
module Passes {
  import opened IrTypes
  import opened IrProgram
  import opened CfgBuild
  import opened Dataflow

  /** A graph an analysis can run on: valid, with sound blocks whose jumps all land, at
      most 2^30 blocks, and the edge lists `build_cfg` leaves. */
  ghost predicate Ready(cfg: Cfg)
    reads cfg
  {
    ReadyAt(cfg.Code(), cfg.Graph())
  }

  /** Ready, in terms of the code and the graph alone, so that a graph whose code and
      graph are kept stays ready whatever else changes. */
  ghost predicate ReadyAt(code: (seq<Instr>, map<nat, LabelRec>, nat, map<Expr, nat>),
                          graph: (seq<Block>, Block, seq<seq<nat>>, seq<seq<nat>>, seq<bool>, map<nat, nat>))
  {
    LabelsOk(code.0, code.1, code.2) && (forall e | e in code.3 :: Canon(e) == e) &&
    EdgesReady(code.0, graph.0, graph.5) && 0 < |graph.0| <= 0x4000_0000 &&
    GraphOk(graph.2, graph.3, graph.4, |graph.0|)
  }

  /** x1 may stand where a pass found x0: the block shape is kept and a call stays a call
      of the same function. */
  predicate Relates(x0: Instr, x1: Instr)
  {
    ShapeKept(x0, x1) && (x1.Call? ==> x0.Call? && x1.func == x0.func)
  }

  /** Position by position, irs1 relates to irs0. */
  predicate AllRelate(irs0: seq<Instr>, irs1: seq<Instr>)
  {
    |irs1| == |irs0| && forall p | 0 <= p < |irs0| :: Relates(irs0[p], irs1[p])
  }

  /** Relating is kept when `build_cfg` then empties unreachable blocks. */
  lemma RelateThenNops(irs0: seq<Instr>, irs1: seq<Instr>, irs2: seq<Instr>)
    requires AllRelate(irs0, irs1) && OnlyNops(irs1, irs2)
    ensures AllRelate(irs0, irs2)
  {
    forall p | 0 <= p < |irs0| ensures Relates(irs0[p], irs2[p]) {
      assert irs2[p] == irs1[p] || irs2[p] == Nop;
    }
  }

  /** A related list keeps the jumps landing, so `build_cfg` can run again. */
  lemma RelateReady(irs0: seq<Instr>, irs1: seq<Instr>, bbs: seq<Block>, lb: map<nat, nat>)
    requires EdgesReady(irs0, bbs, lb) && AllRelate(irs0, irs1)
    ensures EdgesReady(irs1, bbs, lb)
  {
    ShapeKeptReady(irs0, irs1, bbs, lb);
  }

  /** `build_cfg` after a rewrite: the graph is ready again, and only nops were added. */
  method Rebuild(cfg: Cfg)
    requires cfg.Valid() && EdgesReady(cfg.irs, cfg.bbs, cfg.labelBlock) && 0 < |cfg.bbs| <= 0x4000_0000
    modifies cfg
    ensures Ready(cfg) && OnlyNops(old(cfg.irs), cfg.irs)
    ensures cfg.bbs == old(cfg.bbs) && cfg.labels.Keys == old(cfg.labels.Keys) && cfg.reachable == old(cfg.reachable)
    ensures forall b | 0 <= b <= |cfg.bbs| :: cfg.bbReach[b] <==> Reach.Reachable(cfg.outs, 0, b)
  {
    BuildCfg(cfg);
  }

  /** Calls that only ever stay calls of the same function stay known to the table. */
  lemma CallsStayKnown(cfgs: seq<Cfg>, ft: map<string, nat>, irs0: seq<seq<Instr>>)
    requires |irs0| == |cfgs|
    requires forall i, p | 0 <= i < |cfgs| && 0 <= p < |irs0[i]| && irs0[i][p].Call? :: irs0[i][p].func in ft
    requires forall i | 0 <= i < |cfgs| :: AllRelate(irs0[i], cfgs[i].irs)
    ensures CallsKnown(cfgs, ft)
  {
    forall i, p | 0 <= i < |cfgs| && 0 <= p < |cfgs[i].irs| && cfgs[i].irs[p].Call?
      ensures cfgs[i].irs[p].func in ft
    {
      assert Relates(irs0[i][p], cfgs[i].irs[p]);
    }
  }

  /** A program the passes can run on: valid, every call known to the function table,
      and every graph ready. */
  ghost predicate ProgramReady(prog: Program)
    reads prog, prog.cfgs
  {
    prog.Valid() && 0 < |prog.cfgs| <= 0x4000_0000 && CallsKnown(prog.cfgs, prog.funcTable) &&
    forall i | 0 <= i < |prog.cfgs| :: Ready(prog.cfgs[i])
  }

  /** `check_program_reachable` at the end of a pass keeps the program ready. */
  method Recheck(prog: Program)
    requires ProgramReady(prog)
    modifies prog.cfgs
    ensures ProgramReady(prog) && IrsOf(prog.cfgs) == old(IrsOf(prog.cfgs))
    ensures forall i | 0 <= i < |prog.cfgs| ::
      prog.cfgs[i].irs == old(prog.cfgs[i].irs) && prog.cfgs[i].bbs == old(prog.cfgs[i].bbs)
    ensures forall i | 0 <= i < |prog.cfgs| ::
      prog.cfgs[i].reachable <==>
        ("main" in prog.funcTable && Reach.Reachable(old(CallGraph(prog.cfgs, prog.funcTable)), prog.funcTable["main"], i))
  {
    ghost var codes := seq(|prog.cfgs|, i requires 0 <= i < |prog.cfgs| reads prog, prog.cfgs => prog.cfgs[i].Code());
    ghost var graphs := seq(|prog.cfgs|, i requires 0 <= i < |prog.cfgs| reads prog, prog.cfgs => prog.cfgs[i].Graph());
    ghost var irs0 := IrsOf(prog.cfgs);
    ReadyCodes(prog, codes, graphs);
    CheckProgramReachable(prog);
    CodesReady(prog, codes, graphs);
    IrsKept(prog.cfgs, irs0);
  }

  /** The parts of a ready program that do not depend on the heap, with each graph's
      code and graph given as values. */
  ghost predicate ReadySnapshot(cfgs: seq<Cfg>, ft: map<string, nat>, labelNum: nat,
                                codes: seq<(seq<Instr>, map<nat, LabelRec>, nat, map<Expr, nat>)>,
                                graphs: seq<(seq<Block>, Block, seq<seq<nat>>, seq<seq<nat>>, seq<bool>, map<nat, nat>)>)
  {
    |codes| == |graphs| == |cfgs| && 0 < |cfgs| <= 0x4000_0000 && DistinctCfgs(cfgs) &&
    (forall i | 0 <= i < |cfgs| :: cfgs[i].no == i) &&
    (forall f | f in ft :: ft[f] < |cfgs| && cfgs[ft[f]].name == f) &&
    (forall i | 0 <= i < |cfgs| :: ReadyAt(codes[i], graphs[i])) &&
    (forall i, l | 0 <= i < |cfgs| && l in codes[i].1 :: l < labelNum) &&
    (forall i, p | 0 <= i < |cfgs| && 0 <= p < |codes[i].0| && codes[i].0[p].Call? :: codes[i].0[p].func in ft)
  }

  /** Each graph holds the given code and graph. */
  ghost predicate CodesHeld(cfgs: seq<Cfg>, codes: seq<(seq<Instr>, map<nat, LabelRec>, nat, map<Expr, nat>)>,
                            graphs: seq<(seq<Block>, Block, seq<seq<nat>>, seq<seq<nat>>, seq<bool>, map<nat, nat>)>)
    reads cfgs
  {
    |codes| == |graphs| == |cfgs| &&
    forall i | 0 <= i < |cfgs| :: cfgs[i].Code() == codes[i] && cfgs[i].Graph() == graphs[i]
  }

  lemma ReadyCodes(prog: Program, codes: seq<(seq<Instr>, map<nat, LabelRec>, nat, map<Expr, nat>)>,
                   graphs: seq<(seq<Block>, Block, seq<seq<nat>>, seq<seq<nat>>, seq<bool>, map<nat, nat>)>)
    requires ProgramReady(prog) && CodesHeld(prog.cfgs, codes, graphs)
    ensures ReadySnapshot(prog.cfgs, prog.funcTable, prog.labelNum, codes, graphs)
  {
  }

  lemma CodesReady(prog: Program, codes: seq<(seq<Instr>, map<nat, LabelRec>, nat, map<Expr, nat>)>,
                   graphs: seq<(seq<Block>, Block, seq<seq<nat>>, seq<seq<nat>>, seq<bool>, map<nat, nat>)>)
    requires ReadySnapshot(prog.cfgs, prog.funcTable, prog.labelNum, codes, graphs) && CodesHeld(prog.cfgs, codes, graphs)
    ensures ProgramReady(prog)
  {
  }

  lemma IrsKept(cfgs: seq<Cfg>, irs0: seq<seq<Instr>>)
    requires |irs0| == |cfgs| && forall i | 0 <= i < |cfgs| :: cfgs[i].irs == irs0[i]
    ensures IrsOf(cfgs) == irs0
  {
  }

  /** Distinct graphs. */
  predicate DistinctCfgs(cfgs: seq<Cfg>)
  {
    forall i, j | 0 <= i < j < |cfgs| :: cfgs[i] != cfgs[j]
  }

  /** Graph i is none of the others, so a call that modifies only it keeps them. */
  lemma OthersApart(cfgs: seq<Cfg>, i: nat)
    requires DistinctCfgs(cfgs) && i < |cfgs|
    ensures forall j | 0 <= j < |cfgs| && j != i :: cfgs[j] != cfgs[i]
  {
  }

  /** The instruction lists of the graphs. */
  ghost function IrsOf(cfgs: seq<Cfg>): (r: seq<seq<Instr>>)
    reads cfgs
    ensures |r| == |cfgs| && forall i | 0 <= i < |cfgs| :: r[i] == cfgs[i].irs
  {
    if |cfgs| == 0 then [] else IrsOf(cfgs[..|cfgs| - 1]) + [cfgs[|cfgs| - 1].irs]
  }

  /** The label keys of the graphs. */
  ghost function KeysOf(cfgs: seq<Cfg>): (r: seq<set<nat>>)
    reads cfgs
    ensures |r| == |cfgs| && forall i | 0 <= i < |cfgs| :: r[i] == cfgs[i].labels.Keys
  {
    if |cfgs| == 0 then [] else KeysOf(cfgs[..|cfgs| - 1]) + [cfgs[|cfgs| - 1].labels.Keys]
  }

  /** Whether each graph is reachable. */
  ghost function ReachOf(cfgs: seq<Cfg>): (r: seq<bool>)
    reads cfgs
    ensures |r| == |cfgs| && forall i | 0 <= i < |cfgs| :: r[i] == cfgs[i].reachable
  {
    if |cfgs| == 0 then [] else ReachOf(cfgs[..|cfgs| - 1]) + [cfgs[|cfgs| - 1].reachable]
  }

  /** The blocks of the graphs. */
  ghost function BbsOf(cfgs: seq<Cfg>): (r: seq<seq<Block>>)
    reads cfgs
    ensures |r| == |cfgs| && forall i | 0 <= i < |cfgs| :: r[i] == cfgs[i].bbs
  {
    if |cfgs| == 0 then [] else BbsOf(cfgs[..|cfgs| - 1]) + [cfgs[|cfgs| - 1].bbs]
  }

  /** The predecessor lists of the graphs. */
  ghost function InsOf(cfgs: seq<Cfg>): (r: seq<seq<seq<nat>>>)
    reads cfgs
    ensures |r| == |cfgs| && forall i | 0 <= i < |cfgs| :: r[i] == cfgs[i].ins
  {
    if |cfgs| == 0 then [] else InsOf(cfgs[..|cfgs| - 1]) + [cfgs[|cfgs| - 1].ins]
  }

  /** The block reachability flags of the graphs. */
  ghost function BbReachOf(cfgs: seq<Cfg>): (r: seq<seq<bool>>)
    reads cfgs
    ensures |r| == |cfgs| && forall i | 0 <= i < |cfgs| :: r[i] == cfgs[i].bbReach
  {
    if |cfgs| == 0 then [] else BbReachOf(cfgs[..|cfgs| - 1]) + [cfgs[|cfgs| - 1].bbReach]
  }

  /** The successor lists of the graphs. */
  ghost function OutsOf(cfgs: seq<Cfg>): (r: seq<seq<seq<nat>>>)
    reads cfgs
    ensures |r| == |cfgs| && forall i | 0 <= i < |cfgs| :: r[i] == cfgs[i].outs
  {
    if |cfgs| == 0 then [] else OutsOf(cfgs[..|cfgs| - 1]) + [cfgs[|cfgs| - 1].outs]
  }

  /** irs1 is what a pass may leave of irs0: each list relates to what it was, and the
      lists of unreachable functions are untouched. */
  predicate PassRelates(irs0: seq<seq<Instr>>, irs1: seq<seq<Instr>>, reach0: seq<bool>)
  {
    |irs1| == |irs0| == |reach0| &&
    forall i | 0 <= i < |irs0| :: AllRelate(irs0[i], irs1[i]) && (!reach0[i] ==> irs1[i] == irs0[i])
  }

  /** The graphs hold the instruction lists irs0, the label keys keys0 and the
      reachability flags reach0. */
  ghost predicate Snapshot(cfgs: seq<Cfg>, irs0: seq<seq<Instr>>, keys0: seq<set<nat>>, reach0: seq<bool>)
    reads cfgs
  {
    |irs0| == |keys0| == |reach0| == |cfgs| &&
    forall i | 0 <= i < |cfgs| ::
      cfgs[i].irs == irs0[i] && cfgs[i].labels.Keys == keys0[i] && cfgs[i].reachable == reach0[i]
  }

  /** The graphs hold the blocks bbs0, the predecessor lists ins0 and the block
      reachability flags bbr0: what a dataflow analysis of each graph starts from. */
  ghost predicate FlowSnapshot(cfgs: seq<Cfg>, bbs0: seq<seq<Block>>, ins0: seq<seq<seq<nat>>>, bbr0: seq<seq<bool>>)
    reads cfgs
  {
    |bbs0| == |ins0| == |bbr0| == |cfgs| &&
    forall i | 0 <= i < |cfgs| :: cfgs[i].bbs == bbs0[i] && cfgs[i].ins == ins0[i] && cfgs[i].bbReach == bbr0[i]
  }

  /** The graphs hold the blocks bbs0, the successor lists outs0 and the block
      reachability flags bbr0: what a backward analysis of each graph starts from. */
  ghost predicate BackSnapshot(cfgs: seq<Cfg>, bbs0: seq<seq<Block>>, outs0: seq<seq<seq<nat>>>, bbr0: seq<seq<bool>>)
    reads cfgs
  {
    |bbs0| == |outs0| == |bbr0| == |cfgs| &&
    forall i | 0 <= i < |cfgs| :: cfgs[i].bbs == bbs0[i] && cfgs[i].outs == outs0[i] && cfgs[i].bbReach == bbr0[i]
  }

  /** The blocks, predecessor lists and block flags read off the graphs are their snapshot. */
  lemma FlowParts(cfgs: seq<Cfg>, bbs0: seq<seq<Block>>, ins0: seq<seq<seq<nat>>>, bbr0: seq<seq<bool>>)
    requires bbs0 == BbsOf(cfgs) && ins0 == InsOf(cfgs) && bbr0 == BbReachOf(cfgs)
    ensures FlowSnapshot(cfgs, bbs0, ins0, bbr0)
  {
  }

  /** The blocks, successor lists and block flags read off the graphs are their snapshot. */
  lemma BackParts(cfgs: seq<Cfg>, bbs0: seq<seq<Block>>, outs0: seq<seq<seq<nat>>>, bbr0: seq<seq<bool>>)
    requires bbs0 == BbsOf(cfgs) && outs0 == OutsOf(cfgs) && bbr0 == BbReachOf(cfgs)
    ensures BackSnapshot(cfgs, bbs0, outs0, bbr0)
  {
  }

  /** One graph after a pass: ready again, its labels and reachability kept, its
      instructions related to irs0 and untouched when it is unreachable. */
  ghost predicate GraphRewritten(cfg: Cfg, irs0: seq<Instr>, keys0: set<nat>, reach0: bool)
    reads cfg
  {
    Ready(cfg) && cfg.labels.Keys == keys0 && cfg.reachable == reach0 &&
    AllRelate(irs0, cfg.irs) && (!reach0 ==> cfg.irs == irs0)
  }

  /** The graphs after a pass over each of them, from the snapshot taken before it. */
  ghost predicate Rewritten(cfgs: seq<Cfg>, irs0: seq<seq<Instr>>, keys0: seq<set<nat>>, reach0: seq<bool>)
    reads cfgs
  {
    |irs0| == |keys0| == |reach0| == |cfgs| &&
    forall i | 0 <= i < |cfgs| :: GraphRewritten(cfgs[i], irs0[i], keys0[i], reach0[i])
  }

  /** What a pass keeps of a ready program while it rewrites the graphs in place: its
      list of graphs, their numbers and names, the labels below `labelNum` and
      the functions the snapshot irs0 calls. */
  predicate Shell(cfgs: seq<Cfg>, table: map<string, nat>, labelNum: nat, irs0: seq<seq<Instr>>,
                  keys0: seq<set<nat>>)
  {
    DistinctCfgs(cfgs) && 0 < |cfgs| <= 0x4000_0000 && |irs0| == |keys0| == |cfgs| &&
    (forall i | 0 <= i < |cfgs| :: cfgs[i].no == i) &&
    (forall f | f in table :: table[f] < |cfgs| && cfgs[table[f]].name == f) &&
    (forall i, l | 0 <= i < |cfgs| && l in keys0[i] :: l < labelNum) &&
    (forall i, p | 0 <= i < |cfgs| && 0 <= p < |irs0[i]| && irs0[i][p].Call? :: irs0[i][p].func in table)
  }

  /** What a ready program promises about its graphs before they are rewritten. */
  lemma ReadyParts(prog: Program, irs0: seq<seq<Instr>>, keys0: seq<set<nat>>, reach0: seq<bool>)
    requires ProgramReady(prog)
    requires irs0 == IrsOf(prog.cfgs) && keys0 == KeysOf(prog.cfgs) && reach0 == ReachOf(prog.cfgs)
    ensures DistinctCfgs(prog.cfgs) && Snapshot(prog.cfgs, irs0, keys0, reach0)
    ensures forall i | 0 <= i < |prog.cfgs| :: Ready(prog.cfgs[i])
    ensures Shell(prog.cfgs, prog.funcTable, prog.labelNum, irs0, keys0)
  {
  }

  /** After every graph was rewritten in place, related to what it was and keeping its
      labels, the program is still ready, and its lists relate to the snapshot. */
  lemma StillReady(prog: Program, irs0: seq<seq<Instr>>, keys0: seq<set<nat>>, reach0: seq<bool>)
    requires Shell(prog.cfgs, prog.funcTable, prog.labelNum, irs0, keys0) && Rewritten(prog.cfgs, irs0, keys0, reach0)
    ensures ProgramReady(prog) && PassRelates(irs0, IrsOf(prog.cfgs), reach0)
  {
    RewrittenRelates(prog.cfgs, irs0, keys0, reach0);
    CallsStayKnown(prog.cfgs, prog.funcTable, irs0);
    forall i | 0 <= i < |prog.cfgs|
      ensures prog.cfgs[i].Valid() && Ready(prog.cfgs[i]) && prog.cfgs[i].labels.Keys == keys0[i]
    {
      assert GraphRewritten(prog.cfgs[i], irs0[i], keys0[i], reach0[i]);
    }
  }

  /** The rewritten lists relate to the snapshot. */
  lemma RewrittenRelates(cfgs: seq<Cfg>, irs0: seq<seq<Instr>>, keys0: seq<set<nat>>, reach0: seq<bool>)
    requires Rewritten(cfgs, irs0, keys0, reach0)
    ensures PassRelates(irs0, IrsOf(cfgs), reach0)
    ensures forall i | 0 <= i < |cfgs| :: AllRelate(irs0[i], cfgs[i].irs)
  {
    var irs1 := IrsOf(cfgs);
    forall i | 0 <= i < |cfgs| ensures AllRelate(irs0[i], irs1[i]) && (!reach0[i] ==> irs1[i] == irs0[i]) {
      assert GraphRewritten(cfgs[i], irs0[i], keys0[i], reach0[i]);
    }
  }

  /** Some list below i differs between a and b. */
  predicate DiffersBelow(a: seq<seq<Instr>>, b: seq<seq<Instr>>, i: nat)
  {
    exists j | 0 <= j < i && j < |a| && j < |b| :: a[j] != b[j]
  }

  /** Changing list i alone extends the comparison by that list. */
  lemma DiffersStep(a: seq<seq<Instr>>, b: seq<seq<Instr>>, i: nat, y: seq<Instr>)
    requires i < |a| == |b| && a[i] == b[i]
    ensures DiffersBelow(a[i := y], b, i + 1) <==> DiffersBelow(a, b, i) || y != b[i]
  {
    if DiffersBelow(a[i := y], b, i + 1) && y == b[i] {
      var j :| 0 <= j < i + 1 && j < |a| && j < |b| && a[i := y][j] != b[j];
      assert j != i && a[j] != b[j];
    }
  }

  /** Differing below the end is differing. */
  lemma DiffersAll(a: seq<seq<Instr>>, b: seq<seq<Instr>>)
    requires |a| == |b|
    ensures DiffersBelow(a, b, |a|) <==> a != b
  {
    if a != b {
      var j :| 0 <= j < |a| && a[j] != b[j];
    }
  }

  /** Changing a list at or above k leaves the comparison below k as it was. */
  lemma DiffersAbove(a: seq<seq<Instr>>, b: seq<seq<Instr>>, i: nat, k: nat, y: seq<Instr>)
    requires k <= i < |a|
    ensures DiffersBelow(a[i := y], b, k) <==> DiffersBelow(a, b, k)
  {
    if DiffersBelow(a[i := y], b, k) {
      var j :| 0 <= j < k && j < |a| && j < |b| && a[i := y][j] != b[j];
      assert a[j] != b[j];
    }
    if DiffersBelow(a, b, k) {
      var j :| 0 <= j < k && j < |a| && j < |b| && a[j] != b[j];
      assert a[i := y][j] != b[j];
    }
  }

  /** Agreeing below k is agreeing on the first k lists. */
  lemma SamePrefix(a: seq<seq<Instr>>, b: seq<seq<Instr>>, k: nat)
    requires k <= |a| && k <= |b| && !DiffersBelow(a, b, k)
    ensures a[..k] == b[..k]
  {
    forall j | 0 <= j < k ensures a[j] == b[j] {
      if a[j] != b[j] {
        assert DiffersBelow(a, b, k);
      }
    }
  }
}
