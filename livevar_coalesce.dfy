/**
 * `ir_livevar_elim2_bb` over a whole block. The walk renames a definition into
 * the variable a following move copies it to and turns the move into a nop, and
 * it tests every pair against the live sets computed before any renaming. The
 * block the walk leaves behaves like the block it started from: from the same
 * store it can end in a store agreeing on the variables live after the block.
 *
 * The proof follows the walk. At every position it has passed and not turned
 * into a nop, the code after that position needs no more than the position's
 * live set with the renaming accounted for (the variable the original
 * instruction defined replaced by the one it now defines).
 */
module LivevarCoalesce {
  import opened IrTypes
  import opened IrEval
  import opened LivevarPass

  /** From stores agreeing on L, xs can end, from the second store, in a store agreeing
      on out with wherever it ends from the first; agreement is up to the array variables A. */
  ghost predicate LiveSound(xs: seq<Instr>, L: Live, A: Live, out: Live)
  {
    forall s: Store, t: Store, s2: Store | Agree(s, t, L - A) && Run(s, xs, s2) ::
      exists t2 :: Run(t, xs, t2) && Agree(s2, t2, out - A)
  }

  /** ys can do what xs does: from any store, wherever xs ends ys can end in a store
      agreeing with it on out, up to the array variables A. */
  ghost predicate Simulates(xs: seq<Instr>, ys: seq<Instr>, A: Live, out: Live)
  {
    forall s: Store, s2: Store | Run(s, xs, s2) :: exists t2 :: Run(s, ys, t2) && Agree(s2, t2, out - A)
  }

  /** The variable `LiveIn` removes at x when it is live. */
  function Kill(x: Instr): Live
  {
    if x.Alloc? then {x.v} else Defs(x)
  }

  /** A step sees the store only through the variables' values. */
  lemma StepSame(s: Store, s1: Store, x: Instr, m: Store)
    requires Keeps(s, s1, {}) && Step(s1, x, m)
    ensures Step(s, x, m)
  {
    forall o: Opr ensures OprVal(s, o) == OprVal(s1, o) {
      if o.Var? {
        assert Val(s1, o.id) == Val(s, o.id);
      }
    }
  }

  /** So does a run. */
  lemma RunSame(s: Store, s1: Store, xs: seq<Instr>, s2: Store)
    requires Keeps(s, s1, {}) && Run(s1, xs, s2)
    ensures Run(s, xs, s2)
  {
    if |xs| > 0 {
      var m :| Step(s1, xs[0], m) && Run(m, xs[1..], s2);
      StepSame(s, s1, xs[0], m);
    }
  }

  /** Nops at the front of a run change nothing. */
  lemma {:induction false} NopsRun(cur: seq<Instr>, a: nat, b: nat, end: nat, s: Store, s2: Store)
    requires a <= b <= end <= |cur| && forall q | a <= q < b :: cur[q] == Nop
    ensures Run(s, cur[a..end], s2) <==> Run(s, cur[b..end], s2)
    decreases b - a
  {
    if a < b {
      NopsRun(cur, a + 1, b, end, s, s2);
      assert cur[a..end][0] == Nop && cur[a..end][1..] == cur[a + 1..end];
      if Run(s, cur[a..end], s2) {
        var m :| Step(s, Nop, m) && Run(m, cur[a + 1..end], s2);
        RunSame(s, m, cur[a + 1..end], s2);
      }
      if Run(s, cur[a + 1..end], s2) {
        assert Step(s, Nop, s);
      }
    }
  }

  /** Needing L, a list also does with more. */
  lemma LiveSoundMono(xs: seq<Instr>, L: Live, L2: Live, A: Live, out: Live)
    requires L <= L2 && LiveSound(xs, L, A, out)
    ensures LiveSound(xs, L2, A, out)
  {
    forall s: Store, t: Store, s2: Store | Agree(s, t, L2 - A) && Run(s, xs, s2)
      ensures exists t2 :: Run(t, xs, t2) && Agree(s2, t2, out - A)
    {
      assert Agree(s, t, L - A);
    }
  }

  /** The empty list needs what is live after it. */
  lemma LiveSoundEmpty(L: Live, A: Live, out: Live)
    requires out <= L
    ensures LiveSound([], L, A, out)
  {
    forall s: Store, t: Store, s2: Store | Agree(s, t, L - A) && Run(s, [], s2)
      ensures exists t2 :: Run(t, [], t2) && Agree(s2, t2, out - A)
    {
      assert Run(t, [], t) && Agree(s2, t, out - A);
    }
  }

  /** Nops in front of a list need what the list needs. */
  lemma LiveSoundNops(cur: seq<Instr>, a: nat, b: nat, end: nat, L: Live, A: Live, out: Live)
    requires a <= b <= end <= |cur| && forall q | a <= q < b :: cur[q] == Nop
    requires LiveSound(cur[b..end], L, A, out)
    ensures LiveSound(cur[a..end], L, A, out)
  {
    forall s: Store, t: Store, s2: Store | Agree(s, t, L - A) && Run(s, cur[a..end], s2)
      ensures exists t2 :: Run(t, cur[a..end], t2) && Agree(s2, t2, out - A)
    {
      NopsRun(cur, a, b, end, s, s2);
      var t2 :| Run(t, cur[b..end], t2) && Agree(s2, t2, out - A);
      NopsRun(cur, a, b, end, t, t2);
    }
  }

  /** An instruction kept under W, in front of a list needing W, needs what it reads. */
  lemma LiveSoundCons(cur: seq<Instr>, j: nat, end: nat, W: Live, L: Live, A: Live, out: Live)
    requires j < end <= |cur|
    requires ElimDead(W, cur[j]) == cur[j] && ValueReads(cur[j]) !! A && (cur[j].Alloc? ==> cur[j].v in A)
    requires LiveIn(cur[j], W) <= L && LiveSound(cur[j + 1..end], W, A, out)
    ensures LiveSound(cur[j..end], L, A, out)
  {
    forall s: Store, t: Store, s2: Store | Agree(s, t, L - A) && Run(s, cur[j..end], s2)
      ensures exists t2 :: Run(t, cur[j..end], t2) && Agree(s2, t2, out - A)
    {
      assert cur[j..end][0] == cur[j] && cur[j..end][1..] == cur[j + 1..end];
      var s1 :| Step(s, cur[j], s1) && Run(s1, cur[j + 1..end], s2);
      ElimSound(cur[j], W, A, s, t, s1);
      var t1 := Follow(t, s1, Defs(cur[j]));
      var t2 :| Run(t1, cur[j + 1..end], t2) && Agree(s2, t2, out - A);
      assert Run(t, cur[j..end], t2);
    }
  }

  /** Simulation is reflexive and transitive. */
  lemma SimRefl(xs: seq<Instr>, A: Live, out: Live)
    ensures Simulates(xs, xs, A, out)
  {
    forall s: Store, s2: Store | Run(s, xs, s2) ensures exists t2 :: Run(s, xs, t2) && Agree(s2, t2, out - A) {
      assert Agree(s2, s2, out - A);
    }
  }

  lemma SimTrans(xs: seq<Instr>, ys: seq<Instr>, zs: seq<Instr>, A: Live, out: Live)
    requires Simulates(xs, ys, A, out) && Simulates(ys, zs, A, out)
    ensures Simulates(xs, zs, A, out)
  {
    forall s: Store, s2: Store | Run(s, xs, s2) ensures exists t3 :: Run(s, zs, t3) && Agree(s2, t3, out - A) {
      var t2 :| Run(s, ys, t2) && Agree(s2, t2, out - A);
      var t3 :| Run(s, zs, t3) && Agree(t2, t3, out - A);
      assert Agree(s2, t3, out - A);
    }
  }

  /** A change past a common prefix that simulates extends to the whole list. */
  lemma {:induction false} SimPrefix(cur: seq<Instr>, nw: seq<Instr>, st: nat, p: nat, end: nat, A: Live, out: Live)
    requires st <= p <= end <= |cur| == |nw| && forall q | st <= q < p :: cur[q] == nw[q]
    requires Simulates(cur[p..end], nw[p..end], A, out)
    ensures Simulates(cur[st..end], nw[st..end], A, out)
    decreases p - st
  {
    if st < p {
      SimPrefix(cur, nw, st + 1, p, end, A, out);
      forall s: Store, s2: Store | Run(s, cur[st..end], s2)
        ensures exists t2 :: Run(s, nw[st..end], t2) && Agree(s2, t2, out - A)
      {
        assert cur[st..end][0] == cur[st] && cur[st..end][1..] == cur[st + 1..end];
        assert nw[st..end][0] == cur[st] && nw[st..end][1..] == nw[st + 1..end];
        var s1 :| Step(s, cur[st], s1) && Run(s1, cur[st + 1..end], s2);
        var t2 :| Run(s1, nw[st + 1..end], t2) && Agree(s2, t2, out - A);
        assert Run(s, nw[st..end], t2);
      }
    }
  }

  /** Renaming a definition into its own variable changes nothing. */
  lemma RenamedSelf(x: Instr)
    requires DefVar(x).Some?
    ensures Renamed(x, DefVar(x).value) == x
  {
  }

  /**
   * One coalesced pair: x at p defines l, only nops lie between it and `y := l` at j,
   * and the code after j needs no more than W, which holds y and not l (unless the move
   * copies l into itself). Defining y at p and dropping the move can do what the pair did.
   */
  lemma PairSimulates(cur: seq<Instr>, p: nat, j: nat, end: nat, o: Live, W: Live, A: Live, out: Live)
    requires p < j < end <= |cur| && forall q | p < q < j :: cur[q] == Nop
    requires Coalescible(cur[p], cur[j], o)
    requires DefVar(cur[p]).value != cur[j].lhs ==> DefVar(cur[p]).value !in W && cur[j].lhs in W
    requires LiveSound(cur[j + 1..end], W, A, out)
    ensures Simulates(cur[p..end], Pair(cur, p, j, o)[p..end], A, out)
  {
    var nw := Pair(cur, p, j, o);
    forall s: Store, s2: Store | Run(s, cur[p..end], s2)
      ensures exists t2 :: Run(s, nw[p..end], t2) && Agree(s2, t2, out - A)
    {
      assert cur[p..end][0] == cur[p] && cur[p..end][1..] == cur[p + 1..end];
      var s1 :| Step(s, cur[p], s1) && Run(s1, cur[p + 1..end], s2);
      NopsRun(cur, p + 1, j, end, s1, s2);
      assert cur[j..end][0] == cur[j] && cur[j..end][1..] == cur[j + 1..end];
      var s3 :| Step(s1, cur[j], s3) && Run(s3, cur[j + 1..end], s2);
      var t1, t2 := PairRun(cur, p, j, end, o, W, A, out, s, s1, s3, s2);
      assert nw[p..end][0] == nw[p] && nw[p..end][1..] == nw[p + 1..end];
    }
  }

  /** The runs behind `PairSimulates`: x led from s to s1, the move from s1 to s3 and the
      rest of the block from s3 to s2; the coalesced pair leads from s to t1, its nops keep
      t1, and the rest of the block leads from t1 to t2. */
  lemma PairRun(cur: seq<Instr>, p: nat, j: nat, end: nat, o: Live, W: Live, A: Live, out: Live,
                s: Store, s1: Store, s3: Store, s2: Store) returns (t1: Store, t2: Store)
    requires p < j < end <= |cur| && forall q | p < q < j :: cur[q] == Nop
    requires Coalescible(cur[p], cur[j], o)
    requires DefVar(cur[p]).value != cur[j].lhs ==> DefVar(cur[p]).value !in W && cur[j].lhs in W
    requires LiveSound(cur[j + 1..end], W, A, out)
    requires Step(s, cur[p], s1) && Step(s1, cur[j], s3) && Run(s3, cur[j + 1..end], s2)
    ensures Step(s, Pair(cur, p, j, o)[p], t1) && Run(t1, Pair(cur, p, j, o)[p + 1..end], t2)
    ensures Agree(s2, t2, out - A)
  {
    var x, mv := cur[p], cur[j];
    var l, y := DefVar(x).value, mv.lhs;
    var nw := Pair(cur, p, j, o);
    assert nw == cur[p := Renamed(x, y)][j := Nop];
    assert mv == Mov(y, Var(l));
    assert nw[j + 1..end] == cur[j + 1..end];
    assert nw[j..end][0] == Nop && nw[j..end][1..] == nw[j + 1..end];
    if l == y {
      RenamedSelf(x);
      RunSame(s1, s3, cur[j + 1..end], s2);
      t1, t2 := s1, s2;
    } else {
      PairSound(x, y, W, s, s, s1, s3);
      t1 := Follow(s, s3, {y});
      assert Agree(s3, t1, W - A);
      t2 :| Run(t1, cur[j + 1..end], t2) && Agree(s2, t2, out - A);
    }
    assert Step(t1, Nop, t1);
    assert Run(t1, nw[j..end], t2);
    NopsRun(nw, p + 1, j, end, t1, t2);
  }

  /** The live set below position q, where xs0 ran, accounting for what cur[q] now defines. */
  function WAt(cur: seq<Instr>, xs0: seq<Instr>, st: nat, outs: seq<Live>, q: nat): Live
    requires st <= q < st + |outs| && q < |cur| && q < |xs0|
  {
    outs[q - st] - Kill(xs0[q]) + Kill(cur[q])
  }

  /** outs annotates xs0: the live set below q is the one above q + 1. */
  predicate AnnotAt(xs0: seq<Instr>, st: nat, outs: seq<Live>, q: nat)
  {
    st <= q && q + 1 - st < |outs| && q + 1 < |xs0| && outs[q - st] == LiveIn(xs0[q + 1], outs[q + 1 - st])
  }

  /** xs0 at q is what elimination leaves: a droppable definition defines a live variable,
      and the array variables are only declared and read through an address or a load. */
  predicate CleanAt(xs0: seq<Instr>, st: nat, outs: seq<Live>, A: Live, q: nat)
  {
    st <= q < st + |outs| && q < |xs0| &&
    (Droppable(xs0[q]) ==> DroppedVar(xs0[q]) in outs[q - st]) &&
    ValueReads(xs0[q]) !! A && (xs0[q].Alloc? ==> xs0[q].v in A)
  }

  /** cur[q] is a nop, xs0[q] itself, or xs0[q] defining another variable. */
  predicate ShapeAt(cur: seq<Instr>, xs0: seq<Instr>, q: nat)
  {
    q < |cur| && q < |xs0| &&
    (cur[q] == Nop || cur[q] == xs0[q] ||
     (DefVar(xs0[q]).Some? && DefVar(cur[q]).Some? && cur[q] == Renamed(xs0[q], DefVar(cur[q]).value)))
  }

  /** What the walk keeps at a passed position q: its shape; when it is not a nop, the code
      after it needs no more than its live set; when it became one, an instruction that
      is not a nop stands before it among the passed positions. */
  ghost predicate PassedAt(cur: seq<Instr>, xs0: seq<Instr>, st: nat, end: nat, outs: seq<Live>,
                           A: Live, out: Live, i: nat, q: nat)
  {
    st <= q < end <= |cur| && |outs| == end - st && ShapeAt(cur, xs0, q) &&
    (cur[q] != Nop ==> LiveSound(cur[q + 1..end], WAt(cur, xs0, st, outs, q), A, out)) &&
    (cur[q] == Nop && xs0[q] != Nop ==> exists r | i <= r < q :: cur[r] != Nop)
  }

  /** The walk's invariant at i: xs0 is annotated by outs and clean; below i nothing has
      changed; every position from i on is passed. */
  ghost predicate Inv(cur: seq<Instr>, xs0: seq<Instr>, st: nat, end: nat, outs: seq<Live>,
                      A: Live, out: Live, i: nat)
  {
    st <= i <= end <= |cur| == |xs0| && st < end && |outs| == end - st && outs[|outs| - 1] == out &&
    (forall q | st <= q < end - 1 :: AnnotAt(xs0, st, outs, q)) &&
    (forall q | st <= q < end :: CleanAt(xs0, st, outs, A, q)) &&
    (forall q | st <= q < i :: cur[q] == xs0[q]) &&
    (forall q | i <= q < end :: PassedAt(cur, xs0, st, end, outs, A, out, i, q))
  }

  /** What an instruction leaves of a live set is below what it needs. */
  lemma LiveInKeeps(x: Instr, o: Live)
    ensures o - Kill(x) <= LiveIn(x, o)
  {
  }

  /** The variable a renamable instruction kills is the one it defines. */
  lemma KillDef(x: Instr)
    requires DefVar(x).Some?
    ensures Kill(x) == {DefVar(x).value}
  {
  }

  /** A passed instruction under its adjusted live set is kept, reads what the original
      read, and needs no more than the original needed. */
  lemma ShapeLive(x: Instr, c: Instr, o: Live, W: Live)
    requires c == x || (DefVar(x).Some? && DefVar(c).Some? && c == Renamed(x, DefVar(c).value))
    requires Droppable(x) ==> DroppedVar(x) in o
    requires W == o - Kill(x) + Kill(c)
    ensures LiveIn(c, W) <= LiveIn(x, o) && ElimDead(W, c) == c
    ensures ValueReads(c) == ValueReads(x) && (c.Alloc? ==> c == x)
  {
    if c != x {
      var z := DefVar(c).value;
      KillDef(x);
      KillDef(c);
      match x {
        case Mov(l, r) => assert c == Mov(z, r);
        case Arth(l, a, b, op) => assert c == Arth(z, a, b, op);
        case Addr(l, v) => assert c == Addr(z, v);
        case Load(l, v) => assert c == Load(z, v);
        case Call(l, f, args) => assert c == Call(z, f, args);
        case Read(l) => assert c == Read(z);
      }
    } else if Droppable(x) {
      assert W == o;
    }
  }

  /** Between i and the next instruction that is not a nop, xs0 has nops too, so the live
      set below i - 1 is the one above that instruction. */
  lemma {:induction false} AnnotNops(cur: seq<Instr>, xs0: seq<Instr>, st: nat, end: nat, outs: seq<Live>,
                                     A: Live, out: Live, i: nat, a: nat, j: nat)
    requires Inv(cur, xs0, st, end, outs, A, out, i) && st < i <= a <= j < end
    requires forall q | i <= q < j :: cur[q] == Nop
    ensures forall q | a <= q < j :: xs0[q] == Nop
    ensures outs[a - 1 - st] == LiveIn(xs0[j], outs[j - st])
    decreases j - a
  {
    if a < j {
      AnnotNops(cur, xs0, st, end, outs, A, out, i, a + 1, j);
      assert PassedAt(cur, xs0, st, end, outs, A, out, i, a);
      assert !exists r | i <= r < a :: cur[r] != Nop;
      assert AnnotAt(xs0, st, outs, a - 1) && AnnotAt(xs0, st, outs, a);
    } else {
      assert AnnotAt(xs0, st, outs, a - 1);
    }
  }

  /** A pair the test turns down: the walk passes i - 1 and nothing changes. */
  lemma StepKept(cur: seq<Instr>, xs0: seq<Instr>, st: nat, end: nat, outs: seq<Live>,
                 A: Live, out: Live, i: nat, j: nat)
    requires Inv(cur, xs0, st, end, outs, A, out, i) && st < i
    requires j == NextReal(cur, i, end) && j < end
    ensures Inv(cur, xs0, st, end, outs, A, out, i - 1)
  {
    var p := i - 1;
    AnnotNops(cur, xs0, st, end, outs, A, out, i, i, j);
    assert PassedAt(cur, xs0, st, end, outs, A, out, i, j);
    if cur[p] != Nop {
      var Wj := WAt(cur, xs0, st, outs, j);
      assert CleanAt(xs0, st, outs, A, j);
      ShapeLive(xs0[j], cur[j], outs[j - st], Wj);
      LiveSoundCons(cur, j, end, Wj, outs[p - st], A, out);
      LiveSoundNops(cur, p + 1, j, end, outs[p - st], A, out);
      LiveSoundMono(cur[p + 1..end], outs[p - st], WAt(cur, xs0, st, outs, p), A, out);
    }
    forall q | p < q < end ensures PassedAt(cur, xs0, st, end, outs, A, out, p, q) {
      assert PassedAt(cur, xs0, st, end, outs, A, out, i, q);
      if cur[q] == Nop && xs0[q] != Nop {
        var r :| i <= r < q && cur[r] != Nop;
        assert p <= r;
      }
    }
  }

  /** A pair the test accepts: the walk coalesces it, passes i - 1, and the new block can do
      what the old one did. */
  lemma StepPair(cur: seq<Instr>, xs0: seq<Instr>, st: nat, end: nat, outs: seq<Live>,
                 A: Live, out: Live, i: nat, j: nat)
    requires Inv(cur, xs0, st, end, outs, A, out, i) && st < i
    requires j == NextReal(cur, i, end) && j < end
    requires Coalescible(cur[i - 1], cur[j], outs[j - st])
    ensures Inv(Pair(cur, i - 1, j, outs[j - st]), xs0, st, end, outs, A, out, i - 1)
    ensures Simulates(cur[st..end], Pair(cur, i - 1, j, outs[j - st])[st..end], A, out)
  {
    var p, o := i - 1, outs[j - st];
    var x, y := cur[p], cur[j].lhs;
    var l := DefVar(x).value;
    var nw := Pair(cur, p, j, o);
    assert nw == cur[p := Renamed(x, y)][j := Nop];
    AnnotNops(cur, xs0, st, end, outs, A, out, i, i, j);
    assert PassedAt(cur, xs0, st, end, outs, A, out, i, j);
    var Wj := WAt(cur, xs0, st, outs, j);
    assert Wj == o - Kill(xs0[j]) + {y};
    PairSim(cur, st, end, p, j, o, Wj, A, out);
    var Wp := WAt(nw, xs0, st, outs, p);
    KillDef(x);
    KillDef(Renamed(x, y));
    assert Wp == outs[p - st] - {l} + {y};
    LiveInKeeps(xs0[j], o);
    assert Wj <= Wp;
    assert nw[j + 1..end] == cur[j + 1..end];
    LiveSoundMono(nw[j + 1..end], Wj, Wp, A, out);
    LiveSoundNops(nw, p + 1, j + 1, end, Wp, A, out);
    assert PassedAt(nw, xs0, st, end, outs, A, out, p, p);
    forall q | p < q < end ensures PassedAt(nw, xs0, st, end, outs, A, out, p, q) {
      if q == j {
        assert nw[p] != Nop;
      } else if q > j {
        PassedLater(cur, nw, xs0, st, end, outs, A, out, i, p, j, q);
      }
    }
  }

  /** The coalesced pair simulates the original from the block's start on. */
  lemma PairSim(cur: seq<Instr>, st: nat, end: nat, p: nat, j: nat, o: Live, W: Live, A: Live, out: Live)
    requires st <= p < j < end <= |cur| && forall q | p < q < j :: cur[q] == Nop
    requires Coalescible(cur[p], cur[j], o)
    requires DefVar(cur[p]).value != cur[j].lhs ==> DefVar(cur[p]).value !in W && cur[j].lhs in W
    requires LiveSound(cur[j + 1..end], W, A, out)
    ensures Simulates(cur[st..end], Pair(cur, p, j, o)[st..end], A, out)
  {
    PairSimulates(cur, p, j, end, o, W, A, out);
    SimPrefix(cur, Pair(cur, p, j, o), st, p, end, A, out);
  }

  /** Past the coalesced move nothing changed, and a position that had become a nop still
      has one that is not a nop before it. */
  lemma PassedLater(cur: seq<Instr>, nw: seq<Instr>, xs0: seq<Instr>, st: nat, end: nat, outs: seq<Live>,
                    A: Live, out: Live, i: nat, p: nat, j: nat, q: nat)
    requires Inv(cur, xs0, st, end, outs, A, out, i) && p + 1 == i && i <= j < q < end
    requires |nw| == |cur| && nw[p] != Nop && forall r | 0 <= r < |cur| && r != p && r != j :: nw[r] == cur[r]
    ensures PassedAt(nw, xs0, st, end, outs, A, out, p, q)
  {
    assert PassedAt(cur, xs0, st, end, outs, A, out, i, q);
    assert nw[q + 1..end] == cur[q + 1..end];
    if nw[q] == Nop && xs0[q] != Nop {
      var r :| i <= r < q && cur[r] != Nop;
      if r == j {
        assert p <= p < q && nw[p] != Nop;
      } else {
        assert nw[r] != Nop;
      }
    }
  }

  /** At the walk's start every position is its own, and the last one needs what is live
      after the block. */
  lemma InvStart(xs0: seq<Instr>, st: nat, end: nat, outs: seq<Live>, A: Live, out: Live)
    requires st < end <= |xs0| && |outs| == end - st && outs[|outs| - 1] == out
    requires forall q | st <= q < end - 1 :: AnnotAt(xs0, st, outs, q)
    requires forall q | st <= q < end :: CleanAt(xs0, st, outs, A, q)
    ensures Inv(xs0, xs0, st, end, outs, A, out, end - 1)
  {
    var q := end - 1;
    assert xs0[q + 1..end] == [];
    LiveSoundEmpty(WAt(xs0, xs0, st, outs, q), A, out);
  }

  /** The walk from i on, as `Coalesce` states it, can do what cur does. */
  lemma {:induction false} CoalesceSim(cur: seq<Instr>, xs0: seq<Instr>, st: nat, end: nat, outs: seq<Live>,
                                       A: Live, out: Live, i: nat) returns (res: seq<Instr>)
    requires Inv(cur, xs0, st, end, outs, A, out, i)
    ensures res == Coalesce(cur, st, end, outs, i) && |res| == |cur|
    ensures Simulates(cur[st..end], res[st..end], A, out)
    decreases i
  {
    var j := if i <= st then end else NextReal(cur, i, end);
    CoalesceUnfold(cur, st, end, outs, i, j);
    if j == end {
      res := cur;
      SimRefl(cur[st..end], A, out);
    } else {
      var nw := Turn(cur, xs0, st, end, outs, A, out, i, j);
      res := CoalesceSim(nw, xs0, st, end, outs, A, out, i - 1);
      SimTrans(cur[st..end], nw[st..end], res[st..end], A, out);
    }
  }

  /** One turn of the walk, whichever way the test goes. */
  lemma Turn(cur: seq<Instr>, xs0: seq<Instr>, st: nat, end: nat, outs: seq<Live>,
             A: Live, out: Live, i: nat, j: nat) returns (nw: seq<Instr>)
    requires Inv(cur, xs0, st, end, outs, A, out, i) && st < i
    requires j == NextReal(cur, i, end) && j < end
    ensures nw == Pair(cur, i - 1, j, outs[j - st])
    ensures Inv(nw, xs0, st, end, outs, A, out, i - 1)
    ensures Simulates(cur[st..end], nw[st..end], A, out)
  {
    nw := Pair(cur, i - 1, j, outs[j - st]);
    if Coalescible(cur[i - 1], cur[j], outs[j - st]) {
      StepPair(cur, xs0, st, end, outs, A, out, i, j);
    } else {
      StepKept(cur, xs0, st, end, outs, A, out, i, j);
      SimRefl(cur[st..end], A, out);
    }
  }

  /** One turn of `Coalesce`: nothing is left when i reaches st or no instruction follows;
      otherwise the walk goes on from the pair's result. */
  lemma CoalesceUnfold(cur: seq<Instr>, st: nat, end: nat, outs: seq<Live>, i: nat, j: nat)
    requires st <= i <= end <= |cur| && |outs| == end - st
    requires j == if i <= st then end else NextReal(cur, i, end)
    ensures j == end ==> Coalesce(cur, st, end, outs, i) == cur
    ensures j < end ==> st < i <= j && Coalesce(cur, st, end, outs, i) == Coalesce(Pair(cur, i - 1, j, outs[j - st]), st, end, outs, i - 1)
  {
  }

  /** Elimination leaves the live sets as they were. */
  lemma ElimKeepsLive(x: Instr, o: Live)
    ensures LiveIn(ElimDead(o, x), o) == LiveIn(x, o)
  {
  }

  /** The eliminated block is clean and annotated by the live sets of the original. */
  lemma ElimInv(orig: seq<Instr>, cur: seq<Instr>, st: nat, end: nat, e: Live, outs: seq<Live>, A: Live)
    requires st < end <= |orig| == |cur| && |outs| == end - st
    requires forall k | 0 <= k < |outs| :: outs[k] == LiveBefore(e, orig[st + k + 1..end])
    requires forall q | st <= q < end :: cur[q] == ElimDead(LiveBefore(e, orig[q + 1..end]), orig[q])
    requires ArrayVars(A, e, orig[st..end])
    ensures Inv(cur, cur, st, end, outs, A, e, end - 1)
  {
    forall q | st <= q < end - 1 ensures AnnotAt(cur, st, outs, q) {
      var k := q - st;
      assert outs[k] == LiveBefore(e, orig[st + k + 1..end]);
      assert outs[k + 1] == LiveBefore(e, orig[st + (k + 1) + 1..end]);
      assert orig[q + 1..end][1..] == orig[q + 2..end];
      ElimKeepsLive(orig[q + 1], outs[q + 1 - st]);
    }
    forall q | st <= q < end ensures CleanAt(cur, st, outs, A, q) {
      var k := q - st;
      assert outs[k] == LiveBefore(e, orig[st + k + 1..end]);
      assert orig[st..end][q - st] == orig[q] && orig[st..end][q - st + 1..] == orig[q + 1..end];
    }
    assert orig[end..end] == [];
    InvStart(cur, st, end, outs, A, e);
  }

  /**
   * `ir_livevar_elim_bb` and then `ir_livevar_elim2_bb` on the block [st, end) of orig are
   * sound together: cur holds the eliminated block, outs[k] the live set below position
   * st + k and e the one after the block. From stores agreeing on the block's live-in set,
   * the coalesced block can end in a store agreeing on e with wherever the original block
   * ends; agreement is up to array variables the block reads only through an address or a
   * load.
   */
  lemma CoalesceSound(orig: seq<Instr>, cur: seq<Instr>, st: nat, end: nat, e: Live, outs: seq<Live>,
                      A: Live, s: Store, t: Store, s2: Store)
    requires st < end <= |orig| == |cur| && |outs| == end - st
    requires forall k | 0 <= k < |outs| :: outs[k] == LiveBefore(e, orig[st + k + 1..end])
    requires forall q | st <= q < end :: cur[q] == ElimDead(LiveBefore(e, orig[q + 1..end]), orig[q])
    requires ArrayVars(A, e, orig[st..end])
    requires Agree(s, t, LiveBefore(e, orig[st..end]) - A) && Run(s, orig[st..end], s2)
    ensures exists t2 :: Run(t, Coalesce(cur, st, end, outs, end - 1)[st..end], t2) && Agree(s2, t2, e - A)
  {
    var t2 := ElimRun(orig, cur, st, end, e, A, s, t, s2);
    var res := ElimSim(orig, cur, st, end, e, outs, A);
    var t3 := SimRun(cur[st..end], res[st..end], A, e, t, t2, s2);
  }

  /** The walk over the eliminated block can do what that block does. */
  lemma ElimSim(orig: seq<Instr>, cur: seq<Instr>, st: nat, end: nat, e: Live, outs: seq<Live>, A: Live)
    returns (res: seq<Instr>)
    requires st < end <= |orig| == |cur| && |outs| == end - st
    requires forall k | 0 <= k < |outs| :: outs[k] == LiveBefore(e, orig[st + k + 1..end])
    requires forall q | st <= q < end :: cur[q] == ElimDead(LiveBefore(e, orig[q + 1..end]), orig[q])
    requires ArrayVars(A, e, orig[st..end])
    ensures res == Coalesce(cur, st, end, outs, end - 1) && |res| == |cur|
    ensures Simulates(cur[st..end], res[st..end], A, e)
  {
    ElimInv(orig, cur, st, end, e, outs, A);
    res := CoalesceSim(cur, cur, st, end, outs, A, e, end - 1);
  }

  /** The eliminated block can end where the original one does, as `ElimSeqSound` states. */
  lemma ElimRun(orig: seq<Instr>, cur: seq<Instr>, st: nat, end: nat, e: Live, A: Live,
                s: Store, t: Store, s2: Store) returns (t2: Store)
    requires st < end <= |orig| == |cur|
    requires forall q | st <= q < end :: cur[q] == ElimDead(LiveBefore(e, orig[q + 1..end]), orig[q])
    requires ArrayVars(A, e, orig[st..end])
    requires Agree(s, t, LiveBefore(e, orig[st..end]) - A) && Run(s, orig[st..end], s2)
    ensures Run(t, cur[st..end], t2) && Agree(s2, t2, e - A)
  {
    SliceElim(orig, cur, e, st, end);
    ElimSeqSound(e, A, orig[st..end], s, t, s2);
    t2 :| Run(t, cur[st..end], t2) && Agree(s2, t2, e - A);
  }

  /** A run of xs that agrees with s2 carries over to ys when ys simulates xs. */
  lemma SimRun(xs: seq<Instr>, ys: seq<Instr>, A: Live, out: Live, t: Store, t2: Store, s2: Store)
    returns (t3: Store)
    requires Simulates(xs, ys, A, out) && Run(t, xs, t2) && Agree(s2, t2, out - A)
    ensures Run(t, ys, t3) && Agree(s2, t3, out - A)
  {
    t3 :| Run(t, ys, t3) && Agree(t2, t3, out - A);
    assert Agree(s2, t3, out - A);
  }
}
