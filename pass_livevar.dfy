/**
 * `ir_livevar`: live variables. A backward analysis with union as its meet
 * finds, before and after every instruction, the variables whose current value
 * may still be read; a move, arithmetic, address, load or array declaration
 * whose variable is dead afterwards becomes a nop. On the final rounds a
 * definition followed (past nops) by a move that only copies it into another
 * variable defines that variable directly, and, when nothing changed at all,
 * the variables live across a call, read or write are collected for the
 * register allocator.
 */
module LivevarPass {
  import opened Base
  import opened IrTypes
  import opened IrEval
  import opened Dataflow
  import opened IrProgram
  import opened CfgBuild
  import opened Passes
  import opened Sweep

  /** A set of variables (a bitset over the variable ids). */
  type Live = set<nat>

  /** The variable an operand reads, if it is one. */
  function VarOf(o: Opr): Live
  {
    if o.Var? then {o.id} else {}
  }

  /** The variables among a call's arguments. */
  function ArgVars(args: seq<Opr>): (r: Live)
    ensures forall k | 0 <= k < |args| && args[k].Var? :: args[k].id in r
  {
    set k | 0 <= k < |args| && args[k].Var? :: args[k].id
  }

  /**
   * The per-instruction visitors: the live set before x from the live set after it.
   * A definition kills its variable; a move, arithmetic, address or load reads its
   * operands only when the variable it defined was live; a call kills its result and
   * then reads its arguments; a declaration and a read kill their variable.
   */
  function LiveIn(x: Instr, out: Live): Live
  {
    match x
    case Func(_, ps) => out - Defs(x)
    case Mov(l, r) => if l in out then out - {l} + VarOf(r) else out
    case Arth(l, a, b, _) => if l in out then out - {l} + VarOf(a) + VarOf(b) else out
    case Addr(l, v) => if l in out then out - {l} + {v} else out
    case Load(l, v) => if l in out then out - {l} + {v} else out
    case Store(a, r) => out + {a} + VarOf(r)
    case Branch(a, b, _, _, _) => out + VarOf(a) + VarOf(b)
    case Ret(o) => out + VarOf(o)
    case Alloc(v, _) => out - {v}
    case Call(l, _, args) => out - {l} + ArgVars(args)
    case Read(l) => out - {l}
    case Write(o) => out + VarOf(o)
    case _ => out
  }

  /** `ir_livevar_transfer_bb` on a list: the live set before xs from the one after it. */
  function LiveBefore(out: Live, xs: seq<Instr>): Live
    decreases |xs|
  {
    if |xs| == 0 then out else LiveIn(xs[0], LiveBefore(out, xs[1..]))
  }

  /** The variable whose definition `ir_livevar_elim_bb` may drop. */
  predicate Droppable(x: Instr)
  {
    x.Mov? || x.Arth? || x.Addr? || x.Load? || x.Alloc?
  }

  function DroppedVar(x: Instr): nat
    requires Droppable(x)
  {
    if x.Alloc? then x.v else x.lhs
  }

  /** `ir_livevar_elim_bb` at one position: a droppable definition of a variable not live
      afterwards becomes a nop. */
  function ElimDead(out: Live, x: Instr): (y: Instr)
    ensures y == x || (y == Nop && Droppable(x) && DroppedVar(x) !in out)
    ensures Droppable(x) && DroppedVar(x) !in out ==> y == Nop
  {
    if Droppable(x) && DroppedVar(x) !in out then Nop else x
  }

  /** Stores s and t agree on the variables of L. */
  ghost predicate Agree(s: Store, t: Store, L: Live)
  {
    forall v | v in L :: Val(s, v) == Val(t, v)
  }

  /** Store t with the variables of d taken from s2. */
  function Follow(t: Store, s2: Store, d: set<nat>): (u: Store)
    ensures forall v :: Val(u, v) == if v in d then Val(s2, v) else Val(t, v)
  {
    map v | v in t.Keys + s2.Keys :: if v in d then Val(s2, v) else Val(t, v)
  }

  /**
   * The variables an instruction reads for their value: those its step, the values it
   * hands out and a branch's decision depend on. An address and a load define a value
   * this model leaves open, so the variable they name is not among them.
   */
  function ValueReads(x: Instr): Live
  {
    match x
    case Mov(_, r) => VarOf(r)
    case Arth(_, a, b, _) => VarOf(a) + VarOf(b)
    case Store(a, r) => {a} + VarOf(r)
    case Branch(a, b, _, _, _) => VarOf(a) + VarOf(b)
    case Ret(o) => VarOf(o)
    case Write(o) => VarOf(o)
    case Call(_, _, args) => ArgVars(args)
    case _ => {}
  }

  /**
   * Liveness is sound and elimination keeps meaning: when s and t agree on the variables
   * live before x and x leads from s to s2, what elimination leaves at x leads from t to
   * a store agreeing with s2 on the variables live after x, hands out the same values,
   * and a branch decides the same way. Agreement is up to the array variables A, which
   * x does not read for their value: declaring an array defines no value in this model,
   * so a declaration still live afterwards must declare one of them (with A empty, the
   * declaration must be dead).
   */
  lemma ElimSound(x: Instr, out: Live, A: Live, s: Store, t: Store, s2: Store)
    requires x.Alloc? ==> x.v in A || x.v !in out
    requires ValueReads(x) !! A
    requires Agree(s, t, LiveIn(x, out) - A) && Step(s, x, s2)
    ensures var y := ElimDead(out, x); var t2 := Follow(t, s2, Defs(y));
      Step(t, y, t2) && Agree(s2, t2, out - A) && Emits(t, y) == Emits(s, x)
    ensures x.Branch? ==> Taken(t, x.opr1, x.opr2, x.rel) == Taken(s, x.opr1, x.opr2, x.rel)
  {
    var y := ElimDead(out, x);
    LiveInCovers(x, out, A);
    AgreeAfter(out - A, LiveIn(x, out) - A, Defs(x), Defs(y), s, t, s2);
    if y == Nop {
      assert Step(t, y, Follow(t, s2, Defs(y)));
    } else {
      KeptSound(x, out, A, s, t, s2);
    }
  }

  /** What the variables live after x need from before it: everything x does not
      define, and, when x is kept, the variables it reads. */
  lemma LiveInCovers(x: Instr, out: Live, A: Live)
    requires x.Alloc? ==> x.v in A || x.v !in out
    ensures var y := ElimDead(out, x); (out - A) - Defs(y) <= LiveIn(x, out) - A && Defs(x) * (out - A) <= Defs(y)
  {
  }

  /** Agreement carries over a step that defines dx from s and dy from t, when the
      variables live after it are live before it or redefined on both sides. */
  lemma AgreeAfter(out: Live, L: Live, dx: set<nat>, dy: set<nat>, s: Store, t: Store, s2: Store)
    requires out - dy <= L && dx * out <= dy && Agree(s, t, L) && Keeps(s, s2, dx)
    ensures Agree(s2, Follow(t, s2, dy), out)
  {
    var t2 := Follow(t, s2, dy);
    forall v | v in out ensures Val(s2, v) == Val(t2, v) {
      if v !in dy {
        assert v in L && v !in dx;
      }
    }
  }

  /** A kept instruction reads only live variables: from t it can step like it did from s,
      hands out the same values, and a branch decides the same way. */
  lemma KeptSound(x: Instr, out: Live, A: Live, s: Store, t: Store, s2: Store)
    requires ElimDead(out, x) == x && ValueReads(x) !! A
    requires Agree(s, t, LiveIn(x, out) - A) && Step(s, x, s2)
    ensures Step(t, x, Follow(t, s2, Defs(x))) && Emits(t, x) == Emits(s, x)
    ensures x.Branch? ==> Taken(t, x.opr1, x.opr2, x.rel) == Taken(s, x.opr1, x.opr2, x.rel)
  {
    var L := LiveIn(x, out) - A;
    match x {
      case Mov(l, r) =>
        assert VarOf(r) <= L;
        KeptMov(l, r, s, t, s2);
      case Arth(l, a, b, op) =>
        assert VarOf(a) <= L && VarOf(b) <= L;
        KeptArth(l, a, b, op, s, t, s2);
      case Store(a, r) =>
        assert {a} + VarOf(r) <= L;
        KeptReads(x, {a} + VarOf(r), s, t, s2);
      case Branch(a, b, _, _, _) =>
        assert VarOf(a) + VarOf(b) <= L;
        KeptReads(x, VarOf(a) + VarOf(b), s, t, s2);
      case Ret(o) =>
        assert VarOf(o) <= L;
        KeptReads(x, VarOf(o), s, t, s2);
      case Write(o) =>
        assert VarOf(o) <= L;
        KeptReads(x, VarOf(o), s, t, s2);
      case Call(l, f, args) =>
        assert ArgVars(args) <= L;
        CallArgsSame(args, s, t, l);
        assert Emits(t, x) == Emits(t, Call(l, "", args)) && Emits(s, x) == Emits(s, Call(l, "", args));
      case _ => KeptPlain(x, s, t, s2);
    }
  }

  /** A move whose operand both stores agree on. */
  lemma KeptMov(l: nat, r: Opr, s: Store, t: Store, s2: Store)
    requires Agree(s, t, VarOf(r)) && Step(s, Mov(l, r), s2)
    ensures Step(t, Mov(l, r), Follow(t, s2, {l}))
  {
    assert OprVal(t, r) == OprVal(s, r);
  }

  /** An arithmetic whose operands both stores agree on. */
  lemma KeptArth(l: nat, a: Opr, b: Opr, op: ArithOp, s: Store, t: Store, s2: Store)
    requires Agree(s, t, VarOf(a) + VarOf(b)) && Step(s, Arth(l, a, b, op), s2)
    ensures Step(t, Arth(l, a, b, op), Follow(t, s2, {l}))
  {
    assert OprVal(t, a) == OprVal(s, a) && OprVal(t, b) == OprVal(s, b);
  }

  /** An instruction that defines nothing and reads the variables of u, on which both
      stores agree. */
  lemma KeptReads(x: Instr, u: Live, s: Store, t: Store, s2: Store)
    requires x.Store? || x.Branch? || x.Ret? || x.Write?
    requires u == match x
      case Store(a, r) => {a} + VarOf(r)
      case Branch(a, b, _, _, _) => VarOf(a) + VarOf(b)
      case Ret(o) => VarOf(o)
      case Write(o) => VarOf(o)
      case _ => {}
    requires Agree(s, t, u) && Step(s, x, s2)
    ensures Step(t, x, Follow(t, s2, Defs(x))) && Emits(t, x) == Emits(s, x)
    ensures x.Branch? ==> Taken(t, x.opr1, x.opr2, x.rel) == Taken(s, x.opr1, x.opr2, x.rel)
  {
  }

  /** An instruction that reads no variable steps alike from any store. */
  lemma KeptPlain(x: Instr, s: Store, t: Store, s2: Store)
    requires !x.Mov? && !x.Arth? && !x.Store? && !x.Branch? && !x.Ret? && !x.Write? && !x.Call?
    requires Step(s, x, s2)
    ensures Step(t, x, Follow(t, s2, Defs(x))) && Emits(t, x) == Emits(s, x)
  {
  }

  /** Stores agreeing on a call's argument variables pass the same values. */
  lemma CallArgsSame(args: seq<Opr>, s: Store, t: Store, l: nat)
    requires Agree(s, t, ArgVars(args))
    ensures Emits(t, Call(l, "", args)) == Emits(s, Call(l, "", args))
  {
  }

  /** `ir_livevar_elim_bb` on a list whose live-out set is out. */
  function ElimSeq(out: Live, xs: seq<Instr>): (ys: seq<Instr>)
    ensures |ys| == |xs|
    decreases |xs|
  {
    if |xs| == 0 then [] else [ElimDead(LiveBefore(out, xs[1..]), xs[0])] + ElimSeq(out, xs[1..])
  }

  /**
   * A holds the array variables of xs: no instruction reads one for its value, and a
   * declaration whose variable is still live after it declares one of them.
   */
  predicate ArrayVars(A: Live, out: Live, xs: seq<Instr>)
  {
    forall k | 0 <= k < |xs| ::
      ValueReads(xs[k]) !! A && (xs[k].Alloc? ==> xs[k].v in A || xs[k].v !in LiveBefore(out, xs[k + 1..]))
  }

  /**
   * Elimination over a whole list is sound: from stores agreeing on the variables live
   * before xs, the eliminated list can end in a store agreeing, on the variables live
   * after xs, with wherever xs ends; agreement is up to the array variables.
   */
  lemma {:induction false} ElimSeqSound(out: Live, A: Live, xs: seq<Instr>, s: Store, t: Store, s2: Store)
    requires ArrayVars(A, out, xs)
    requires Agree(s, t, LiveBefore(out, xs) - A) && Run(s, xs, s2)
    ensures exists t2 :: Run(t, ElimSeq(out, xs), t2) && Agree(s2, t2, out - A)
    decreases |xs|
  {
    if |xs| == 0 {
      assert Run(t, [], t) && Agree(s2, t, out - A);
    } else {
      var rest := xs[1..];
      var s1 :| Step(s, xs[0], s1) && Run(s1, rest, s2);
      var y := ElimDead(LiveBefore(out, rest), xs[0]);
      var t1 := Follow(t, s1, Defs(y));
      assert xs[0].Alloc? ==> xs[0].v in A || xs[0].v !in LiveBefore(out, xs[0 + 1..]);
      assert ValueReads(xs[0]) !! A;
      ElimSound(xs[0], LiveBefore(out, rest), A, s, t, s1);
      assert ArrayVars(A, out, rest) by {
        forall k | 0 <= k < |rest|
          ensures ValueReads(rest[k]) !! A && (rest[k].Alloc? ==> rest[k].v in A || rest[k].v !in LiveBefore(out, rest[k + 1..]))
        {
          assert xs[k + 1] == rest[k] && xs[k + 1 + 1..] == rest[k + 1..];
        }
      }
      ElimSeqSound(out, A, rest, s1, t1, s2);
      var t2 :| Run(t1, ElimSeq(out, rest), t2) && Agree(s2, t2, out - A);
      assert ElimSeq(out, xs)[0] == y && ElimSeq(out, xs)[1..] == ElimSeq(out, rest);
      assert Run(t, ElimSeq(out, xs), t2);
    }
  }

  /** The variable an instruction defines, for the kinds `ir_livevar_elim2_bb` may rename. */
  function DefVar(x: Instr): (r: Option<nat>)
    ensures r.Some? <==> x.Mov? || x.Arth? || x.Addr? || x.Load? || x.Call? || x.Read?
    ensures r.Some? ==> Defs(x) == {r.value}
  {
    match x
    case Mov(l, _) => Some(l)
    case Arth(l, _, _, _) => Some(l)
    case Addr(l, _) => Some(l)
    case Load(l, _) => Some(l)
    case Call(l, _, _) => Some(l)
    case Read(l) => Some(l)
    case _ => None
  }

  /** x defining y instead of its own variable. */
  function Renamed(x: Instr, y: nat): (r: Instr)
    requires DefVar(x).Some?
    ensures DefVar(r) == Some(y)
    ensures r.Mov? == x.Mov? && r.Arth? == x.Arth? && r.Addr? == x.Addr? && r.Load? == x.Load?
    ensures r.Call? == x.Call? && r.Read? == x.Read?
  {
    match x
    case Mov(_, o) => Mov(y, o)
    case Arth(_, a, b, op) => Arth(y, a, b, op)
    case Addr(_, v) => Addr(y, v)
    case Load(_, v) => Load(y, v)
    case Call(_, f, args) => Call(y, f, args)
    case Read(_) => Read(y)
  }

  /** Renaming the defined variable, and turning a move into a nop, keep the block shape. */
  lemma RenamedFits(x: Instr, y: nat)
    requires DefVar(x).Some?
    ensures Fits(x, Renamed(x, y)) && Fits(x, Nop)
  {
  }

  /** The next instruction at or after j that is not a nop, or end if there is none. */
  function NextReal(irs: seq<Instr>, j: nat, end: nat): (k: nat)
    requires j <= end <= |irs|
    ensures j <= k <= end && (k < end ==> irs[k] != Nop)
    ensures forall q | j <= q < k :: irs[q] == Nop
    decreases end - j
  {
    if j == end || irs[j] != Nop then j else NextReal(irs, j + 1, end)
  }

  /** `ir_livevar_elim2_bb`'s test: mv copies the variable x defines into another one, and
      the copied variable is not live after mv. */
  predicate Coalescible(x: Instr, mv: Instr, out: Live)
  {
    mv.Mov? && mv.rhs.Var? && DefVar(x) == Some(mv.rhs.id) && mv.rhs.id !in out
  }

  /** The pair at p and j: coalesced when the test holds. */
  function Pair(irs: seq<Instr>, p: nat, j: nat, out: Live): (r: seq<Instr>)
    requires p < j < |irs|
    ensures |r| == |irs|
  {
    if Coalescible(irs[p], irs[j], out) then irs[p := Renamed(irs[p], irs[j].lhs)][j := Nop] else irs
  }

  /**
   * `ir_livevar_elim2_bb` on the block [st, end), from the position just before i down
   * to st: each position is paired with the next instruction that is not a nop, using
   * that instruction's live-out set (outs[k] belongs to position st + k); the walk stops
   * at the first position with no such instruction.
   */
  function Coalesce(irs: seq<Instr>, st: nat, end: nat, outs: seq<Live>, i: nat): (r: seq<Instr>)
    requires st <= i <= end <= |irs| && |outs| == end - st
    ensures |r| == |irs|
    decreases i, 1
  {
    if i <= st then irs else CoalesceAt(irs, st, end, outs, i, NextReal(irs, i, end))
  }

  /** The walk at i once j, the next instruction that is not a nop, is known. */
  function CoalesceAt(irs: seq<Instr>, st: nat, end: nat, outs: seq<Live>, i: nat, j: nat): (r: seq<Instr>)
    requires st < i <= j <= end <= |irs| && |outs| == end - st
    ensures |r| == |irs|
    decreases i, 0
  {
    if j == end then irs else Coalesce(Pair(irs, i - 1, j, outs[j - st]), st, end, outs, i - 1)
  }

  /** Running x and then s1 to s2 keeps what neither defines. */
  lemma KeepsCompose(s: Store, s1: Store, s2: Store, d1: set<nat>, d2: set<nat>)
    requires Keeps(s, s1, d1) && Keeps(s1, s2, d2)
    ensures Keeps(s, s2, d1 + d2)
  {
  }

  /**
   * Coalescing is sound: when x defines l, `y := l` follows it, l is dead after the move
   * and y is live (otherwise elimination would have dropped the move), then from a store
   * agreeing on the variables live before the pair, x renamed to define y reaches a store
   * agreeing with the pair's result on every variable live afterwards, and hands out the
   * same values.
   */
  lemma PairSound(x: Instr, y: nat, out: Live, s: Store, t: Store, s1: Store, s2: Store)
    requires DefVar(x).Some? && DefVar(x).value !in out && y in out
    requires Agree(s, t, LiveIn(x, LiveIn(Mov(y, Var(DefVar(x).value)), out)))
    requires Step(s, x, s1) && Step(s1, Mov(y, Var(DefVar(x).value)), s2)
    ensures var t2 := Follow(t, s2, {y});
      Step(t, Renamed(x, y), t2) && Agree(s2, t2, out) && Emits(t, Renamed(x, y)) == Emits(s, x)
  {
    var l := DefVar(x).value;
    var mid := LiveIn(Mov(y, Var(l)), out);
    assert l in mid;
    var L := LiveIn(x, mid);
    KeepsCompose(s, s1, s2, {l}, {y});
    assert out - {y} <= L;
    AgreeAfter(out, L, {l} + {y}, {y}, s, t, s2);
    RenamedStep(x, y, l, mid, s, t, s1, s2);
  }

  /** The renamed definition computes from t what x computed from s. */
  lemma RenamedStep(x: Instr, y: nat, l: nat, mid: Live, s: Store, t: Store, s1: Store, s2: Store)
    requires DefVar(x) == Some(l) && l in mid && Agree(s, t, LiveIn(x, mid))
    requires Step(s, x, s1) && Keeps(s1, s2, {y}) && Val(s2, y) == Val(s1, l)
    ensures Step(t, Renamed(x, y), Follow(t, s2, {y})) && Emits(t, Renamed(x, y)) == Emits(s, x)
  {
    match x {
      case Mov(_, r) =>
        assert VarOf(r) <= LiveIn(x, mid);
      case Arth(_, a, b, op) =>
        assert VarOf(a) <= LiveIn(x, mid) && VarOf(b) <= LiveIn(x, mid);
        assert OprVal(t, a) == OprVal(s, a) && OprVal(t, b) == OprVal(s, b);
      case Call(_, f, args) =>
        assert ArgVars(args) <= LiveIn(x, mid);
        CallArgsSame(args, s, t, l);
        assert Emits(t, Renamed(x, y)) == Emits(t, Call(l, "", args)) && Emits(s, x) == Emits(s, Call(l, "", args));
      case _ =>
    }
  }

  /** The live set after position q of block b, for block live-out sets e. */
  function OutAt(irs0: seq<Instr>, bbs: seq<Block>, e: seq<Live>, b: nat, q: nat): Live
  {
    if b < |bbs| && b < |e| && bbs[b].start <= q < bbs[b].end <= |irs0| then
      LiveBefore(e[b], irs0[q + 1..bbs[b].end])
    else {}
  }

  /** `ir_livevar_transfer_bb` as the driver calls it: block b's live-in set from its
      live-out set f. */
  function BlockTransfer(irs: seq<Instr>, bbs: seq<Block>, b: nat, f: Live): Live
  {
    if b < |bbs| && bbs[b].start <= bbs[b].end <= |irs| then LiveBefore(f, irs[bbs[b].start..bbs[b].end])
    else f
  }

  /** `ir_livevar_meet`: union. */
  function Union(a: Live, b: Live): Live
  {
    a + b
  }

  /** No block waits: `ir_livevar` passes no skip test. */
  predicate NoSkip(f: Live)
  {
    false
  }

  /** `ir_livevar_elim_bb` at position q of block b, under the live-out sets e. */
  function ElimAt(irs0: seq<Instr>, bbs: seq<Block>, e: seq<Live>, b: nat, q: nat, x: Instr): Instr
  {
    if b < |bbs| && b < |e| && bbs[b].start <= q < bbs[b].end <= |irs0| then ElimDead(OutAt(irs0, bbs, e, b, q), x)
    else x
  }

  function ElimRewrite(irs0: seq<Instr>, bbs: seq<Block>, e: seq<Live>): Rewrite
  {
    (b: nat, q: nat, x: Instr) => ElimAt(irs0, bbs, e, b, q, x)
  }

  /** Elimination only ever puts a fitting instruction in place. */
  lemma ElimFits(irs0: seq<Instr>, bbs: seq<Block>, e: seq<Live>)
    ensures AlwaysFits(ElimRewrite(irs0, bbs, e))
  {
  }

  /** Union obeys the laws the driver needs. */
  lemma UnionLaws()
    ensures MeetLaws(Union)
  {
    forall a: Live, b: Live ensures Union(Union(a, b), b) == Union(a, b) {
      assert (a + b) + b == a + b;
    }
    forall a: Live, b: Live, c: Live ensures Union(Union(a, b), c) == Union(Union(a, c), b) {
      assert (a + b) + c == (a + c) + b;
    }
  }

  /** The live sets solve the backward equations: a reachable block's live-in set is the
      transfer of its live-out set, which contains the live-in set of every reachable
      successor. */
  ghost predicate Solution(irs: seq<Instr>, bbs: seq<Block>, outs: seq<seq<nat>>, reach: seq<bool>,
                           e: seq<Live>, x: seq<Live>)
  {
    |e| == |bbs| + 1 && |x| == |bbs| + 1 && |reach| == |bbs| + 1 && |outs| == |bbs| + 1 &&
    forall b | 0 <= b < |bbs| && reach[b] ::
      x[b] == BlockTransfer(irs, bbs, b, e[b]) && Absorbs(Union, outs[b], reach, x, e[b])
  }

  /** Along every edge b -> c to a reachable block, agreeing on b's live-out set means
      agreeing on c's live-in set. */
  lemma EdgeSound(irs: seq<Instr>, bbs: seq<Block>, outs: seq<seq<nat>>, reach: seq<bool>,
                  e: seq<Live>, x: seq<Live>, b: nat, k: nat, s: Store, t: Store)
    requires Solution(irs, bbs, outs, reach, e, x)
    requires b < |bbs| && reach[b] && k < |outs[b]| && outs[b][k] < |x| && reach[outs[b][k]]
    requires Agree(s, t, e[b])
    ensures Agree(s, t, x[outs[b][k]])
  {
    assert Union(e[b], x[outs[b][k]]) == e[b];
  }

  /** Elimination on a list, position by position, is `ElimSeq`. */
  lemma {:induction false} ElimSeqAt(out: Live, xs: seq<Instr>, k: nat)
    requires k < |xs|
    ensures ElimSeq(out, xs)[k] == ElimDead(LiveBefore(out, xs[k + 1..]), xs[k])
    decreases k
  {
    if k > 0 {
      ElimSeqAt(out, xs[1..], k - 1);
      assert xs[1..][k - 1 + 1..] == xs[k + 1..];
    }
  }

  /**
   * The sweep leaves in every reachable block the eliminated block, so from stores
   * agreeing on the block's live-in set, the new block can end in a store agreeing, on
   * its live-out set, with wherever the old block ends. Agreement is up to a set A of
   * array variables that the block reads only through an address or a load.
   */
  lemma BlockSound(irs0: seq<Instr>, irs: seq<Instr>, bbs: seq<Block>, outs: seq<seq<nat>>, reach: seq<bool>,
                   e: seq<Live>, x: seq<Live>, b: nat, A: Live, s: Store, t: Store, s2: Store)
    requires Solution(irs0, bbs, outs, reach, e, x) && BlocksSound(irs0, bbs)
    requires SweptBlocks(irs0, irs, bbs, reach, ElimRewrite(irs0, bbs, e), |bbs|)
    requires b < |bbs| && reach[b] && ArrayVars(A, e[b], irs0[bbs[b].start..bbs[b].end])
    requires Agree(s, t, x[b] - A) && Run(s, irs0[bbs[b].start..bbs[b].end], s2)
    ensures exists t2 :: Run(t, irs[bbs[b].start..bbs[b].end], t2) && Agree(s2, t2, e[b] - A)
  {
    var st, end := bbs[b].start, bbs[b].end;
    var xs := irs0[st..end];
    SweptBlockIs(irs0, irs, bbs, reach, e, b);
    ElimSeqSound(e[b], A, xs, s, t, s2);
  }

  /** After the sweep, a reachable block holds its eliminated original. */
  lemma SweptBlockIs(irs0: seq<Instr>, irs: seq<Instr>, bbs: seq<Block>, reach: seq<bool>, e: seq<Live>, b: nat)
    requires SweptBlocks(irs0, irs, bbs, reach, ElimRewrite(irs0, bbs, e), |bbs|)
    requires b < |bbs| && b < |e| && reach[b]
    ensures irs[bbs[b].start..bbs[b].end] == ElimSeq(e[b], irs0[bbs[b].start..bbs[b].end])
  {
    var st, end := bbs[b].start, bbs[b].end;
    forall q | st <= q < end ensures q < |irs| == |irs0| && irs[q] == ElimDead(LiveBefore(e[b], irs0[q + 1..end]), irs0[q]) {
      SweptAt(irs0, irs, bbs, reach, e, b, q);
    }
    SliceElim(irs0, irs, e[b], st, end);
  }

  /** A stretch where every position holds its elimination holds `ElimSeq`. */
  lemma SliceElim(irs0: seq<Instr>, irs: seq<Instr>, out: Live, st: nat, end: nat)
    requires st <= end <= |irs0| == |irs|
    requires forall q | st <= q < end :: irs[q] == ElimDead(LiveBefore(out, irs0[q + 1..end]), irs0[q])
    ensures irs[st..end] == ElimSeq(out, irs0[st..end])
  {
    var xs := irs0[st..end];
    forall k | 0 <= k < end - st ensures irs[st..end][k] == ElimSeq(out, xs)[k] {
      ElimSeqAt(out, xs, k);
      assert irs0[st + k + 1..end] == xs[k + 1..];
    }
  }

  /** After the sweep, position q of reachable block b holds its elimination. */
  lemma SweptAt(irs0: seq<Instr>, irs: seq<Instr>, bbs: seq<Block>, reach: seq<bool>, e: seq<Live>, b: nat, q: nat)
    requires SweptBlocks(irs0, irs, bbs, reach, ElimRewrite(irs0, bbs, e), |bbs|)
    requires b < |bbs| && b < |e| && reach[b] && bbs[b].start <= q < bbs[b].end
    ensures q < |irs| == |irs0| && irs[q] == ElimDead(LiveBefore(e[b], irs0[q + 1..bbs[b].end]), irs0[q])
  {
    assert irs[q] == ElimRewrite(irs0, bbs, e)(b, q, irs0[q]);
  }

  /** The live-out sets of block b's positions, as `ir_livevar_elim2_bb` reads them. */
  function BlockOuts(irs0: seq<Instr>, bbs: seq<Block>, e: seq<Live>, b: nat): (r: seq<Live>)
    requires b < |bbs| && bbs[b].start <= bbs[b].end
    ensures |r| == bbs[b].end - bbs[b].start
    ensures forall k | 0 <= k < |r| :: r[k] == OutAt(irs0, bbs, e, b, bbs[b].start + k)
  {
    seq(bbs[b].end - bbs[b].start, (k: int) requires 0 <= k => OutAt(irs0, bbs, e, b, bbs[b].start + k))
  }

  /** `ir_analyse_cfg` with `ir_livevar_elim2_bb`: the reachable blocks below i coalesced in
      block order. */
  function Elim2Blocks(irs0: seq<Instr>, bbs: seq<Block>, reach: seq<bool>, orig: seq<Instr>, e: seq<Live>, i: nat)
    : (r: seq<Instr>)
    requires i <= |bbs| <= |reach|
    ensures |r| == |irs0|
    decreases i
  {
    if i == 0 then irs0
    else
      var prev := Elim2Blocks(irs0, bbs, reach, orig, e, i - 1);
      var b := i - 1;
      if reach[b] && bbs[b].start < bbs[b].end <= |irs0| then
        Coalesce(prev, bbs[b].start, bbs[b].end, BlockOuts(orig, bbs, e, b), bbs[b].end - 1)
      else prev
  }

  /** `ir_livevar_elim2_bb` on the block [st, end). */
  method Elim2Block(cfg: Cfg, st: nat, end: nat, outs: seq<Live>)
    requires cfg.Valid() && st < end <= |cfg.irs| && |outs| == end - st
    requires forall q | st <= q < end :: !cfg.irs[q].Label?
    modifies cfg
    ensures Kept(cfg, old(cfg.labels), old(cfg.nextJid), old(cfg.exprMap), old(cfg.Shape()))
    ensures cfg.irs == Coalesce(old(cfg.irs), st, end, outs, end - 1)
    ensures AllFit(old(cfg.irs), cfg.irs)
  {
    ghost var irs0 := cfg.irs;
    ghost var goal := Coalesce(irs0, st, end, outs, end - 1);
    var i := end - 1;
    while i > st
      invariant st <= i <= end - 1
      invariant Kept(cfg, old(cfg.labels), old(cfg.nextJid), old(cfg.exprMap), old(cfg.Shape()))
      invariant AllFit(irs0, cfg.irs)
      invariant Walked(cfg.irs, st, end, outs, i, goal)
      decreases i
    {
      var stop := Elim2Step(cfg, st, end, outs, i, irs0, goal);
      if stop {
        return;
      }
      i := i - 1;
    }
  }

  /** Walking on from i in irs ends in goal. */
  predicate Walked(irs: seq<Instr>, st: nat, end: nat, outs: seq<Live>, i: nat, goal: seq<Instr>)
  {
    st <= i <= end <= |irs| && |outs| == end - st && Coalesce(irs, st, end, outs, i) == goal
  }

  /** One turn of that walk: position i - 1 against the next instruction that is not a nop;
      the walk stops when there is none. */
  method Elim2Step(cfg: Cfg, st: nat, end: nat, outs: seq<Live>, i: nat, ghost irs0: seq<Instr>,
                   ghost goal: seq<Instr>) returns (stop: bool)
    requires cfg.Valid() && st < i < end <= |cfg.irs| && AllFit(irs0, cfg.irs)
    requires forall q | st <= q < end :: !irs0[q].Label?
    requires Walked(cfg.irs, st, end, outs, i, goal)
    modifies cfg
    ensures Kept(cfg, old(cfg.labels), old(cfg.nextJid), old(cfg.exprMap), old(cfg.Shape()))
    ensures AllFit(irs0, cfg.irs)
    ensures stop ==> cfg.irs == goal
    ensures !stop ==> Walked(cfg.irs, st, end, outs, i - 1, goal)
  {
    var j := i;
    while j < end && cfg.irs[j] == Nop
      invariant i <= j <= end
      invariant forall q | i <= q < j :: cfg.irs[q] == Nop
      decreases end - j
    {
      j := j + 1;
    }
    assert j == NextReal(cfg.irs, i, end);
    assert goal == CoalesceAt(cfg.irs, st, end, outs, i, j);
    stop := j == end;
    if stop {
      return;
    }
    assert goal == Coalesce(Pair(cfg.irs, i - 1, j, outs[j - st]), st, end, outs, i - 1);
    assert !irs0[i - 1].Label? && !irs0[j].Label?;
    PlacePair(cfg, irs0, i - 1, j, outs[j - st]);
  }

  /** The pair at p and j, coalesced in place when `ir_livevar_elim2_bb`'s test holds. */
  method PlacePair(cfg: Cfg, ghost irs0: seq<Instr>, p: nat, j: nat, out: Live)
    requires cfg.Valid() && p < j < |cfg.irs| && AllFit(irs0, cfg.irs)
    requires !irs0[p].Label? && !irs0[j].Label?
    modifies cfg
    ensures Kept(cfg, old(cfg.labels), old(cfg.nextJid), old(cfg.exprMap), old(cfg.Shape()))
    ensures cfg.irs == Pair(old(cfg.irs), p, j, out) && AllFit(irs0, cfg.irs)
  {
    var x, mv := cfg.irs[p], cfg.irs[j];
    if Coalescible(x, mv, out) {
      ghost var before := cfg.irs;
      assert Fits(irs0[p], x) && Fits(irs0[j], mv);
      RenamedFits(x, mv.lhs);
      Place(cfg, p, Renamed(x, mv.lhs));
      RenamedFits(mv, mv.lhs);
      Place(cfg, j, Nop);
      PairFits(irs0, before, p, j, out);
    }
  }

  /** A coalesced pair still fits where the original instructions were. */
  lemma PairFits(irs0: seq<Instr>, before: seq<Instr>, p: nat, j: nat, out: Live)
    requires p < j < |before| && AllFit(irs0, before)
    ensures AllFit(irs0, Pair(before, p, j, out))
  {
    var after := Pair(before, p, j, out);
    if Coalescible(before[p], before[j], out) {
      RenamedFits(before[p], before[j].lhs);
      RenamedFits(before[j], before[j].lhs);
      forall q | 0 <= q < |irs0| ensures Fits(irs0[q], after[q]) {
        FitsTrans(irs0[q], before[q], after[q]);
      }
    }
  }

  /** `ir_analyse_cfg(cfg, ir_livevar_elim2_bb)`: every reachable block is coalesced. */
  method Elim2Cfg(cfg: Cfg, bbs: seq<Block>, reach: seq<bool>, orig: seq<Instr>, e: seq<Live>, ghost irs0: seq<Instr>)
    requires cfg.Valid() && BlocksSound(irs0, bbs) && |bbs| <= |reach| && AllFit(irs0, cfg.irs)
    modifies cfg
    ensures Kept(cfg, old(cfg.labels), old(cfg.nextJid), old(cfg.exprMap), old(cfg.Shape()))
    ensures cfg.irs == Elim2Blocks(old(cfg.irs), bbs, reach, orig, e, |bbs|)
    ensures AllFit(old(cfg.irs), cfg.irs)
  {
    ghost var start := cfg.irs;
    for i := 0 to |bbs|
      invariant Kept(cfg, old(cfg.labels), old(cfg.nextJid), old(cfg.exprMap), old(cfg.Shape()))
      invariant cfg.irs == Elim2Blocks(start, bbs, reach, orig, e, i)
      invariant AllFit(start, cfg.irs)
    {
      Elim2Next(cfg, bbs, reach, orig, e, irs0, start, i);
    }
  }

  /** One turn of the block loop: block i is coalesced when it is reachable. */
  method Elim2Next(cfg: Cfg, bbs: seq<Block>, reach: seq<bool>, orig: seq<Instr>, e: seq<Live>, ghost irs0: seq<Instr>,
                   ghost start: seq<Instr>, i: nat)
    requires cfg.Valid() && BlocksSound(irs0, bbs) && i < |bbs| <= |reach| && AllFit(irs0, start)
    requires cfg.irs == Elim2Blocks(start, bbs, reach, orig, e, i) && AllFit(start, cfg.irs)
    modifies cfg
    ensures Kept(cfg, old(cfg.labels), old(cfg.nextJid), old(cfg.exprMap), old(cfg.Shape()))
    ensures cfg.irs == Elim2Blocks(start, bbs, reach, orig, e, i + 1) && AllFit(start, cfg.irs)
  {
    if reach[i] {
      ghost var before := cfg.irs;
      var st, end := bbs[i].start, bbs[i].end;
      assert st < end <= |irs0|;
      forall q | st <= q < end ensures !cfg.irs[q].Label? {
        assert Fits(irs0[q], start[q]) && Fits(start[q], cfg.irs[q]);
      }
      var outs := BlockOuts(orig, bbs, e, i);
      Elim2Block(cfg, st, end, outs);
      AllFitTrans(start, before, cfg.irs);
    }
  }

  /** Calls, reads and writes are where `ir_livevar_cross_call_bb` looks. */
  predicate CrossSite(x: Instr)
  {
    x.Call? || x.Read? || x.Write?
  }

  /** The live set before position q of block b. */
  function InAt(irs0: seq<Instr>, bbs: seq<Block>, e: seq<Live>, b: nat, q: nat): Live
  {
    if b < |bbs| && b < |e| && bbs[b].start <= q < bbs[b].end <= |irs0| then
      LiveBefore(e[b], irs0[q..bbs[b].end])
    else {}
  }

  /** What the site at p adds: the variables live both before and after it. */
  function SiteCross(irs: seq<Instr>, bbs: seq<Block>, e: seq<Live>, b: nat, p: nat): Live
    requires p < |irs|
  {
    if CrossSite(irs[p]) then InAt(irs, bbs, e, b, p) * OutAt(irs, bbs, e, b, p) else {}
  }

  /** `ir_livevar_cross_call_bb` on the positions of block b below q. */
  function CrossUpTo(irs: seq<Instr>, bbs: seq<Block>, e: seq<Live>, b: nat, q: nat): Live
    decreases q
  {
    if b < |bbs| && bbs[b].start < q <= bbs[b].end <= |irs| then
      CrossUpTo(irs, bbs, e, b, q - 1) + SiteCross(irs, bbs, e, b, q - 1)
    else {}
  }

  /** The cross-call set from the reachable blocks below i. */
  function CrossBlocks(irs: seq<Instr>, bbs: seq<Block>, reach: seq<bool>, e: seq<Live>, i: nat): Live
    requires i <= |bbs| <= |reach|
    decreases i
  {
    if i == 0 then {}
    else
      var here := if reach[i - 1] then CrossUpTo(irs, bbs, e, i - 1, bbs[i - 1].end) else {};
      CrossBlocks(irs, bbs, reach, e, i - 1) + here
  }

  /** v is live across the call, read or write at position p of block b. */
  ghost predicate CrossAt(irs: seq<Instr>, bbs: seq<Block>, e: seq<Live>, b: nat, p: nat, v: nat)
  {
    b < |bbs| && bbs[b].start <= p < bbs[b].end <= |irs| && v in SiteCross(irs, bbs, e, b, p)
  }

  /** What a site adds is what is live both before and after it. */
  lemma SiteCrossIs(irs: seq<Instr>, bbs: seq<Block>, e: seq<Live>, b: nat, p: nat, v: nat)
    requires b < |bbs| && b < |e| && bbs[b].start <= p < bbs[b].end <= |irs|
    ensures v in SiteCross(irs, bbs, e, b, p) <==>
      CrossSite(irs[p]) && v in LiveBefore(e[b], irs[p..bbs[b].end]) && v in LiveBefore(e[b], irs[p + 1..bbs[b].end])
  {
  }

  /** Every site's contribution is collected. */
  lemma {:induction false} CrossUpToHas(irs: seq<Instr>, bbs: seq<Block>, e: seq<Live>, b: nat, q: nat, p: nat, v: nat)
    requires CrossAt(irs, bbs, e, b, p, v) && p < q <= bbs[b].end
    ensures v in CrossUpTo(irs, bbs, e, b, q)
    decreases q
  {
    if p < q - 1 {
      CrossUpToHas(irs, bbs, e, b, q - 1, p, v);
    }
  }

  /** Nothing but sites' contributions is collected. */
  lemma {:induction false} CrossUpToOnly(irs: seq<Instr>, bbs: seq<Block>, e: seq<Live>, b: nat, q: nat, v: nat)
    returns (p: nat)
    requires v in CrossUpTo(irs, bbs, e, b, q)
    ensures p < q && CrossAt(irs, bbs, e, b, p, v)
    decreases q
  {
    if v in SiteCross(irs, bbs, e, b, q - 1) {
      p := q - 1;
    } else {
      p := CrossUpToOnly(irs, bbs, e, b, q - 1, v);
    }
  }

  /**
   * The cross-call set holds every variable live both before and after some call, read
   * or write of a reachable block: the values that must survive the call.
   */
  lemma {:induction false} CrossBlocksHas(irs: seq<Instr>, bbs: seq<Block>, reach: seq<bool>, e: seq<Live>,
                                          i: nat, b: nat, p: nat, v: nat)
    requires i <= |bbs| <= |reach| && b < i && reach[b] && CrossAt(irs, bbs, e, b, p, v)
    ensures v in CrossBlocks(irs, bbs, reach, e, i)
    decreases i
  {
    if b < i - 1 {
      CrossBlocksHas(irs, bbs, reach, e, i - 1, b, p, v);
    } else {
      CrossUpToHas(irs, bbs, e, b, bbs[b].end, p, v);
    }
  }

  /** ... and nothing else: each of its variables is live across such a site. */
  lemma {:induction false} CrossBlocksOnly(irs: seq<Instr>, bbs: seq<Block>, reach: seq<bool>, e: seq<Live>,
                                           i: nat, v: nat) returns (b: nat, p: nat)
    requires i <= |bbs| <= |reach| && v in CrossBlocks(irs, bbs, reach, e, i)
    ensures b < i && reach[b] && CrossAt(irs, bbs, e, b, p, v)
    decreases i
  {
    if v in CrossBlocks(irs, bbs, reach, e, i - 1) {
      b, p := CrossBlocksOnly(irs, bbs, reach, e, i - 1, v);
    } else {
      b := i - 1;
      p := CrossUpToOnly(irs, bbs, e, b, bbs[b].end, v);
    }
  }

  /** `ir_livevar_cross_call_bb` on block b. */
  method CrossBlock(irs: seq<Instr>, bbs: seq<Block>, e: seq<Live>, b: nat) returns (cross: Live)
    requires b < |bbs| && bbs[b].start <= bbs[b].end <= |irs|
    ensures cross == CrossUpTo(irs, bbs, e, b, bbs[b].end)
  {
    cross := {};
    for p := bbs[b].start to bbs[b].end
      invariant cross == CrossUpTo(irs, bbs, e, b, p)
    {
      if CrossSite(irs[p]) {
        cross := cross + InAt(irs, bbs, e, b, p) * OutAt(irs, bbs, e, b, p);
      }
    }
  }

  /** `ir_analyse_cfg(cfg, ir_livevar_cross_call_bb)` from an empty set. */
  method CrossCall(irs: seq<Instr>, bbs: seq<Block>, reach: seq<bool>, e: seq<Live>) returns (cross: Live)
    requires BlocksSound(irs, bbs) && |bbs| <= |reach|
    ensures cross == CrossBlocks(irs, bbs, reach, e, |bbs|)
  {
    cross := {};
    for i := 0 to |bbs|
      invariant cross == CrossBlocks(irs, bbs, reach, e, i)
    {
      if reach[i] {
        var c := CrossBlock(irs, bbs, e, i);
        cross := cross + c;
      }
    }
  }

  /** The block live-out and live-in sets the driver starts from: all empty, the exit
      block's live-in set included. */
  function EmptySets(n: nat): (e0: seq<Live>)
    ensures |e0| == n + 1 && forall b | 0 <= b <= n :: e0[b] == {}
  {
    seq(n + 1, _ => {})
  }

  /** `ir_analyse_cfg` with elimination, then, on the final round, with coalescing, and,
      on a final round where nothing has changed so far, the cross-call set. */
  method LiveSweeps(cfg: Cfg, bbs: seq<Block>, e: seq<Live>, final: bool, prior: bool)
    returns (opt: bool, cross: Live, ghost elimd: seq<Instr>)
    requires Ready(cfg) && bbs == cfg.bbs
    modifies cfg
    ensures Kept(cfg, old(cfg.labels), old(cfg.nextJid), old(cfg.exprMap), old(cfg.Shape()))
    ensures SweptBlocks(old(cfg.irs), elimd, bbs, cfg.bbReach, ElimRewrite(old(cfg.irs), bbs, e), |bbs|)
    ensures final ==> cfg.irs == Elim2Blocks(elimd, bbs, cfg.bbReach, old(cfg.irs), e, |bbs|)
    ensures !final ==> cfg.irs == elimd
    ensures AllFit(old(cfg.irs), cfg.irs)
    ensures opt <==> cfg.irs != old(cfg.irs)
    ensures cross == if final && !prior && !opt then CrossBlocks(old(cfg.irs), bbs, cfg.bbReach, e, |bbs|) else {}
  {
    var irs, reach := cfg.irs, cfg.bbReach;
    ElimFits(irs, bbs, e);
    opt := SweepCfg(cfg, ElimRewrite(irs, bbs, e));
    elimd := cfg.irs;
    cross := {};
    if final {
      Elim2Cfg(cfg, bbs, reach, irs, e, irs);
      AllFitTrans(irs, elimd, cfg.irs);
      opt := cfg.irs != irs;
      if !prior && !opt {
        cross := CrossCall(irs, bbs, reach, e);
      }
    }
  }

  /**
   * One function (`ir_livevar`'s loop body): the backward analysis with the union meet
   * and no skip test, then elimination in every reachable block, coalescing on the final
   * round, and the cross-call set when the round is final and no function has changed so
   * far (prior says whether an earlier one did). The graph is not rebuilt. The sweeps run
   * only when the driver reached its fixpoint.
   */
  method LivevarCfg(cfg: Cfg, final: bool, prior: bool, fuel: nat)
    returns (opt: bool, cross: Live, done: bool, ghost e: seq<Live>, ghost x: seq<Live>, ghost elimd: seq<Instr>)
    requires Ready(cfg)
    modifies cfg
    ensures Ready(cfg) && cfg.Graph() == old(cfg.Graph()) && cfg.labels == old(cfg.labels)
    ensures cfg.reachable == old(cfg.reachable)
    ensures AllRelate(old(cfg.irs), cfg.irs)
    ensures !done ==> cfg.irs == old(cfg.irs) && !opt && cross == {}
    ensures done ==> Solution(old(cfg.irs), cfg.bbs, cfg.outs, cfg.bbReach, e, x)
    ensures done ==> SweptBlocks(old(cfg.irs), elimd, cfg.bbs, cfg.bbReach, ElimRewrite(old(cfg.irs), cfg.bbs, e), |cfg.bbs|)
    ensures done && final ==> cfg.irs == Elim2Blocks(elimd, cfg.bbs, cfg.bbReach, old(cfg.irs), e, |cfg.bbs|)
    ensures done && !final ==> cfg.irs == elimd
    ensures opt <==> cfg.irs != old(cfg.irs)
    ensures cross == if done && final && !prior && !opt then CrossBlocks(old(cfg.irs), cfg.bbs, cfg.bbReach, e, |cfg.bbs|) else {}
  {
    var irs, bbs, n := cfg.irs, cfg.bbs, |cfg.bbs|;
    var trans := (b: nat, f: Live) => BlockTransfer(irs, bbs, b, f);
    UnionLaws();
    var e0 := EmptySets(n);
    var e1, x1, d := IterCfg(cfg.outs, cfg.ins, cfg.bbReach, n, false, Union, NoSkip, trans, e0, e0, fuel);
    e, x, done := e1, x1, d;
    opt, cross := false, {};
    elimd := irs;
    if done {
      forall b | 0 <= b < n && cfg.bbReach[b]
        ensures x[b] == BlockTransfer(irs, bbs, b, e[b]) && Absorbs(Union, cfg.outs[b], cfg.bbReach, x, e[b])
      {
        assert Stable(cfg.outs, cfg.bbReach, Union, NoSkip, trans, e, x, b);
      }
      opt, cross, elimd := LiveSweeps(cfg, bbs, e1, final, prior);
    } else {
      assert AllFit(irs, cfg.irs);
    }
    AllFitRelates(irs, cfg.irs);
    RelateReady(irs, cfg.irs, bbs, cfg.labelBlock);
  }

  /** What the analysis and the sweeps of one function gave: where the driver drained,
      the sets solve the backward equations of its graph, every reachable block was
      eliminated under them (elimd) and, on the final round, coalesced (irs); where it did
      not drain, the code is untouched. A non-empty cross-call set is the one collected
      under that solution on a final round. */
  ghost predicate Pruned(irs0: seq<Instr>, bbs: seq<Block>, outs0: seq<seq<nat>>, reach0: seq<bool>,
                         final: bool, done: bool, e: seq<Live>, x: seq<Live>, elimd: seq<Instr>,
                         irs: seq<Instr>, cross: Live)
  {
    (done ==> Solution(irs0, bbs, outs0, reach0, e, x) &&
              SweptBlocks(irs0, elimd, bbs, reach0, ElimRewrite(irs0, bbs, e), |bbs|) &&
              (final ==> irs == Elim2Blocks(elimd, bbs, reach0, irs0, e, |bbs|)) &&
              (!final ==> irs == elimd)) &&
    (!done ==> irs == irs0) &&
    (cross != {} ==> done && final && cross == CrossBlocks(irs0, bbs, reach0, e, |bbs|))
  }

  /** Pruned holds of every reachable function below n, and an unreachable one kept its
      code and has no cross-call set (stated one function at a time; AllPrunedAt reads it
      back). */
  ghost predicate AllPruned(irs0: seq<seq<Instr>>, bbs0: seq<seq<Block>>, outs0: seq<seq<seq<nat>>>,
                            bbr0: seq<seq<bool>>, reach0: seq<bool>, final: bool, dones: seq<bool>,
                            es: seq<seq<Live>>, xs: seq<seq<Live>>, elimds: seq<seq<Instr>>,
                            news: seq<seq<Instr>>, crosses: seq<Live>, n: nat)
    decreases n
  {
    n <= |irs0| && n <= |bbs0| && n <= |outs0| && n <= |bbr0| && n <= |reach0| &&
    |dones| == |es| == |xs| == |elimds| == |news| == |crosses| == n &&
    (n > 0 ==>
      AllPruned(irs0, bbs0, outs0, bbr0, reach0, final, dones[..n - 1], es[..n - 1], xs[..n - 1],
                elimds[..n - 1], news[..n - 1], crosses[..n - 1], n - 1) &&
      if reach0[n - 1] then
        Pruned(irs0[n - 1], bbs0[n - 1], outs0[n - 1], bbr0[n - 1], final, dones[n - 1], es[n - 1], xs[n - 1],
               elimds[n - 1], news[n - 1], crosses[n - 1])
      else news[n - 1] == irs0[n - 1] && crosses[n - 1] == {})
  }

  /** AllPruned, read at function i. */
  lemma {:induction false} AllPrunedAt(irs0: seq<seq<Instr>>, bbs0: seq<seq<Block>>, outs0: seq<seq<seq<nat>>>,
                                       bbr0: seq<seq<bool>>, reach0: seq<bool>, final: bool, dones: seq<bool>,
                                       es: seq<seq<Live>>, xs: seq<seq<Live>>, elimds: seq<seq<Instr>>,
                                       news: seq<seq<Instr>>, crosses: seq<Live>, n: nat, i: nat)
    requires AllPruned(irs0, bbs0, outs0, bbr0, reach0, final, dones, es, xs, elimds, news, crosses, n) && i < n
    ensures reach0[i] ==>
      Pruned(irs0[i], bbs0[i], outs0[i], bbr0[i], final, dones[i], es[i], xs[i], elimds[i], news[i], crosses[i])
    ensures !reach0[i] ==> news[i] == irs0[i] && crosses[i] == {}
    decreases n
  {
    if i < n - 1 {
      AllPrunedAt(irs0, bbs0, outs0, bbr0, reach0, final, dones[..n - 1], es[..n - 1], xs[..n - 1],
                  elimds[..n - 1], news[..n - 1], crosses[..n - 1], n - 1, i);
    }
  }

  /** Appending the outcome of function n extends AllPruned to n + 1. */
  lemma AllPrunedSnoc(irs0: seq<seq<Instr>>, bbs0: seq<seq<Block>>, outs0: seq<seq<seq<nat>>>,
                      bbr0: seq<seq<bool>>, reach0: seq<bool>, final: bool, dones: seq<bool>,
                      es: seq<seq<Live>>, xs: seq<seq<Live>>, elimds: seq<seq<Instr>>,
                      news: seq<seq<Instr>>, crosses: seq<Live>, n: nat,
                      d: bool, e: seq<Live>, x: seq<Live>, el: seq<Instr>, y: seq<Instr>, c: Live)
    requires AllPruned(irs0, bbs0, outs0, bbr0, reach0, final, dones, es, xs, elimds, news, crosses, n)
    requires n < |irs0| && n < |bbs0| && n < |outs0| && n < |bbr0| && n < |reach0|
    requires if reach0[n] then Pruned(irs0[n], bbs0[n], outs0[n], bbr0[n], final, d, e, x, el, y, c)
             else y == irs0[n] && c == {}
    ensures AllPruned(irs0, bbs0, outs0, bbr0, reach0, final, dones + [d], es + [e], xs + [x],
                      elimds + [el], news + [y], crosses + [c], n + 1)
  {
    assert (dones + [d])[..n] == dones && (es + [e])[..n] == es && (xs + [x])[..n] == xs;
    assert (elimds + [el])[..n] == elimds && (news + [y])[..n] == news && (crosses + [c])[..n] == crosses;
  }

  /** The graphs during the loop of `ir_livevar`, before function i: every graph is still
      ready, related to its snapshot and holds now, and those from i on are untouched. */
  ghost predicate Halfway(cfgs: seq<Cfg>, irs0: seq<seq<Instr>>, keys0: seq<set<nat>>, reach0: seq<bool>,
                          bbs0: seq<seq<Block>>, outs0: seq<seq<seq<nat>>>, bbr0: seq<seq<bool>>,
                          now: seq<seq<Instr>>, i: nat)
    reads cfgs
  {
    i <= |cfgs| && DistinctCfgs(cfgs) &&
    |now| == |irs0| == |keys0| == |reach0| == |bbs0| == |outs0| == |bbr0| == |cfgs| &&
    (forall j | 0 <= j < |cfgs| :: GraphRewritten(cfgs[j], irs0[j], keys0[j], reach0[j]) && cfgs[j].irs == now[j]) &&
    (forall j | i <= j < |cfgs| ::
       now[j] == irs0[j] && cfgs[j].bbs == bbs0[j] && cfgs[j].outs == outs0[j] && cfgs[j].bbReach == bbr0[j])
  }

  /** What the loop of `ir_livevar` has found before function i: the outcomes of the
      functions below i, and their cross-call sets obeying the shared flag. */
  ghost predicate Recorded(irs0: seq<seq<Instr>>, reach0: seq<bool>, bbs0: seq<seq<Block>>,
                           outs0: seq<seq<seq<nat>>>, bbr0: seq<seq<bool>>, final: bool, dones: seq<bool>,
                           es: seq<seq<Live>>, xs: seq<seq<Live>>, elimds: seq<seq<Instr>>,
                           now: seq<seq<Instr>>, crosses: seq<Live>, i: nat)
  {
    i <= |now| == |irs0| && (forall j | i <= j < |now| :: now[j] == irs0[j]) &&
    AllPruned(irs0, bbs0, outs0, bbr0, reach0, final, dones, es, xs, elimds, now[..i], crosses, i) &&
    CrossesClean(crosses, now, irs0, reach0, final)
  }

  /** Recording the outcome of function i, whose code became y, moves Recorded to i + 1. */
  lemma RecordedStep(irs0: seq<seq<Instr>>, reach0: seq<bool>, bbs0: seq<seq<Block>>,
                     outs0: seq<seq<seq<nat>>>, bbr0: seq<seq<bool>>, final: bool, prior: bool, dones: seq<bool>,
                     es: seq<seq<Live>>, xs: seq<seq<Live>>, elimds: seq<seq<Instr>>,
                     now: seq<seq<Instr>>, crosses: seq<Live>, i: nat,
                     d: bool, e: seq<Live>, x: seq<Live>, el: seq<Instr>, y: seq<Instr>, c: Live)
    requires Recorded(irs0, reach0, bbs0, outs0, bbr0, final, dones, es, xs, elimds, now, crosses, i)
    requires i < |irs0| && |bbs0| == |outs0| == |bbr0| == |reach0| == |irs0|
    requires prior <==> DiffersBelow(now, irs0, i)
    requires c != {} ==> final && !prior && y == irs0[i] && reach0[i]
    requires if reach0[i] then Pruned(irs0[i], bbs0[i], outs0[i], bbr0[i], final, d, e, x, el, y, c)
             else y == irs0[i] && c == {}
    ensures Recorded(irs0, reach0, bbs0, outs0, bbr0, final, dones + [d], es + [e], xs + [x], elimds + [el],
                     now[i := y], crosses + [c], i + 1)
  {
    CrossesStep(crosses, now, irs0, reach0, final, prior, y, c);
    AllPrunedSnoc(irs0, bbs0, outs0, bbr0, reach0, final, dones, es, xs, elimds, now[..i], crosses, i, d, e, x, el,
                  y, c);
    assert now[i := y][..i + 1] == now[..i] + [y];
  }

  /** Turn i of the loop of `ir_livevar`: function i is analysed and rewritten, with prior
      saying whether an earlier one changed, and its outcome appended. */
  method LivevarNext(cfgs: seq<Cfg>, i: nat, final: bool, prior: bool, fuel: nat, ghost irs0: seq<seq<Instr>>,
                     ghost keys0: seq<set<nat>>, ghost reach0: seq<bool>, ghost bbs0: seq<seq<Block>>,
                     ghost outs0: seq<seq<seq<nat>>>, ghost bbr0: seq<seq<bool>>, ghost dones: seq<bool>,
                     ghost es: seq<seq<Live>>, ghost xs: seq<seq<Live>>, ghost elimds: seq<seq<Instr>>,
                     ghost now: seq<seq<Instr>>, crosses: seq<Live>)
    returns (o: bool, ghost dones1: seq<bool>, ghost es1: seq<seq<Live>>, ghost xs1: seq<seq<Live>>,
             ghost elimds1: seq<seq<Instr>>, ghost now1: seq<seq<Instr>>, crosses1: seq<Live>)
    requires i < |cfgs| && Halfway(cfgs, irs0, keys0, reach0, bbs0, outs0, bbr0, now, i)
    requires Recorded(irs0, reach0, bbs0, outs0, bbr0, final, dones, es, xs, elimds, now, crosses, i)
    requires prior <==> DiffersBelow(now, irs0, i)
    modifies cfgs
    ensures Halfway(cfgs, irs0, keys0, reach0, bbs0, outs0, bbr0, now1, i + 1)
    ensures Recorded(irs0, reach0, bbs0, outs0, bbr0, final, dones1, es1, xs1, elimds1, now1, crosses1, i + 1)
    ensures now1 == now[i := now1[i]] && (o <==> now1[i] != irs0[i])
  {
    OthersApart(cfgs, i);
    ghost var d, e, x, el;
    var c;
    o, c, d, e, x, el := LivevarOne(cfgs[i], final, prior, fuel, irs0[i], keys0[i], reach0[i], bbs0[i], outs0[i],
                                    bbr0[i]);
    RecordedStep(irs0, reach0, bbs0, outs0, bbr0, final, prior, dones, es, xs, elimds, now, crosses, i,
                 d, e, x, el, cfgs[i].irs, c);
    now1 := now[i := cfgs[i].irs];
    dones1, es1, xs1, elimds1, crosses1 := dones + [d], es + [e], xs + [x], elimds + [el], crosses + [c];
  }

  /** The loop of `ir_livevar` over the functions. `do_opt` is shared by all of them, so a
      function's cross-call set is collected only while no function before it, nor itself,
      has changed. Each reachable function is rewritten under the solution its driver found. */
  method LivevarCfgs(cfgs: seq<Cfg>, final: bool, fuel: nat, ghost irs0: seq<seq<Instr>>,
                     ghost keys0: seq<set<nat>>, ghost reach0: seq<bool>, ghost bbs0: seq<seq<Block>>,
                     ghost outs0: seq<seq<seq<nat>>>, ghost bbr0: seq<seq<bool>>)
    returns (opt: bool, crosses: seq<Live>, ghost dones: seq<bool>, ghost es: seq<seq<Live>>,
             ghost xs: seq<seq<Live>>, ghost elimds: seq<seq<Instr>>)
    requires DistinctCfgs(cfgs) && forall i | 0 <= i < |cfgs| :: Ready(cfgs[i])
    requires Snapshot(cfgs, irs0, keys0, reach0)
    requires BackSnapshot(cfgs, bbs0, outs0, bbr0)
    modifies cfgs
    ensures Rewritten(cfgs, irs0, keys0, reach0)
    ensures opt <==> IrsOf(cfgs) != irs0
    ensures |crosses| == |cfgs|
    ensures CrossesClean(crosses, IrsOf(cfgs), irs0, reach0, final)
    ensures AllPruned(irs0, bbs0, outs0, bbr0, reach0, final, dones, es, xs, elimds, IrsOf(cfgs), crosses, |cfgs|)
  {
    opt := false;
    crosses, dones, es, xs, elimds := [], [], [], [], [];
    ghost var now := irs0;
    for i := 0 to |cfgs|
      invariant Halfway(cfgs, irs0, keys0, reach0, bbs0, outs0, bbr0, now, i)
      invariant Recorded(irs0, reach0, bbs0, outs0, bbr0, final, dones, es, xs, elimds, now, crosses, i)
      invariant opt <==> DiffersBelow(now, irs0, i)
    {
      var o: bool;
      ghost var now1;
      o, dones, es, xs, elimds, now1, crosses := LivevarNext(cfgs, i, final, opt, fuel, irs0, keys0, reach0, bbs0,
                                                             outs0, bbr0, dones, es, xs, elimds, now, crosses);
      DiffersStep(now, irs0, i, now1[i]);
      now := now1;
      opt := opt || o;
    }
    assert now[..|cfgs|] == now;
    IrsKept(cfgs, now);
    DiffersAll(IrsOf(cfgs), irs0);
  }

  /** Every non-empty cross-call set belongs to a reachable function of a final round with
      no function up to and including it changed. */
  ghost predicate CrossesClean(crosses: seq<Live>, now: seq<seq<Instr>>, irs0: seq<seq<Instr>>,
                               reach0: seq<bool>, final: bool)
  {
    forall j | 0 <= j < |crosses| && crosses[j] != {} ::
      j < |reach0| && final && reach0[j] && !DiffersBelow(now, irs0, j + 1)
  }

  /** Read as prefixes: no function up to and including one with a cross-call set changed. */
  lemma CrossesPrefix(crosses: seq<Live>, now: seq<seq<Instr>>, irs0: seq<seq<Instr>>, reach0: seq<bool>,
                      final: bool)
    requires |crosses| == |now| == |irs0| && CrossesClean(crosses, now, irs0, reach0, final)
    ensures forall j | 0 <= j < |crosses| && crosses[j] != {} :: final && now[..j + 1] == irs0[..j + 1]
  {
    forall j | 0 <= j < |crosses| && crosses[j] != {} ensures final && now[..j + 1] == irs0[..j + 1] {
      SamePrefix(now, irs0, j + 1);
    }
  }

  /** One more function keeps that: its set is empty unless nothing changed so far. */
  lemma CrossesStep(crosses: seq<Live>, now: seq<seq<Instr>>, irs0: seq<seq<Instr>>, reach0: seq<bool>,
                    final: bool, prior: bool, y: seq<Instr>, c: Live)
    requires |crosses| < |now| == |irs0| <= |reach0| && now[|crosses|] == irs0[|crosses|]
    requires CrossesClean(crosses, now, irs0, reach0, final)
    requires prior <==> DiffersBelow(now, irs0, |crosses|)
    requires c != {} ==> final && !prior && y == irs0[|crosses|] && reach0[|crosses|]
    ensures CrossesClean(crosses + [c], now[|crosses| := y], irs0, reach0, final)
  {
    var i := |crosses|;
    forall j | 0 <= j < i && crosses[j] != {} ensures !DiffersBelow(now[i := y], irs0, j + 1) {
      DiffersAbove(now, irs0, i, j + 1, y);
    }
    if c != {} {
      DiffersStep(now, irs0, i, y);
    }
  }

  /** One turn of that loop: a reachable function is analysed and rewritten under the
      solution found; its cross-call set is empty unless the round is final and nothing has
      changed, here or before. */
  method LivevarOne(cfg: Cfg, final: bool, prior: bool, fuel: nat, ghost irs0: seq<Instr>, ghost keys0: set<nat>,
                    ghost reach0: bool, ghost bbs0: seq<Block>, ghost outs0: seq<seq<nat>>, ghost bbr0: seq<bool>)
    returns (opt: bool, cross: Live, ghost done: bool, ghost e: seq<Live>, ghost x: seq<Live>,
             ghost elimd: seq<Instr>)
    requires GraphRewritten(cfg, irs0, keys0, reach0) && cfg.irs == irs0
    requires cfg.bbs == bbs0 && cfg.outs == outs0 && cfg.bbReach == bbr0
    modifies cfg
    ensures GraphRewritten(cfg, irs0, keys0, reach0)
    ensures opt <==> cfg.irs != irs0
    ensures cross != {} ==> final && !prior && !opt && reach0
    ensures if reach0 then Pruned(irs0, bbs0, outs0, bbr0, final, done, e, x, elimd, cfg.irs, cross)
            else cfg.irs == irs0 && cross == {}
  {
    opt, cross, done, e, x, elimd := false, {}, false, [], [], irs0;
    if cfg.reachable {
      opt, cross, done, e, x, elimd := LivevarCfg(cfg, final, prior, fuel);
    }
  }

  /**
   * `ir_livevar`: every reachable function is analysed and rewritten. The result is
   * `do_opt`, raised exactly when some instruction changed; every function whose
   * analysis drained was rewritten under a solution of its equations; the cross-call
   * sets are returned one per function. The graphs are not rebuilt.
   */
  method LivevarProgram(prog: Program, final: bool, fuel: nat)
    returns (opt: bool, crosses: seq<Live>, ghost dones: seq<bool>, ghost es: seq<seq<Live>>,
             ghost xs: seq<seq<Live>>, ghost elimds: seq<seq<Instr>>)
    requires ProgramReady(prog)
    modifies prog.cfgs
    ensures ProgramReady(prog)
    ensures PassRelates(old(IrsOf(prog.cfgs)), IrsOf(prog.cfgs), old(ReachOf(prog.cfgs)))
    ensures opt <==> IrsOf(prog.cfgs) != old(IrsOf(prog.cfgs))
    ensures |crosses| == |prog.cfgs|
    ensures forall i | 0 <= i < |crosses| && crosses[i] != {} ::
      final && IrsOf(prog.cfgs)[..i + 1] == old(IrsOf(prog.cfgs))[..i + 1]
    ensures AllPruned(old(IrsOf(prog.cfgs)), old(BbsOf(prog.cfgs)), old(OutsOf(prog.cfgs)),
                      old(BbReachOf(prog.cfgs)), old(ReachOf(prog.cfgs)), final,
                      dones, es, xs, elimds, IrsOf(prog.cfgs), crosses, |prog.cfgs|)
  {
    ghost var irs0, keys0, reach0 := IrsOf(prog.cfgs), KeysOf(prog.cfgs), ReachOf(prog.cfgs);
    ghost var bbs0, outs0, bbr0 := BbsOf(prog.cfgs), OutsOf(prog.cfgs), BbReachOf(prog.cfgs);
    ReadyParts(prog, irs0, keys0, reach0);
    BackParts(prog.cfgs, bbs0, outs0, bbr0);
    opt, crosses, dones, es, xs, elimds := LivevarCfgs(prog.cfgs, final, fuel, irs0, keys0, reach0, bbs0, outs0, bbr0);
    CrossesPrefix(crosses, IrsOf(prog.cfgs), irs0, reach0, final);
    StillReady(prog, irs0, keys0, reach0);
  }
}
