/**
 * The generic worklist fixpoint `ir_iter_cfg` that every analysis pass runs
 * over the block graph of one function.
 *
 * Facts are kept per block on the two sides of the block: `e[b]` is the side
 * where neighbours are met (the block's in-fact for a forward analysis, its
 * out-fact for a backward one) and `x[b]` is the side the block transfer
 * produces. Index `n` (one past the last block) is the exit block, which is
 * never queued, so its facts keep their initial value.
 */
module Dataflow {
  import opened Container
  import opened Reach

  /** The shape `build_cfg` leaves: `n` blocks plus the exit, mutual edge lists. */
  predicate GraphOk(outs: seq<seq<nat>>, ins: seq<seq<nat>>, reach: seq<bool>, n: nat)
  {
    |outs| == n + 1 && |ins| == n + 1 && |reach| == n + 1 && Closed(outs) && Closed(ins) &&
    Linked(outs, ins, n)
  }

  /** Every edge `b -> c` is listed at both ends. */
  predicate Linked(outs: seq<seq<nat>>, ins: seq<seq<nat>>, n: nat)
    requires |outs| == n + 1 && |ins| == n + 1
  {
    forall b, c | 0 <= b <= n && 0 <= c <= n :: c in outs[b] <==> b in ins[c]
  }

  /** Read backwards, the edge lists are linked the same way. */
  lemma LinkedFlip(outs: seq<seq<nat>>, ins: seq<seq<nat>>, n: nat)
    requires |outs| == n + 1 && |ins| == n + 1 && Linked(outs, ins, n)
    ensures Linked(ins, outs, n)
  {
    forall b, c | 0 <= b <= n && 0 <= c <= n ensures c in ins[b] <==> b in outs[c] {
      assert b in outs[c] <==> c in ins[b];
    }
  }

  /**
   * The meet is idempotent and order-insensitive when applied repeatedly to
   * one accumulator, which is how `ir_iter_cfg` uses it.
   */
  ghost predicate MeetLaws<F(!new)>(meet: (F, F) -> F)
  {
    (forall a, b :: meet(meet(a, b), b) == meet(a, b)) &&
    (forall a, b, c :: meet(meet(a, b), c) == meet(meet(a, c), b))
  }

  /** Meeting any reachable neighbour of `b` into `acc` changes nothing. */
  predicate Absorbs<F(==)>(meet: (F, F) -> F, from: seq<nat>, reach: seq<bool>, x: seq<F>, acc: F)
  {
    forall k | 0 <= k < |from| && from[k] < |x| && from[k] < |reach| && reach[from[k]] ::
      meet(acc, x[from[k]]) == acc
  }

  /** Block `b` is a solution of its own dataflow equation. */
  predicate Stable<F(==)>(from: seq<seq<nat>>, reach: seq<bool>, meet: (F, F) -> F, skip: F -> bool,
                          trans: (nat, F) -> F, e: seq<F>, x: seq<F>, b: nat)
  {
    b < |e| && b < |x| && b < |from| &&
    x[b] == trans(b, e[b]) && !skip(e[b]) && Absorbs(meet, from[b], reach, x, e[b])
  }

  /** Every reachable block that is not waiting in the queue is stable. */
  predicate StableOutside<F(==)>(from: seq<seq<nat>>, reach: seq<bool>, n: nat, meet: (F, F) -> F,
                                 skip: F -> bool, trans: (nat, F) -> F, e: seq<F>, x: seq<F>,
                                 queue: seq<nat>)
    requires |reach| == n + 1
  {
    forall b | 0 <= b < n && reach[b] && b !in queue :: Stable(from, reach, meet, skip, trans, e, x, b)
  }

  /**
   * The seeding order: the reachable blocks in [lo, hi), ascending when
   * forward and descending when backward.
   */
  function Seeds(reach: seq<bool>, lo: nat, hi: nat, forward: bool): (s: seq<nat>)
    requires hi <= |reach|
    ensures forall b :: b in s <==> lo <= b < hi && reach[b]
    ensures forall i, j | 0 <= i < j < |s| :: if forward then s[i] < s[j] else s[i] > s[j]
    decreases hi - lo
  {
    if lo >= hi then []
    else if forward then
      var rest := Seeds(reach, lo, hi - 1, true);
      assert forall k | 0 <= k < |rest| :: rest[k] in rest;
      rest + (if reach[hi - 1] then [hi - 1] else [])
    else
      var rest := Seeds(reach, lo + 1, hi, false);
      assert forall k | 0 <= k < |rest| :: rest[k] in rest;
      rest + (if reach[lo] then [lo] else [])
  }

  /** Seeds a fresh worklist, in block order (forward) or reverse block order (backward). */
  method Seed(wl: Worklist, reach: seq<bool>, n: nat, forward: bool)
    requires wl.Valid() && wl.Contents == [] && wl.size == n && n < |reach|
    modifies wl.Repr
    ensures wl.Valid() && wl.Repr == old(wl.Repr) && wl.Contents == Seeds(reach, 0, n, forward)
  {
    if forward {
      SeedForward(wl, reach, n);
    } else {
      SeedBackward(wl, reach, n);
    }
  }

  /** The reachable blocks below n, in block order. */
  method SeedForward(wl: Worklist, reach: seq<bool>, n: nat)
    requires wl.Valid() && wl.Contents == [] && wl.size == n && n < |reach|
    modifies wl.Repr
    ensures wl.Valid() && wl.Repr == old(wl.Repr) && wl.Contents == Seeds(reach, 0, n, true)
  {
    for i := 0 to n
      invariant wl.Valid() && wl.Repr == old(wl.Repr) && wl.Contents == Seeds(reach, 0, i, true)
    {
      if reach[i] {
        wl.RoomFor(i);
        wl.Add(i);
      }
    }
  }

  /** The reachable blocks below n, in reverse block order. */
  method SeedBackward(wl: Worklist, reach: seq<bool>, n: nat)
    requires wl.Valid() && wl.Contents == [] && wl.size == n && n < |reach|
    modifies wl.Repr
    ensures wl.Valid() && wl.Repr == old(wl.Repr) && wl.Contents == Seeds(reach, 0, n, false)
  {
    var i := n;
    while i > 0
      invariant 0 <= i <= n
      invariant wl.Valid() && wl.Repr == old(wl.Repr) && wl.Contents == Seeds(reach, i, n, false)
    {
      i := i - 1;
      if reach[i] {
        wl.RoomFor(i);
        wl.Add(i);
      }
    }
  }

  /** One more meet keeps every earlier neighbour absorbed and absorbs the new one. */
  lemma AbsorbStep<F(!new)>(meet: (F, F) -> F, from: seq<nat>, reach: seq<bool>, x: seq<F>, acc: F, j: nat)
    requires MeetLaws(meet) && j < |from| && from[j] < |x| && from[j] < |reach|
    requires Absorbs(meet, from[..j], reach, x, acc)
    ensures Absorbs(meet, from[..j + 1], reach, x, if reach[from[j]] then meet(acc, x[from[j]]) else acc)
  {
    if reach[from[j]] {
      var y := x[from[j]];
      var f1 := from[..j + 1];
      forall k | 0 <= k < |f1| && f1[k] < |x| && f1[k] < |reach| && reach[f1[k]]
        ensures meet(meet(acc, y), x[f1[k]]) == meet(acc, y)
      {
        if k < j {
          assert from[..j][k] == from[k];
          assert meet(meet(acc, y), x[from[k]]) == meet(meet(acc, x[from[k]]), y);
        }
      }
    }
  }

  /** The meet of the reachable neighbours' facts into `acc`, in list order. */
  function MeetAll<F>(meet: (F, F) -> F, from: seq<nat>, reach: seq<bool>, x: seq<F>, acc: F): F
    decreases |from|
  {
    if |from| == 0 then acc
    else
      var o := from[|from| - 1];
      var a := MeetAll(meet, from[..|from| - 1], reach, x, acc);
      if o < |x| && o < |reach| && reach[o] then meet(a, x[o]) else a
  }

  /** The meet loop: every reachable neighbour is met into the accumulator, in list order. */
  method MeetInto<F(!new)>(meet: (F, F) -> F, from: seq<nat>, reach: seq<bool>, x: seq<F>, acc0: F)
    returns (acc: F)
    requires MeetLaws(meet) && forall k | 0 <= k < |from| :: from[k] < |x| && from[k] < |reach|
    ensures acc == MeetAll(meet, from, reach, x, acc0)
    ensures Absorbs(meet, from, reach, x, acc)
  {
    acc := acc0;
    for j := 0 to |from|
      invariant acc == MeetAll(meet, from[..j], reach, x, acc0)
      invariant Absorbs(meet, from[..j], reach, x, acc)
    {
      AbsorbStep(meet, from, reach, x, acc, j);
      assert from[..j + 1][..j] == from[..j];
      if reach[from[j]] {
        acc := meet(acc, x[from[j]]);
      }
    }
    assert from[..|from|] == from;
  }

  /** The facts of unreachable blocks and of the exit are never touched. */
  predicate Untouched<F(==)>(reach: seq<bool>, n: nat, e0: seq<F>, x0: seq<F>, e: seq<F>, x: seq<F>)
    requires |reach| == |e0| == |x0| == |e| == |x| == n + 1
  {
    forall b | 0 <= b <= n && (b == n || !reach[b]) :: e[b] == e0[b] && x[b] == x0[b]
  }

  /**
   * Queues the reachable non-exit neighbours of `i` that depend on its
   * changed fact. The queue must have room at every add: with `full` the
   * run stops where the C code's assertion would abort it.
   */
  method Requeue(wl: Worklist, to: seq<nat>, reach: seq<bool>, n: nat) returns (full: bool)
    requires wl.Valid() && wl.size == n && |reach| == n + 1
    requires forall k | 0 <= k < |to| :: to[k] <= n
    modifies wl.Repr
    ensures wl.Valid() && wl.Repr == old(wl.Repr)
    ensures forall b :: b in old(wl.Contents) ==> b in wl.Contents
    ensures forall b :: b in wl.Contents ==> b in old(wl.Contents) || (b in to && b < n && reach[b])
    ensures !full ==> forall b | b in to && b < n && reach[b] :: b in wl.Contents
  {
    full := false;
    for j := 0 to |to|
      invariant wl.Valid() && wl.Repr == old(wl.Repr)
      invariant forall b :: b in old(wl.Contents) ==> b in wl.Contents
      invariant forall b :: b in wl.Contents ==> b in old(wl.Contents) || (b in to && b < n && reach[b])
      invariant forall k | 0 <= k < j && to[k] < n && reach[to[k]] :: to[k] in wl.Contents
    {
      var o := to[j];
      if reach[o] && o != n {
        full := wl.Full();
        if full {
          return;
        }
        wl.Add(o);
      }
    }
  }

  /** A block that `skip` holds for goes back into the queue; nobody else is affected. */
  lemma SkipKeeps<F>(from: seq<seq<nat>>, reach: seq<bool>, n: nat, meet: (F, F) -> F, skip: F -> bool,
                     trans: (nat, F) -> F, e: seq<F>, x: seq<F>, q0: seq<nat>, q1: seq<nat>, i: nat, acc: F)
    requires |reach| == n + 1 && i < |e|
    requires StableOutside(from, reach, n, meet, skip, trans, e, x, q0)
    requires i in q1 && forall b :: b in q0 ==> b in q1
    ensures StableOutside(from, reach, n, meet, skip, trans, e[i := acc], x, q1)
  {
    forall b | 0 <= b < n && reach[b] && b !in q1
      ensures Stable(from, reach, meet, skip, trans, e[i := acc], x, b)
    {
      assert Stable(from, reach, meet, skip, trans, e, x, b);
    }
  }

  /**
   * Visiting `i` makes it stable; a changed fact of `i` only disturbs the
   * blocks downstream of it, and those are queued again.
   */
  lemma VisitKeeps<F>(from: seq<seq<nat>>, to: seq<seq<nat>>, reach: seq<bool>, n: nat, meet: (F, F) -> F,
                      skip: F -> bool, trans: (nat, F) -> F, e: seq<F>, x: seq<F>,
                      q0: seq<nat>, q1: seq<nat>, i: nat, acc: F, y: F)
    requires |from| == |to| == |reach| == |e| == |x| == n + 1 && i < n
    requires Linked(to, from, n)
    requires Closed(from) && Closed(to)
    requires StableOutside(from, reach, n, meet, skip, trans, e, x, q0)
    requires forall b :: b in q0 && b != i ==> b in q1
    requires Absorbs(meet, from[i], reach, x, acc) && !skip(acc) && y == trans(i, acc)
    requires y != x[i] ==> forall b | b in to[i] && b < n && reach[b] :: b in q1
    ensures StableOutside(from, reach, n, meet, skip, trans, e[i := acc], x[i := y], q1)
  {
    var e1, x1 := e[i := acc], x[i := y];
    forall b | 0 <= b < n && reach[b] && b !in q1
      ensures Stable(from, reach, meet, skip, trans, e1, x1, b)
    {
      if y != x[i] {
        assert b !in to[i];
        assert i !in from[b];
        forall k | 0 <= k < |from[b]| ensures x1[from[b][k]] == x[from[b][k]] {
          assert from[b][k] in from[b];
        }
      }
      if b != i {
        assert Stable(from, reach, meet, skip, trans, e, x, b);
      }
    }
  }

  /**
   * One turn of the main loop on the popped block `i`: meet, then either
   * re-queue (skip) or transfer and, on a change, queue what lies downstream.
   */
  method Visit<F(==,!new)>(wl: Worklist, from: seq<seq<nat>>, to: seq<seq<nat>>, reach: seq<bool>, n: nat,
                           meet: (F, F) -> F, skip: F -> bool, trans: (nat, F) -> F,
                           e: seq<F>, x: seq<F>, i: nat, ghost q0: seq<nat>)
    returns (e1: seq<F>, x1: seq<F>, full: bool)
    requires wl.Valid() && wl.size == n && i < n && i !in wl.Contents
    requires |from| == |to| == |reach| == |e| == |x| == n + 1 && Closed(from) && Closed(to)
    requires Linked(to, from, n)
    requires MeetLaws(meet) && StableOutside(from, reach, n, meet, skip, trans, e, x, q0)
    requires forall b :: b in q0 ==> b == i || b in wl.Contents
    modifies wl.Repr
    ensures wl.Valid() && wl.Repr == old(wl.Repr)
    ensures |e1| == n + 1 && |x1| == n + 1 && Untouched(reach, n, e, x, e1, x1)
    ensures !full ==> StableOutside(from, reach, n, meet, skip, trans, e1, x1, wl.Contents)
  {
    e1, x1, full := e, x, false;
    if reach[i] {
      var acc := MeetInto(meet, from[i], reach, x, e[i]);
      if skip(acc) {
        wl.RoomFor(i);
        wl.Add(i);
        SkipKeeps(from, reach, n, meet, skip, trans, e, x, q0, wl.Contents, i, acc);
        e1 := e[i := acc];
      } else {
        var y := trans(i, acc);
        if y != x[i] {
          full := Requeue(wl, to[i], reach, n);
        }
        if !full {
          VisitKeeps(from, to, reach, n, meet, skip, trans, e, x, q0, wl.Contents, i, acc, y);
        }
        e1, x1 := e[i := acc], x[i := y];
      }
    }
  }

  /**
   * ir_iter_cfg: seeds every reachable block, then pops blocks, meets their
   * reachable neighbours in, re-queues a block that `skip` holds for, and
   * otherwise runs the transfer; when the transfer changes the block's fact
   * the reachable non-exit blocks downstream are queued. When the queue
   * drains (`done`), every reachable block solves its equation. The run
   * also stops, without `done`, when `fuel` pops are used up or when the
   * queue is full at an add.
   */
  method IterCfg<F(==,!new)>(outs: seq<seq<nat>>, ins: seq<seq<nat>>, reach: seq<bool>, n: nat, forward: bool,
                             meet: (F, F) -> F, skip: F -> bool, trans: (nat, F) -> F,
                             e0: seq<F>, x0: seq<F>, fuel: nat)
    returns (e: seq<F>, x: seq<F>, done: bool)
    requires GraphOk(outs, ins, reach, n) && 0 < n <= 0x4000_0000
    requires |e0| == n + 1 && |x0| == n + 1 && MeetLaws(meet)
    ensures |e| == n + 1 && |x| == n + 1 && Untouched(reach, n, e0, x0, e, x)
    ensures done ==> StableOutside(if forward then ins else outs, reach, n, meet, skip, trans, e, x, [])
  {
    var from, to := if forward then ins else outs, if forward then outs else ins;
    if !forward {
      LinkedFlip(outs, ins, n);
    }
    var wl := new Worklist(n);
    Seed(wl, reach, n, forward);
    e, x, done := Drain(wl, from, to, reach, n, meet, skip, trans, e0, x0, fuel);
  }

  /** The main loop of `ir_iter_cfg`, from the seeded queue on. */
  method Drain<F(==,!new)>(wl: Worklist, from: seq<seq<nat>>, to: seq<seq<nat>>, reach: seq<bool>, n: nat,
                           meet: (F, F) -> F, skip: F -> bool, trans: (nat, F) -> F,
                           e0: seq<F>, x0: seq<F>, fuel: nat)
    returns (e: seq<F>, x: seq<F>, done: bool)
    requires wl.Valid() && wl.size == n
    requires |from| == |to| == |reach| == |e0| == |x0| == n + 1 && Closed(from) && Closed(to)
    requires Linked(to, from, n)
    requires MeetLaws(meet) && StableOutside(from, reach, n, meet, skip, trans, e0, x0, wl.Contents)
    modifies wl.Repr
    ensures |e| == n + 1 && |x| == n + 1 && Untouched(reach, n, e0, x0, e, x)
    ensures done ==> StableOutside(from, reach, n, meet, skip, trans, e, x, [])
  {
    e, x := e0, x0;
    var empty := wl.Empty();
    var f := fuel;
    while !empty && f > 0
      invariant wl.Valid() && wl.Repr == old(wl.Repr) && wl.size == n
      invariant empty <==> wl.Contents == []
      invariant |e| == n + 1 && |x| == n + 1 && Untouched(reach, n, e0, x0, e, x)
      invariant StableOutside(from, reach, n, meet, skip, trans, e, x, wl.Contents)
      decreases f
    {
      ghost var q0 := wl.Contents;
      var i := wl.Pop();
      f := f - 1;
      var e1, x1, full := Visit(wl, from, to, reach, n, meet, skip, trans, e, x, i, q0);
      e, x := e1, x1;
      if full {
        return e, x, false;
      }
      empty := wl.Empty();
    }
    done := empty;
  }
}
