/**
 * Worklist reachability, shared by the block graph of a function
 * (`check_cfg_reachable`) and the call graph of the program
 * (`check_program_reachable`).
 */
module Reach {
  import opened Container

  /** Successor lists whose entries all name nodes of the graph. */
  predicate Closed(succ: seq<seq<nat>>)
  {
    forall b, k | 0 <= b < |succ| && 0 <= k < |succ[b]| :: succ[b][k] < |succ|
  }

  /** A walk along the edges. */
  predicate IsPath(succ: seq<seq<nat>>, path: seq<nat>)
  {
    |path| > 0 && (forall k | 0 <= k < |path| :: path[k] < |succ|) &&
    (forall k | 0 <= k < |path| - 1 :: path[k + 1] in succ[path[k]])
  }

  /** Node b can be reached from root. */
  ghost predicate Reachable(succ: seq<seq<nat>>, root: nat, b: nat)
  {
    exists path :: IsPath(succ, path) && path[0] == root && path[|path| - 1] == b
  }

  /** A marking that is closed under the edges. */
  predicate MarkClosed(succ: seq<seq<nat>>, marked: seq<bool>)
    requires |marked| == |succ| && Closed(succ)
  {
    forall b, k | 0 <= b < |succ| && 0 <= k < |succ[b]| && marked[b] :: marked[succ[b][k]]
  }

  /** A closed marking that holds the root holds every node reachable from it. */
  lemma {:induction false} ClosedHoldsReachable(succ: seq<seq<nat>>, marked: seq<bool>, root: nat, path: seq<nat>)
    requires |marked| == |succ| && Closed(succ) && MarkClosed(succ, marked)
    requires IsPath(succ, path) && path[0] == root && marked[root]
    ensures marked[path[|path| - 1]]
    decreases |path|
  {
    if |path| > 1 {
      var front := path[..|path| - 1];
      assert IsPath(succ, front);
      ClosedHoldsReachable(succ, marked, root, front);
      var b := path[|path| - 2];
      var o := path[|path| - 1];
      assert o in succ[b];
      var k :| 0 <= k < |succ[b]| && succ[b][k] == o;
    }
  }

  /** The number of unmarked nodes. */
  function Unmarked(marked: seq<bool>): (c: nat)
    ensures c <= |marked|
  {
    if |marked| == 0 then 0 else Unmarked(marked[..|marked| - 1]) + (if marked[|marked| - 1] then 0 else 1)
  }

  lemma {:induction false} MarkOne(marked: seq<bool>, b: nat)
    requires b < |marked| && !marked[b]
    ensures Unmarked(marked[b := true]) == Unmarked(marked) - 1
    decreases |marked|
  {
    var m' := marked[b := true];
    if b < |marked| - 1 {
      assert m'[..|m'| - 1] == marked[..|marked| - 1][b := true];
      MarkOne(marked[..|marked| - 1], b);
    } else {
      assert m'[..|m'| - 1] == marked[..|marked| - 1];
    }
  }

  /** Every marked node carries a witness walk from the root. */
  ghost predicate Witnessed(succ: seq<seq<nat>>, root: nat, marked: seq<bool>, paths: map<nat, seq<nat>>)
    requires |marked| == |succ|
  {
    forall b | 0 <= b < |succ| && marked[b] ::
      b in paths && IsPath(succ, paths[b]) && paths[b][0] == root && paths[b][|paths[b]| - 1] == b
  }

  /** Every marked node that is not pending (and is not `cur`) has all its successors marked. */
  predicate Expanded(succ: seq<seq<nat>>, marked: seq<bool>, pending: seq<nat>, cur: int)
    requires |marked| == |succ| && Closed(succ)
  {
    forall b, k | 0 <= b < |succ| && 0 <= k < |succ[b]| && marked[b] && b !in pending && b != cur ::
      marked[succ[b][k]]
  }

  /** The final marking holds exactly the reachable nodes. */
  lemma MarkedIffReachable(succ: seq<seq<nat>>, root: nat, marked: seq<bool>, paths: map<nat, seq<nat>>)
    requires root < |succ| == |marked| && Closed(succ) && marked[root]
    requires Witnessed(succ, root, marked, paths) && Expanded(succ, marked, [], -1)
    ensures MarkClosed(succ, marked)
    ensures forall b | 0 <= b < |succ| :: marked[b] <==> Reachable(succ, root, b)
  {
    forall b | 0 <= b < |succ|
      ensures marked[b] <==> Reachable(succ, root, b)
    {
      if marked[b] {
        assert IsPath(succ, paths[b]);
      }
      if Reachable(succ, root, b) {
        var path :| IsPath(succ, path) && path[0] == root && path[|path| - 1] == b;
        ClosedHoldsReachable(succ, marked, root, path);
      }
    }
  }

  /** Marking a successor `o` of a marked node `i` keeps both loop facts. */
  lemma MarkStep(succ: seq<seq<nat>>, root: nat, marked: seq<bool>, paths: map<nat, seq<nat>>,
                 pending: seq<nat>, q: seq<nat>, i: nat, o: nat)
    requires |marked| == |succ| && Closed(succ) && i < |succ| && marked[i] && o < |succ| && o in succ[i]
    requires Witnessed(succ, root, marked, paths) && Expanded(succ, marked, pending, i)
    requires q == pending + [o] || (q == pending && succ[o] == [])
    ensures Witnessed(succ, root, marked[o := true], paths[o := paths[i] + [o]])
    ensures Expanded(succ, marked[o := true], q, i)
  {
    var m', p' := marked[o := true], paths[o := paths[i] + [o]];
    forall b | 0 <= b < |succ| && m'[b]
      ensures b in p' && IsPath(succ, p'[b]) && p'[b][0] == root && p'[b][|p'[b]| - 1] == b
    {
      if b == o {
        assert IsPath(succ, paths[i]);
        var w := paths[i] + [o];
        forall k | 0 <= k < |w| - 1 ensures w[k + 1] in succ[w[k]] {
          if k < |w| - 2 { assert w[k] == paths[i][k] && w[k + 1] == paths[i][k + 1]; }
        }
      }
    }
  }

  /** Where the expansion of node i stands after its first j successors: everything marked
      before still is, pending nodes are marked, the first j successors are marked, and the
      measure has not grown beyond budget. */
  ghost predicate Expanding(succ: seq<seq<nat>>, root: nat, i: nat, marked0: seq<bool>, marked: seq<bool>,
                            paths: map<nat, seq<nat>>, pending: seq<nat>, j: nat, budget: int)
  {
    |marked0| == |marked| == |succ| && i < |succ| && Closed(succ) && marked[i] && i !in pending &&
    j <= |succ[i]| &&
    (forall b | 0 <= b < |succ| && marked0[b] :: marked[b]) &&
    (forall k | 0 <= k < |pending| :: pending[k] < |succ| && marked[pending[k]]) &&
    Witnessed(succ, root, marked, paths) && Expanded(succ, marked, pending, i) &&
    (forall k | 0 <= k < j :: marked[succ[i][k]]) &&
    2 * Unmarked(marked) + |pending| <= budget
  }

  /** Marking the next successor o, queued unless it is at or above limit, moves on by one. */
  lemma ExpandMark(succ: seq<seq<nat>>, root: nat, limit: nat, i: nat, marked0: seq<bool>, marked: seq<bool>,
                   paths: map<nat, seq<nat>>, pending: seq<nat>, q: seq<nat>, j: nat, budget: int)
    requires Expanding(succ, root, i, marked0, marked, paths, pending, j, budget) && j < |succ[i]|
    requires forall b | limit <= b < |succ| :: succ[b] == []
    requires !marked[succ[i][j]]
    requires if succ[i][j] < limit then q == pending + [succ[i][j]] else q == pending
    ensures Expanding(succ, root, i, marked0, marked[succ[i][j] := true],
                      paths[succ[i][j] := paths[i] + [succ[i][j]]], q, j + 1, budget)
  {
    var o := succ[i][j];
    MarkOne(marked, o);
    MarkStep(succ, root, marked, paths, pending, q, i, o);
    var m' := marked[o := true];
    forall k | 0 <= k < j + 1 ensures m'[succ[i][k]] {
    }
  }

  /** An already marked successor needs nothing. */
  lemma ExpandSkip(succ: seq<seq<nat>>, root: nat, i: nat, marked0: seq<bool>, marked: seq<bool>,
                   paths: map<nat, seq<nat>>, pending: seq<nat>, j: nat, budget: int)
    requires Expanding(succ, root, i, marked0, marked, paths, pending, j, budget) && j < |succ[i]|
    requires marked[succ[i][j]]
    ensures Expanding(succ, root, i, marked0, marked, paths, pending, j + 1, budget)
  {
  }

  /** Once every successor of i is marked, i is expanded too. */
  lemma ExpandDone(succ: seq<seq<nat>>, root: nat, i: nat, marked0: seq<bool>, marked: seq<bool>,
                   paths: map<nat, seq<nat>>, pending: seq<nat>, budget: int)
    requires i < |succ| && Expanding(succ, root, i, marked0, marked, paths, pending, |succ[i]|, budget)
    requires root < |succ| && marked[root]
    ensures Searching(succ, root, marked, paths, pending)
  {
  }

  /** The search so far: root marked, pending nodes marked, every marked node witnessed,
      and every marked node off the worklist expanded. */
  ghost predicate Searching(succ: seq<seq<nat>>, root: nat, marked: seq<bool>, paths: map<nat, seq<nat>>,
                            pending: seq<nat>)
  {
    |marked| == |succ| && root < |succ| && Closed(succ) && marked[root] &&
    (forall k | 0 <= k < |pending| :: pending[k] < |succ| && marked[pending[k]]) &&
    Witnessed(succ, root, marked, paths) && Expanded(succ, marked, pending, -1)
  }

  /** Marks the unmarked successors of node i and queues those below `limit`. */
  method Expand(succ: seq<seq<nat>>, root: nat, limit: nat, i: nat, wl: Worklist,
                marked0: seq<bool>, ghost paths0: map<nat, seq<nat>>)
    returns (marked: seq<bool>, ghost paths: map<nat, seq<nat>>)
    requires i < limit <= |succ| && forall b | limit <= b < |succ| :: succ[b] == []
    requires wl.Valid() && wl.size == limit && i !in wl.Contents
    requires Searching(succ, root, marked0, paths0, [i] + wl.Contents)
    modifies wl.Repr
    ensures wl.Valid() && wl.Repr == old(wl.Repr) && wl.size == limit
    ensures Searching(succ, root, marked, paths, wl.Contents)
    ensures 2 * Unmarked(marked) + |wl.Contents| < 2 * Unmarked(marked0) + old(|wl.Contents|) + 1
  {
    assert ([i] + wl.Contents)[0] == i;
    assert forall k | 0 <= k < |wl.Contents| :: wl.Contents[k] == ([i] + wl.Contents)[k + 1];
    marked, paths := marked0, paths0;
    ghost var budget := 2 * Unmarked(marked0) + |wl.Contents|;
    var j := 0;
    while j < |succ[i]|
      invariant wl.Valid() && wl.Repr == old(wl.Repr) && wl.size == limit
      invariant Expanding(succ, root, i, marked0, marked, paths, wl.Contents, j, budget)
    {
      if !marked[succ[i][j]] {
        marked, paths := Visit(succ, root, limit, i, wl, marked0, marked, paths, j, budget);
      } else {
        ExpandSkip(succ, root, i, marked0, marked, paths, wl.Contents, j, budget);
      }
      j := j + 1;
    }
    ExpandDone(succ, root, i, marked0, marked, paths, wl.Contents, budget);
  }

  /** Marks the j-th successor o of node i, which is unmarked, and queues it if it is below `limit`. */
  method Visit(succ: seq<seq<nat>>, root: nat, limit: nat, i: nat, wl: Worklist, marked0: seq<bool>,
               marked: seq<bool>, ghost paths: map<nat, seq<nat>>, j: nat, ghost budget: int)
    returns (marked': seq<bool>, ghost paths': map<nat, seq<nat>>)
    requires limit <= |succ| && forall b | limit <= b < |succ| :: succ[b] == []
    requires wl.Valid() && wl.size == limit
    requires Expanding(succ, root, i, marked0, marked, paths, wl.Contents, j, budget) && j < |succ[i]|
    requires !marked[succ[i][j]]
    modifies wl.Repr
    ensures wl.Valid() && wl.Repr == old(wl.Repr) && wl.size == limit
    ensures Expanding(succ, root, i, marked0, marked', paths', wl.Contents, j + 1, budget)
  {
    var o := succ[i][j];
    ghost var pending := wl.Contents;
    if o < limit {
      wl.RoomFor(o);
      wl.Add(o);
    }
    ExpandMark(succ, root, limit, i, marked0, marked, paths, pending, wl.Contents, j, budget);
    marked' := marked[o := true];
    paths' := paths[o := paths[i] + [o]];
  }

  /** Only root is marked, and it is the one node pending. */
  lemma SearchStart(succ: seq<seq<nat>>, root: nat, marked: seq<bool>, paths: map<nat, seq<nat>>)
    requires root < |succ| && Closed(succ)
    requires marked == seq(|succ|, _ => false)[root := true] && paths == map[root := [root]]
    ensures Searching(succ, root, marked, paths, [root])
  {
    assert forall b | 0 <= b < |succ| && marked[b] :: b == root;
    assert IsPath(succ, [root]);
  }

  /** Drains the worklist, expanding each popped node, until nothing is pending. */
  method Search(succ: seq<seq<nat>>, root: nat, limit: nat, wl: Worklist,
                marked0: seq<bool>, ghost paths0: map<nat, seq<nat>>)
    returns (marked: seq<bool>, ghost paths: map<nat, seq<nat>>)
    requires limit <= |succ| && forall b | limit <= b < |succ| :: succ[b] == []
    requires wl.Valid() && wl.size == limit
    requires Searching(succ, root, marked0, paths0, wl.Contents)
    modifies wl.Repr
    ensures Searching(succ, root, marked, paths, [])
  {
    marked, paths := marked0, paths0;
    var empty := wl.Empty();
    while !empty
      invariant wl.Valid() && wl.Repr == old(wl.Repr) && wl.size == limit
      invariant empty <==> wl.Contents == []
      invariant Searching(succ, root, marked, paths, wl.Contents)
      decreases 2 * Unmarked(marked) + |wl.Contents|
    {
      ghost var pending := wl.Contents;
      var i := wl.Pop();
      assert [i] + wl.Contents == pending;
      marked, paths := Expand(succ, root, limit, i, wl, marked, paths);
      empty := wl.Empty();
    }
  }

  /**
   * Marks root and everything reachable from it, visiting nodes in first-in
   * first-out order. Nodes at or above `limit` (the exit block) are marked
   * but never queued; they have no successors.
   */
  method Bfs(succ: seq<seq<nat>>, root: nat, limit: nat) returns (marked: seq<bool>)
    requires root < limit <= |succ| && limit <= 0x4000_0000
    requires Closed(succ)
    requires forall b | limit <= b < |succ| :: succ[b] == []
    ensures |marked| == |succ| && MarkClosed(succ, marked) && marked[root]
    ensures forall b | 0 <= b < |succ| :: marked[b] <==> Reachable(succ, root, b)
  {
    marked := seq(|succ|, _ => false)[root := true];
    ghost var paths: map<nat, seq<nat>> := map[root := [root]];
    SearchStart(succ, root, marked, paths);
    var wl := new Worklist(limit);
    wl.Add(root);
    marked, paths := Search(succ, root, limit, wl, marked, paths);
    MarkedIffReachable(succ, root, marked, paths);
  }
}
