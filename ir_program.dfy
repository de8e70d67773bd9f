/**
 * The IR program: one control-flow graph per function, the variable and
 * label counters, the label reference-count protocol, and instruction
 * insertion with hash-consed splitting of arithmetic.
 */
module IrProgram {
  import opened Base
  import opened IrTypes

  /** A label's bookkeeping: its reference count and the ids of the jumps recorded on it. */
  datatype LabelRec = LabelRec(ref: int, ins: seq<nat>)

  /** A basic block: the label that opens it, and its instruction range [start, end). */
  datatype Block = Block(lbl: Option<nat>, start: nat, end: nat)

  /* ------------------------------------------------------------------ */
  /* The label protocol on values                                        */
  /* ------------------------------------------------------------------ */

  /** Positions of the jumps (gotos and branches) that target label `l`. */
  ghost function JumpsTo(irs: seq<Instr>, l: nat): set<nat>
  {
    set p: nat | p < |irs| && irs[p].IsJump() && irs[p].target == l
  }

  /** No two jumps share an identity. */
  predicate JidsUnique(irs: seq<Instr>)
  {
    forall p, q | 0 <= p < |irs| && 0 <= q < |irs| && irs[p].IsJump() && irs[q].IsJump() &&
      irs[p].jid == irs[q].jid :: p == q
  }

  /** A label is placed at most once. */
  predicate LabelsUnique(irs: seq<Instr>)
  {
    forall p, q | 0 <= p < q < |irs| && irs[p].Label? && irs[q].Label? :: irs[p].lbl != irs[q].lbl
  }

  /** Every jump has an identity below the counter and is recorded on a known label. */
  predicate JumpsRecorded(irs: seq<Instr>, labels: map<nat, LabelRec>, nextJid: nat)
  {
    forall p | 0 <= p < |irs| && irs[p].IsJump() ::
      irs[p].jid < nextJid && irs[p].target in labels && irs[p].jid in labels[irs[p].target].ins
  }

  /** Every placed label is known. */
  predicate LabelsKnown(irs: seq<Instr>, labels: map<nat, LabelRec>)
  {
    forall p | 0 <= p < |irs| && irs[p].Label? :: irs[p].lbl in labels
  }

  /** No label's reference count is below the number of jumps to it. */
  ghost predicate RefsCover(irs: seq<Instr>, labels: map<nat, LabelRec>)
  {
    forall l | l in labels :: |JumpsTo(irs, l)| <= labels[l].ref
  }

  /**
   * The protocol invariant: every jump is recorded on the label it targets and
   * has an identity below the counter, every placed label is known, and a
   * label's reference count is never below the number of jumps to it.
   */
  ghost predicate LabelsOk(irs: seq<Instr>, labels: map<nat, LabelRec>, nextJid: nat)
  {
    JidsUnique(irs) && LabelsUnique(irs) && JumpsRecorded(irs, labels, nextJid) &&
    LabelsKnown(irs, labels) && RefsCover(irs, labels)
  }

  /** The position of `LABEL l`, if it is placed. */
  function FindLabel(irs: seq<Instr>, l: nat): (r: Option<nat>)
    ensures r.Some? ==> r.value < |irs| && irs[r.value] == Label(l)
    ensures r.None? ==> forall p | 0 <= p < |irs| :: irs[p] != Label(l)
  {
    if |irs| == 0 then None
    else if irs[|irs| - 1] == Label(l) then Some(|irs| - 1)
    else FindLabel(irs[..|irs| - 1], l)
  }

  /** The position of the jump with identity `jid`, if it is still in the list. */
  function FindJump(irs: seq<Instr>, jid: nat): (r: Option<nat>)
    ensures r.Some? ==> r.value < |irs| && irs[r.value].IsJump() && irs[r.value].jid == jid
    ensures r.None? ==> forall p | 0 <= p < |irs| :: !(irs[p].IsJump() && irs[p].jid == jid)
  {
    if |irs| == 0 then None
    else if irs[|irs| - 1].IsJump() && irs[|irs| - 1].jid == jid then Some(|irs| - 1)
    else FindJump(irs[..|irs| - 1], jid)
  }

  /** `add_branch_goto` on the label: one reference more, and the jump recorded. */
  function Register(labels: map<nat, LabelRec>, l: nat, jid: nat): (r: map<nat, LabelRec>)
    requires l in labels
    ensures r.Keys == labels.Keys
    ensures r[l].ref == labels[l].ref + 1 && r[l].ins == labels[l].ins + [jid]
    ensures forall m | m in labels && m != l :: r[m] == labels[m]
  {
    labels[l := LabelRec(labels[l].ref + 1, labels[l].ins + [jid])]
  }

  /** `remove_branch_goto` on the label: one reference fewer, and a label left with none
      turns into a nop. */
  function Release(irs: seq<Instr>, labels: map<nat, LabelRec>, l: nat): (r: (seq<Instr>, map<nat, LabelRec>))
    requires l in labels && LabelsUnique(irs)
    ensures r.1.Keys == labels.Keys
    ensures r.1[l] == LabelRec(labels[l].ref - 1, labels[l].ins)
    ensures forall m | m in labels && m != l :: r.1[m] == labels[m]
    ensures |r.0| == |irs|
    ensures forall p | 0 <= p < |irs| ::
      r.0[p] == (if labels[l].ref == 1 && irs[p] == Label(l) then Nop else irs[p])
  {
    var labels' := labels[l := LabelRec(labels[l].ref - 1, labels[l].ins)];
    if labels[l].ref - 1 == 0 then
      match FindLabel(irs, l)
      case Some(q) => (irs[q := Nop], labels')
      case None => (irs, labels')
    else (irs, labels')
  }

  lemma JumpsToUpdate(irs: seq<Instr>, p: nat, x: Instr, l: nat)
    requires p < |irs|
    ensures JumpsTo(irs[p := x], l) ==
      (JumpsTo(irs, l) - {p}) + (if x.IsJump() && x.target == l then {p} else {})
  {
  }

  /** While the protocol holds, a label whose count has dropped to zero has no jump to it:
      turning it into a nop strands nothing. */
  lemma ZeroRefUnreferenced(irs: seq<Instr>, labels: map<nat, LabelRec>, n: nat, l: nat)
    requires LabelsOk(irs, labels, n) && l in labels && labels[l].ref <= 0
    ensures JumpsTo(irs, l) == {}
    ensures forall p | 0 <= p < |irs| && irs[p].IsJump() :: irs[p].target != l
  {
    assert |JumpsTo(irs, l)| == 0;
    forall p | 0 <= p < |irs| && irs[p].IsJump()
      ensures irs[p].target != l
    {
      assert p !in JumpsTo(irs, l);
    }
  }

  /**
   * Turning instructions into nops, and keeping every label's recorded jumps,
   * keeps the protocol as long as each count still covers the jumps left.
   */
  lemma NopsKeepLabelsOk(irs: seq<Instr>, irs': seq<Instr>, labels: map<nat, LabelRec>,
                         labels': map<nat, LabelRec>, n: nat)
    requires LabelsOk(irs, labels, n) && |irs'| == |irs|
    requires forall q | 0 <= q < |irs| :: irs'[q] == irs[q] || irs'[q] == Nop
    requires labels'.Keys == labels.Keys && forall m | m in labels :: labels'[m].ins == labels[m].ins
    requires forall m | m in labels :: |JumpsTo(irs', m)| <= labels'[m].ref
    ensures LabelsOk(irs', labels', n)
  {
  }

  /** `remove_branch_goto` keeps the protocol. */
  lemma RemoveKeepsLabelsOk(irs: seq<Instr>, labels: map<nat, LabelRec>, n: nat, p: nat)
    requires LabelsOk(irs, labels, n) && p < |irs| && irs[p].IsJump()
    ensures irs[p].target in labels
    ensures var r := Release(irs, labels, irs[p].target);
      LabelsOk(r.0[p := Nop], r.1, n)
  {
    var l := irs[p].target;
    var r := Release(irs, labels, l);
    var irs' := r.0[p := Nop];
    assert forall q | 0 <= q < |irs| :: irs'[q] == irs[q] || irs'[q] == Nop;
    ReleaseRefs(irs, labels, p);
    NopsKeepLabelsOk(irs, irs', labels, r.1, n);
  }

  /** Once the jump at p is gone, the count its label loses is still covered. */
  lemma ReleaseRefs(irs: seq<Instr>, labels: map<nat, LabelRec>, p: nat)
    requires p < |irs| && irs[p].IsJump() && irs[p].target in labels
    requires LabelsUnique(irs) && RefsCover(irs, labels)
    ensures var r := Release(irs, labels, irs[p].target);
      forall m | m in labels :: |JumpsTo(r.0[p := Nop], m)| <= r.1[m].ref
  {
    var l := irs[p].target;
    var r := Release(irs, labels, l);
    var irs' := r.0[p := Nop];
    forall m | m in labels
      ensures |JumpsTo(irs', m)| <= r.1[m].ref
    {
      assert JumpsTo(irs', m) <= JumpsTo(irs, m) - {p};
      SubsetCardLe(JumpsTo(irs', m), JumpsTo(irs, m) - {p});
      if m == l {
        assert p in JumpsTo(irs, m);
      }
    }
  }

  lemma SubsetCardLe<T>(a: set<T>, b: set<T>)
    requires a <= b
    ensures |a| <= |b|
  {
    if a != {} {
      var x :| x in a;
      SubsetCardLe(a - {x}, b - {x});
    }
  }

  /** Placing a new jump over an instruction that is neither a jump nor a label, and
      recording it on its label, keeps the protocol. */
  lemma PlaceJumpKeepsLabelsOk(irs: seq<Instr>, labels: map<nat, LabelRec>, n: nat, p: nat, k: Instr)
    requires LabelsOk(irs, labels, n) && p < |irs| && !irs[p].IsJump() && !irs[p].Label?
    requires k.IsJump() && k.target in labels && k.jid == n
    ensures LabelsOk(irs[p := k], Register(labels, k.target, n), n + 1)
  {
    var irs' := irs[p := k];
    var labels' := Register(labels, k.target, n);
    assert JidsUnique(irs') by {
      forall q1, q2 | 0 <= q1 < |irs'| && 0 <= q2 < |irs'| && irs'[q1].IsJump() && irs'[q2].IsJump() &&
        irs'[q1].jid == irs'[q2].jid
        ensures q1 == q2
      {
        if q1 != p && q2 != p {
          assert irs'[q1] == irs[q1] && irs'[q2] == irs[q2];
        }
      }
    }
    assert LabelsUnique(irs') by {
      assert forall q | 0 <= q < |irs'| && irs'[q].Label? :: q != p && irs'[q] == irs[q];
    }
    assert JumpsRecorded(irs', labels', n + 1) by {
      forall q | 0 <= q < |irs'| && irs'[q].IsJump()
        ensures irs'[q].jid < n + 1 && irs'[q].target in labels' && irs'[q].jid in labels'[irs'[q].target].ins
      {
        if q != p {
          assert irs'[q] == irs[q];
          assert labels[irs[q].target].ins <= labels'[irs[q].target].ins;
        }
      }
    }
    assert LabelsKnown(irs', labels') by {
      assert forall q | 0 <= q < |irs'| && irs'[q].Label? :: q != p && irs'[q] == irs[q];
    }
    PlaceJumpRefs(irs, labels, n, p, k);
  }

  /** The reference counts still cover the jumps once the new jump is registered. */
  lemma PlaceJumpRefs(irs: seq<Instr>, labels: map<nat, LabelRec>, n: nat, p: nat, k: Instr)
    requires RefsCover(irs, labels) && p < |irs| && !irs[p].IsJump()
    requires k.IsJump() && k.target in labels
    ensures RefsCover(irs[p := k], Register(labels, k.target, n))
  {
    var irs' := irs[p := k];
    var labels' := Register(labels, k.target, n);
    forall m | m in labels'
      ensures |JumpsTo(irs', m)| <= labels'[m].ref
    {
      JumpsToUpdate(irs, p, k, m);
      if m == k.target {
        assert p !in JumpsTo(irs, m);
        assert JumpsTo(irs', m) == JumpsTo(irs, m) + {p};
      } else {
        assert JumpsTo(irs', m) == JumpsTo(irs, m);
      }
    }
  }

  /** Replacing a branch by a fresh goto to the same label, recorded on the label while
      the branch's reference is given back, keeps the protocol. */
  lemma BranchToGotoKeepsLabelsOk(irs: seq<Instr>, labels: map<nat, LabelRec>, n: nat, p: nat)
    requires LabelsOk(irs, labels, n) && p < |irs| && irs[p].Branch?
    ensures irs[p].target in labels && labels[irs[p].target].ref >= 1
    ensures var t := irs[p].target;
      LabelsOk(irs[p := Goto(t, n)], labels[t := LabelRec(labels[t].ref, labels[t].ins + [n])], n + 1)
  {
    var t := irs[p].target;
    assert p in JumpsTo(irs, t);
    var irs1 := irs[p := Nop];
    NopCovered(irs, labels, p);
    NopsKeepLabelsOk(irs, irs1, labels, labels, n);
    var k := Goto(t, n);
    PlaceJumpKeepsLabelsOk(irs1, labels, n, p, k);
    assert irs1[p := k] == irs[p := k];
    SameTargetCovered(irs, labels, p, k, n);
    NopsKeepLabelsOk(irs[p := k], irs[p := k], Register(labels, t, n),
                     labels[t := LabelRec(labels[t].ref, labels[t].ins + [n])], n + 1);
  }

  /** Turning one position into a nop never adds a jump to any label. */
  lemma NopCovered(irs: seq<Instr>, labels: map<nat, LabelRec>, p: nat)
    requires RefsCover(irs, labels) && p < |irs|
    ensures forall m | m in labels :: |JumpsTo(irs[p := Nop], m)| <= labels[m].ref
  {
    forall m | m in labels ensures |JumpsTo(irs[p := Nop], m)| <= labels[m].ref {
      JumpsToUpdate(irs, p, Nop, m);
      SubsetCardLe(JumpsTo(irs[p := Nop], m), JumpsTo(irs, m));
    }
  }

  /** A jump replaced by another jump to the same label leaves every label's jumps
      covered by its old count. */
  lemma SameTargetCovered(irs: seq<Instr>, labels: map<nat, LabelRec>, p: nat, k: Instr, n: nat)
    requires RefsCover(irs, labels) && p < |irs| && irs[p].IsJump() && k.IsJump() && k.target == irs[p].target
    requires k.target in labels
    ensures var t := k.target;
      forall m | m in labels :: |JumpsTo(irs[p := k], m)| <= labels[t := LabelRec(labels[t].ref, labels[t].ins + [n])][m].ref
  {
    forall m | m in labels ensures JumpsTo(irs[p := k], m) == JumpsTo(irs, m) {
      JumpsToUpdate(irs, p, k, m);
    }
  }

  /** Pointing a jump at another label, recorded there with one more reference, keeps the
      protocol; the old label keeps its count. */
  lemma RetargetKeepsLabelsOk(irs: seq<Instr>, labels: map<nat, LabelRec>, n: nat, q: nat, l: nat)
    requires LabelsOk(irs, labels, n) && q < |irs| && irs[q].IsJump() && l in labels && irs[q].target != l
    ensures LabelsOk(irs[q := irs[q].(target := l)], Register(labels, l, irs[q].jid), n)
  {
    var k := irs[q].(target := l);
    var irs' := irs[q := k];
    var labels' := Register(labels, l, irs[q].jid);
    RetargetJids(irs, q, l);
    assert forall r | 0 <= r < |irs'| && irs'[r].Label? :: irs'[r] == irs[r];
    RetargetRecorded(irs, labels, n, q, l);
    RetargetCovered(irs, labels, q, l);
  }

  lemma RetargetJids(irs: seq<Instr>, q: nat, l: nat)
    requires JidsUnique(irs) && q < |irs| && irs[q].IsJump()
    ensures JidsUnique(irs[q := irs[q].(target := l)])
  {
    var irs' := irs[q := irs[q].(target := l)];
    forall q1, q2 | 0 <= q1 < |irs'| && 0 <= q2 < |irs'| && irs'[q1].IsJump() && irs'[q2].IsJump() &&
      irs'[q1].jid == irs'[q2].jid
      ensures q1 == q2
    {
      assert irs[q1].IsJump() && irs[q2].IsJump() && irs[q1].jid == irs[q2].jid;
    }
  }

  lemma RetargetRecorded(irs: seq<Instr>, labels: map<nat, LabelRec>, n: nat, q: nat, l: nat)
    requires JumpsRecorded(irs, labels, n) && q < |irs| && irs[q].IsJump() && l in labels
    ensures JumpsRecorded(irs[q := irs[q].(target := l)], Register(labels, l, irs[q].jid), n)
  {
    var irs' := irs[q := irs[q].(target := l)];
    var labels' := Register(labels, l, irs[q].jid);
    forall r | 0 <= r < |irs'| && irs'[r].IsJump()
      ensures irs'[r].jid < n && irs'[r].target in labels' && irs'[r].jid in labels'[irs'[r].target].ins
    {
      if r != q {
        assert irs'[r] == irs[r];
        assert labels[irs[r].target].ins <= labels'[irs[r].target].ins;
      }
    }
  }

  lemma RetargetCovered(irs: seq<Instr>, labels: map<nat, LabelRec>, q: nat, l: nat)
    requires RefsCover(irs, labels) && q < |irs| && irs[q].IsJump() && l in labels && irs[q].target != l
    ensures RefsCover(irs[q := irs[q].(target := l)], Register(labels, l, irs[q].jid))
  {
    var k := irs[q].(target := l);
    var irs' := irs[q := k];
    var labels' := Register(labels, l, irs[q].jid);
    forall m | m in labels'
      ensures |JumpsTo(irs', m)| <= labels'[m].ref
    {
      JumpsToUpdate(irs, q, k, m);
      if m == l {
        assert q !in JumpsTo(irs, m);
        assert JumpsTo(irs', m) == JumpsTo(irs, m) + {q};
      } else {
        SubsetCardLe(JumpsTo(irs', m), JumpsTo(irs, m));
      }
    }
  }

  /** A label turned into a nop leaves the protocol intact (it is no longer placed). */
  lemma LabelToNopKeepsLabelsOk(irs: seq<Instr>, labels: map<nat, LabelRec>, n: nat, p: nat)
    requires LabelsOk(irs, labels, n) && p < |irs| && irs[p].Label?
    ensures LabelsOk(irs[p := Nop], labels, n)
  {
    forall m | m in labels ensures JumpsTo(irs[p := Nop], m) == JumpsTo(irs, m) {
      JumpsToUpdate(irs, p, Nop, m);
    }
    NopsKeepLabelsOk(irs, irs[p := Nop], labels, labels, n);
  }

  /** Overwriting an instruction that is neither a jump nor a label with another such
      instruction keeps the protocol. */
  lemma ReplacePlainKeepsLabelsOk(irs: seq<Instr>, labels: map<nat, LabelRec>, n: nat, p: nat, x: Instr)
    requires LabelsOk(irs, labels, n) && p < |irs| && !irs[p].IsJump() && !irs[p].Label?
    requires !x.IsJump() && !x.Label?
    ensures LabelsOk(irs[p := x], labels, n)
  {
    forall m | m in labels
      ensures JumpsTo(irs[p := x], m) == JumpsTo(irs, m)
    {
      JumpsToUpdate(irs, p, x, m);
    }
  }

  /** Rewriting a jump's operands or condition in place (same identity, same target) keeps
      the protocol. */
  lemma ReplaceSameJumpKeepsLabelsOk(irs: seq<Instr>, labels: map<nat, LabelRec>, n: nat, p: nat, x: Instr)
    requires LabelsOk(irs, labels, n) && p < |irs| && irs[p].IsJump()
    requires x.IsJump() && x.target == irs[p].target && x.jid == irs[p].jid
    ensures LabelsOk(irs[p := x], labels, n)
  {
    var irs' := irs[p := x];
    forall m | m in labels
      ensures JumpsTo(irs', m) == JumpsTo(irs, m)
    {
      JumpsToUpdate(irs, p, x, m);
    }
    ReplaceSameJumpJids(irs, p, x);
    ReplaceSameJumpRecorded(irs, labels, n, p, x);
  }

  /** The identity part of `ReplaceSameJumpKeepsLabelsOk`: identities and labels stay unique. */
  lemma ReplaceSameJumpJids(irs: seq<Instr>, p: nat, x: Instr)
    requires JidsUnique(irs) && LabelsUnique(irs) && p < |irs| && irs[p].IsJump()
    requires x.IsJump() && x.jid == irs[p].jid
    ensures JidsUnique(irs[p := x]) && LabelsUnique(irs[p := x])
  {
    var irs' := irs[p := x];
    forall q, r | 0 <= q < |irs'| && 0 <= r < |irs'| && irs'[q].IsJump() && irs'[r].IsJump() &&
      irs'[q].jid == irs'[r].jid
      ensures q == r
    {
      assert irs[q].IsJump() && irs[r].IsJump() && irs[q].jid == irs[r].jid;
    }
    assert forall q | 0 <= q < |irs'| && irs'[q].Label? :: irs'[q] == irs[q];
  }

  /** The bookkeeping part of `ReplaceSameJumpKeepsLabelsOk`: every jump stays recorded and
      every placed label stays known. */
  lemma ReplaceSameJumpRecorded(irs: seq<Instr>, labels: map<nat, LabelRec>, n: nat, p: nat, x: Instr)
    requires JumpsRecorded(irs, labels, n) && LabelsKnown(irs, labels) && p < |irs| && irs[p].IsJump()
    requires x.IsJump() && x.target == irs[p].target && x.jid == irs[p].jid
    ensures JumpsRecorded(irs[p := x], labels, n) && LabelsKnown(irs[p := x], labels)
  {
    var irs' := irs[p := x];
    assert forall q | 0 <= q < |irs'| && irs'[q].IsJump() ::
      irs[q].IsJump() && irs'[q].jid == irs[q].jid && irs'[q].target == irs[q].target;
    assert forall q | 0 <= q < |irs'| && irs'[q].Label? :: irs'[q] == irs[q];
  }

  /** Appending an instruction that is neither a jump nor a label keeps the protocol. */
  lemma AppendPlainKeepsLabelsOk(irs: seq<Instr>, labels: map<nat, LabelRec>, n: nat, x: Instr)
    requires LabelsOk(irs, labels, n) && !x.IsJump() && !x.Label?
    ensures LabelsOk(irs + [x], labels, n)
  {
    var irs' := irs + [x];
    forall m | m in labels
      ensures JumpsTo(irs', m) == JumpsTo(irs, m)
    {
      assert forall q | 0 <= q < |irs| :: irs'[q] == irs[q];
    }
  }

  /** Appending a label that is known and not yet placed keeps the protocol. */
  lemma AppendLabelKeepsLabelsOk(irs: seq<Instr>, labels: map<nat, LabelRec>, n: nat, l: nat)
    requires LabelsOk(irs, labels, n) && l in labels && FindLabel(irs, l).None?
    ensures LabelsOk(irs + [Label(l)], labels, n)
  {
    AppendLabelUnique(irs, l);
    AppendLabelJumps(irs, labels, n, l);
    AppendLabelRefs(irs, labels, l);
  }

  /** A label not yet placed can be placed once. */
  lemma AppendLabelUnique(irs: seq<Instr>, l: nat)
    requires LabelsUnique(irs) && FindLabel(irs, l).None?
    ensures LabelsUnique(irs + [Label(l)])
  {
    var irs' := irs + [Label(l)];
    assert forall q | 0 <= q < |irs| :: irs'[q] == irs[q];
  }

  /** A label adds no jump, and a known label stays known once placed. */
  lemma AppendLabelJumps(irs: seq<Instr>, labels: map<nat, LabelRec>, n: nat, l: nat)
    requires JidsUnique(irs) && JumpsRecorded(irs, labels, n) && LabelsKnown(irs, labels) && l in labels
    ensures var irs' := irs + [Label(l)];
      JidsUnique(irs') && JumpsRecorded(irs', labels, n) && LabelsKnown(irs', labels)
  {
    var irs' := irs + [Label(l)];
    assert forall q | 0 <= q < |irs| :: irs'[q] == irs[q];
  }

  /** A label adds no jump, so the reference counts still cover the jumps. */
  lemma AppendLabelRefs(irs: seq<Instr>, labels: map<nat, LabelRec>, l: nat)
    requires RefsCover(irs, labels)
    ensures RefsCover(irs + [Label(l)], labels)
  {
    var irs' := irs + [Label(l)];
    forall m | m in labels
      ensures JumpsTo(irs', m) == JumpsTo(irs, m)
    {
      assert forall q | 0 <= q < |irs| :: irs'[q] == irs[q];
    }
  }

  /** Appending a fresh jump and recording it on its label keeps the protocol. */
  lemma AppendJumpKeepsLabelsOk(irs: seq<Instr>, labels: map<nat, LabelRec>, n: nat, k: Instr)
    requires LabelsOk(irs, labels, n) && k.IsJump() && k.target in labels && k.jid == n
    ensures LabelsOk(irs + [k], Register(labels, k.target, n), n + 1)
  {
    AppendPlainKeepsLabelsOk(irs, labels, n, Nop);
    PlaceJumpKeepsLabelsOk(irs + [Nop], labels, n, |irs|, k);
    assert (irs + [Nop])[|irs| := k] == irs + [k];
  }

  /* ------------------------------------------------------------------ */
  /* Control-flow graphs and the program                                 */
  /* ------------------------------------------------------------------ */

  /**
   * One function: its instruction list, the labels it owns, the expression
   * map used to hash-cons arithmetic, and (once built) its blocks, edges and
   * reachability. Block `|bbs|` stands for the exit block.
   */
  class Cfg {
    const name: string
    const no: nat
    var reachable: bool
    var irs: seq<Instr>
    var labels: map<nat, LabelRec>
    var nextJid: nat
    /** Expression (by its representative) to the temporary that holds it. */
    var exprMap: map<Expr, nat>
    var bbs: seq<Block>
    var exit: Block
    var outs: seq<seq<nat>>
    var ins: seq<seq<nat>>
    var bbReach: seq<bool>
    /** The block each placed label opens (`label->bb`). */
    var labelBlock: map<nat, nat>

    ghost predicate Valid()
      reads this
    {
      LabelsOk(irs, labels, nextJid) && (forall e | e in exprMap :: Canon(e) == e)
    }

    /** The block structure, edges and reachability flags, as one value. */
    ghost function Shape(): (seq<Block>, Block, seq<seq<nat>>, seq<seq<nat>>, seq<bool>, map<nat, nat>, bool)
      reads this
    {
      (bbs, exit, outs, ins, bbReach, labelBlock, reachable)
    }

    /** The instruction list and the bookkeeping that goes with it, as one value. */
    ghost function Code(): (seq<Instr>, map<nat, LabelRec>, nat, map<Expr, nat>)
      reads this
    {
      (irs, labels, nextJid, exprMap)
    }

    /** The blocks, edges and block reachability, as one value. */
    ghost function Graph(): (seq<Block>, Block, seq<seq<nat>>, seq<seq<nat>>, seq<bool>, map<nat, nat>)
      reads this
    {
      (bbs, exit, outs, ins, bbReach, labelBlock)
    }

    /** The part of `add_cfg` that creates the graph: its list starts with the function header. */
    constructor (name: string, no: nat, params: seq<nat>)
      ensures Valid() && this.name == name && this.no == no && reachable
      ensures irs == [Func(name, params)] && labels == map[] && exprMap == map[] && nextJid == 0
      ensures bbs == [] && outs == [] && ins == [] && bbReach == [] && labelBlock == map[]
    {
      this.name := name;
      this.no := no;
      reachable := true;
      irs := [Func(name, params)];
      labels := map[];
      nextJid := 0;
      exprMap := map[];
      bbs := [];
      exit := Block(None, 1, 1);
      outs := [];
      ins := [];
      bbReach := [];
      labelBlock := map[];
    }

    /** A new jump object: it gets the next identity. */
    method NewJid() returns (jid: nat)
      modifies this
      ensures jid == old(nextJid) && nextJid == jid + 1
      ensures irs == old(irs) && labels == old(labels) && exprMap == old(exprMap)
      ensures Shape() == old(Shape())
    {
      jid := nextJid;
      nextJid := nextJid + 1;
    }

    /** `add_branch_goto`: the target label gains a reference and records the jump. */
    method AddBranchGoto(k: Instr)
      requires k.IsJump() && k.target in labels
      modifies this
      ensures labels == Register(old(labels), k.target, k.jid)
      ensures labels[k.target].ref == old(labels[k.target].ref) + 1
      ensures irs == old(irs) && nextJid == old(nextJid) && exprMap == old(exprMap)
      ensures Shape() == old(Shape())
    {
      labels := Register(labels, k.target, k.jid);
    }

    /** The label half of `remove_branch_goto`, for a jump that has already left the list:
        the label loses a reference and becomes a nop when none is left. */
    method ReleaseJump(k: Instr)
      requires k.IsJump() && k.target in labels && LabelsUnique(irs)
      modifies this
      ensures (irs, labels) == Release(old(irs), old(labels), k.target)
      ensures labels[k.target].ref == old(labels[k.target].ref) - 1
      ensures nextJid == old(nextJid) && exprMap == old(exprMap)
      ensures Shape() == old(Shape())
    {
      var r := Release(irs, labels, k.target);
      irs, labels := r.0, r.1;
    }

    /** Appends an instruction that is not a jump; a label must be known and not yet placed. */
    method Append(x: Instr)
      requires Valid() && !x.IsJump()
      requires x.Label? ==> x.lbl in labels && FindLabel(irs, x.lbl).None?
      modifies this
      ensures Valid() && irs == old(irs) + [x]
      ensures labels == old(labels) && nextJid == old(nextJid) && exprMap == old(exprMap)
      ensures Shape() == old(Shape())
    {
      if x.Label? {
        AppendLabelKeepsLabelsOk(irs, labels, nextJid, x.lbl);
      } else {
        AppendPlainKeepsLabelsOk(irs, labels, nextJid, x);
      }
      irs := irs + [x];
    }

    /** Appends a jump under a fresh identity and records it on its target label. */
    method AppendJump(x: Instr) returns (k: Instr)
      requires Valid() && x.IsJump() && x.target in labels
      modifies this
      ensures Valid()
      ensures k == x.(jid := old(nextJid)) && irs == old(irs) + [k]
      ensures labels == Register(old(labels), x.target, old(nextJid)) && nextJid == old(nextJid) + 1
      ensures exprMap == old(exprMap) && Shape() == old(Shape())
    {
      var jid := NewJid();
      k := x.(jid := jid);
      AppendJumpKeepsLabelsOk(irs, labels, jid, k);
      irs := irs + [k];
      AddBranchGoto(k);
    }

    /** Records that temporary t holds expression e (a representative). */
    /** The graph's part of `add_ir` on an arithmetic: e is recorded as held by t, and
        the pair `t := a op b; x := t` is appended. */
    method AppendArth(e: Expr, t: nat, x: Instr)
      requires Valid() && Canon(e) == e && x.Arth?
      modifies this
      ensures Valid() && exprMap == old(exprMap)[e := t]
      ensures irs == old(irs) + [Arth(t, x.opr1, x.opr2, x.op), Mov(x.lhs, Var(t))]
      ensures labels == old(labels) && nextJid == old(nextJid)
    {
      RecordExpr(e, t);
      Append(Arth(t, x.opr1, x.opr2, x.op));
      Append(Mov(x.lhs, Var(t)));
    }

    method RecordExpr(e: Expr, t: nat)
      requires Valid() && Canon(e) == e
      modifies this
      ensures Valid() && exprMap == old(exprMap)[e := t]
      ensures irs == old(irs) && labels == old(labels) && nextJid == old(nextJid)
      ensures Shape() == old(Shape())
    {
      exprMap := exprMap[e := t];
    }

    /** A fresh label with no references (the graph's part of `gen_label`). */
    method AddLabel(l: nat)
      requires Valid() && l !in labels
      modifies this
      ensures Valid() && labels == old(labels)[l := LabelRec(0, [])]
      ensures irs == old(irs) && nextJid == old(nextJid) && exprMap == old(exprMap)
      ensures Shape() == old(Shape())
    {
      labels := labels[l := LabelRec(0, [])];
      forall m | m in labels
        ensures JumpsTo(irs, m) == old(JumpsTo(irs, m))
      {
      }
    }

    /** Overwrites an instruction that is neither a jump nor a label with another such
        instruction (a nop, a move, a retargeted definition). */
    method ReplacePlain(p: nat, x: Instr)
      requires Valid() && p < |irs| && !irs[p].IsJump() && !irs[p].Label?
      requires !x.IsJump() && !x.Label?
      modifies this
      ensures Valid() && irs == old(irs)[p := x]
      ensures labels == old(labels) && nextJid == old(nextJid) && exprMap == old(exprMap)
      ensures Shape() == old(Shape())
    {
      ReplacePlainKeepsLabelsOk(irs, labels, nextJid, p, x);
      irs := irs[p := x];
    }

    /** Rewrites the operands or condition of a jump in place, keeping its identity and target. */
    method ReplaceJump(p: nat, x: Instr)
      requires Valid() && p < |irs| && irs[p].IsJump()
      requires x.IsJump() && x.target == irs[p].target && x.jid == irs[p].jid
      modifies this
      ensures Valid() && irs == old(irs)[p := x]
      ensures labels == old(labels) && nextJid == old(nextJid) && exprMap == old(exprMap)
      ensures Shape() == old(Shape())
    {
      ReplaceSameJumpKeepsLabelsOk(irs, labels, nextJid, p, x);
      irs := irs[p := x];
    }

    /**
     * A branch becomes a goto to the same label: the goto is created and
     * recorded (`add_branch_goto`) before the branch gives its reference back
     * (`remove_branch_goto`), so the label's count ends where it started and
     * never reaches zero on the way.
     */
    method BranchToGoto(p: nat) returns (k: Instr)
      requires Valid() && p < |irs| && irs[p].Branch?
      modifies this
      ensures Valid() && k == Goto(old(irs[p].target), old(nextJid)) && k.target in old(labels)
      ensures irs == old(irs)[p := k] && nextJid == old(nextJid) + 1
      ensures labels == old(labels)[k.target := LabelRec(old(labels[irs[p].target].ref),
                                                         old(labels[irs[p].target].ins) + [k.jid])]
      ensures exprMap == old(exprMap) && Shape() == old(Shape())
    {
      BranchToGotoKeepsLabelsOk(irs, labels, nextJid, p);
      var t := irs[p].target;
      k := Goto(t, nextJid);
      irs := irs[p := k];
      labels := labels[t := LabelRec(labels[t].ref, labels[t].ins + [nextJid])];
      nextJid := nextJid + 1;
    }

    /** Places a fresh jump over an instruction that is neither a jump nor a label
        (a nop left by `remove_branch_goto`), recording it on its label. */
    method PlaceJump(p: nat, x: Instr) returns (k: Instr)
      requires Valid() && p < |irs| && !irs[p].IsJump() && !irs[p].Label?
      requires x.IsJump() && x.target in labels
      modifies this
      ensures Valid() && k == x.(jid := old(nextJid)) && irs == old(irs)[p := k]
      ensures labels == Register(old(labels), x.target, old(nextJid)) && nextJid == old(nextJid) + 1
      ensures exprMap == old(exprMap) && Shape() == old(Shape())
    {
      k := x.(jid := nextJid);
      PlaceJumpKeepsLabelsOk(irs, labels, nextJid, p, k);
      irs := irs[p := k];
      labels := Register(labels, x.target, nextJid);
      nextJid := nextJid + 1;
    }

    /** Points the jump at q to label l and records it there with one more reference. */
    method Retarget(q: nat, l: nat)
      requires Valid() && q < |irs| && irs[q].IsJump() && l in labels && irs[q].target != l
      modifies this
      ensures Valid() && irs == old(irs)[q := old(irs[q]).(target := l)]
      ensures labels == Register(old(labels), l, old(irs[q].jid))
      ensures nextJid == old(nextJid) && exprMap == old(exprMap) && Shape() == old(Shape())
    {
      RetargetKeepsLabelsOk(irs, labels, nextJid, q, l);
      labels := Register(labels, l, irs[q].jid);
      irs := irs[q := irs[q].(target := l)];
    }

    /** Turns the label at p into a nop; its bookkeeping stays. */
    method LabelToNop(p: nat)
      requires Valid() && p < |irs| && irs[p].Label?
      modifies this
      ensures Valid() && irs == old(irs)[p := Nop]
      ensures labels == old(labels) && nextJid == old(nextJid) && exprMap == old(exprMap)
      ensures Shape() == old(Shape())
    {
      LabelToNopKeepsLabelsOk(irs, labels, nextJid, p);
      irs := irs[p := Nop];
    }

    /** `remove_branch_goto` on the jump at position p: its label is released and the
        jump becomes a nop; the protocol is kept. */
    method RemoveBranchGoto(p: nat)
      requires Valid() && p < |irs| && irs[p].IsJump()
      modifies this
      ensures Valid()
      ensures old(irs[p].target) in old(labels)
      ensures var r := Release(old(irs), old(labels), old(irs[p].target));
        irs == r.0[p := Nop] && labels == r.1
      ensures labels[old(irs[p].target)].ref == 0 ==> JumpsTo(irs, old(irs[p].target)) == {}
      ensures nextJid == old(nextJid) && exprMap == old(exprMap)
      ensures Shape() == old(Shape())
    {
      RemoveKeepsLabelsOk(irs, labels, nextJid, p);
      var k := irs[p];
      ReleaseJump(k);
      irs := irs[p := Nop];
      if labels[k.target].ref == 0 {
        ZeroRefUnreferenced(irs, labels, nextJid, k.target);
      }
    }
  }

  /** The whole program: its graphs in creation order, the counters, and the function table. */
  /** The graphs of a program: distinct, numbered by position, each valid, with labels
      below `labelNum`, and the function table pointing at the graph of each name. */
  ghost predicate GraphsValid(cfgs: seq<Cfg>, labelNum: nat, funcTable: map<string, nat>)
    reads cfgs
  {
    (forall i, j | 0 <= i < j < |cfgs| :: cfgs[i] != cfgs[j]) &&
    (forall i | 0 <= i < |cfgs| :: cfgs[i].no == i && cfgs[i].Valid()) &&
    (forall i, l | 0 <= i < |cfgs| && l in cfgs[i].labels :: l < labelNum) &&
    (forall f | f in funcTable :: funcTable[f] < |cfgs| && cfgs[funcTable[f]].name == f)
  }

  /** Appending a new, valid, label-free graph named `name` keeps the graphs valid. */
  lemma AppendGraph(cfgs: seq<Cfg>, labelNum: nat, funcTable: map<string, nat>, cfg: Cfg, name: string)
    requires GraphsValid(cfgs, labelNum, funcTable) && cfg !in cfgs
    requires cfg.Valid() && cfg.no == |cfgs| && cfg.name == name && cfg.labels == map[]
    ensures GraphsValid(cfgs + [cfg], labelNum, funcTable[name := |cfgs|])
  {
    var cfgs' := cfgs + [cfg];
    assert forall i | 0 <= i < |cfgs| :: cfgs'[i] == cfgs[i];
  }

  class Program {
    var cfgs: seq<Cfg>
    var varNum: nat
    var labelNum: nat
    var funcTable: map<string, nat>

    ghost predicate Valid()
      reads this, cfgs
    {
      GraphsValid(cfgs, labelNum, funcTable)
    }

    /** `init_ir_program`: no graphs, both counters at zero. */
    constructor ()
      ensures Valid() && cfgs == [] && varNum == 0 && labelNum == 0 && funcTable == map[]
    {
      cfgs := [];
      varNum := 0;
      labelNum := 0;
      funcTable := map[];
    }

    /** `add_cfg`: a new graph numbered by its position, entered in the function table
        (a later function of the same name takes over the entry). */
    method AddCfg(name: string, params: seq<nat>)
      requires Valid()
      modifies this
      ensures Valid()
      ensures |cfgs| == old(|cfgs|) + 1 && cfgs == old(cfgs) + [cfgs[|cfgs| - 1]]
      ensures fresh(cfgs[|cfgs| - 1]) && cfgs[|cfgs| - 1].irs == [Func(name, params)]
      ensures cfgs[|cfgs| - 1].labels == map[] && cfgs[|cfgs| - 1].nextJid == 0 && cfgs[|cfgs| - 1].exprMap == map[]
      ensures funcTable == old(funcTable)[name := |cfgs| - 1]
      ensures varNum == old(varNum) && labelNum == old(labelNum)
    {
      var cfg := new Cfg(name, |cfgs|, params);
      var cfgs', ft' := cfgs + [cfg], funcTable[name := |cfgs|];
      AppendGraph(cfgs, labelNum, funcTable, cfg, name);
      cfgs, funcTable := cfgs', ft';
      assert GraphsValid(cfgs', labelNum, ft');
    }

    /** `new_var_id` / `gen_temp_var`: the next variable id; ids are never handed out twice. */
    method NewVarId() returns (id: nat)
      modifies this
      ensures id == old(varNum) && varNum == id + 1
      ensures cfgs == old(cfgs) && labelNum == old(labelNum) && funcTable == old(funcTable)
    {
      id := varNum;
      varNum := varNum + 1;
    }

    /** `gen_label`: the next label number, with no references yet. The label belongs to
        the function being lowered, the last graph. */
    method GenLabel() returns (l: nat)
      requires Valid() && |cfgs| > 0
      modifies this, cfgs[|cfgs| - 1]
      ensures cfgs == old(cfgs) && varNum == old(varNum) && funcTable == old(funcTable)
      ensures Valid()
      ensures l == old(labelNum) && labelNum == l + 1
      ensures l !in old(cfgs[|cfgs| - 1].labels)
      ensures cfgs[|cfgs| - 1].labels == old(cfgs[|cfgs| - 1].labels)[l := LabelRec(0, [])]
      ensures cfgs[|cfgs| - 1].irs == old(cfgs[|cfgs| - 1].irs)
      ensures cfgs[|cfgs| - 1].nextJid == old(cfgs[|cfgs| - 1].nextJid)
      ensures cfgs[|cfgs| - 1].exprMap == old(cfgs[|cfgs| - 1].exprMap)
    {
      var cfg := cfgs[|cfgs| - 1];
      l := labelNum;
      labelNum := labelNum + 1;
      cfg.AddLabel(l);
    }

    /**
     * `add_ir` into the last graph. An arithmetic `x := a op b` is split into
     * `t := a op b; x := t`, where t is the temporary already holding an equal
     * expression, or a fresh variable that from now on holds it. A jump gets a
     * fresh identity and is recorded on its label.
     */
    method AddIr(x: Instr)
      requires Valid() && |cfgs| > 0
      requires x.IsJump() ==> x.target in cfgs[|cfgs| - 1].labels
      requires x.Label? ==> x.lbl in cfgs[|cfgs| - 1].labels && FindLabel(cfgs[|cfgs| - 1].irs, x.lbl).None?
      modifies this, cfgs[|cfgs| - 1]
      ensures cfgs == old(cfgs) && labelNum == old(labelNum) && funcTable == old(funcTable)
      ensures Valid()
      ensures x.Arth? ==>
        var c := cfgs[|cfgs| - 1];
        var e := Canon(Expr(x.opr1, x.opr2, x.op));
        var t := if e in old(c.exprMap) then old(c.exprMap)[e] else old(varNum);
        && c.irs == old(c.irs) + [Arth(t, x.opr1, x.opr2, x.op), Mov(x.lhs, Var(t))]
        && c.exprMap == old(c.exprMap)[e := t]
        && varNum == (if e in old(c.exprMap) then old(varNum) else old(varNum) + 1)
        && c.labels == old(c.labels)
      ensures x.IsJump() ==>
        var c := cfgs[|cfgs| - 1];
        && c.irs == old(c.irs) + [x.(jid := old(c.nextJid))]
        && c.labels == Register(old(c.labels), x.target, old(c.nextJid))
        && varNum == old(varNum) && c.exprMap == old(c.exprMap)
      ensures !x.Arth? && !x.IsJump() ==>
        var c := cfgs[|cfgs| - 1];
        && c.irs == old(c.irs) + [x]
        && c.labels == old(c.labels) && varNum == old(varNum) && c.exprMap == old(c.exprMap)
      ensures cfgs[|cfgs| - 1].nextJid == old(cfgs[|cfgs| - 1].nextJid) + (if x.IsJump() then 1 else 0)
    {
      if x.Arth? {
        AddArth(x);
      } else if x.IsJump() {
        var k := cfgs[|cfgs| - 1].AppendJump(x);
      } else {
        cfgs[|cfgs| - 1].Append(x);
      }
    }

    /** The arithmetic case of `add_ir`: the expression goes to its temporary, which the
        destination then copies. */
    method AddArth(x: Instr)
      requires Valid() && |cfgs| > 0 && x.Arth?
      modifies this, cfgs[|cfgs| - 1]
      ensures cfgs == old(cfgs) && labelNum == old(labelNum) && funcTable == old(funcTable)
      ensures Valid()
      ensures var c := cfgs[|cfgs| - 1];
        var e := Canon(Expr(x.opr1, x.opr2, x.op));
        var t := if e in old(c.exprMap) then old(c.exprMap)[e] else old(varNum);
        && c.irs == old(c.irs) + [Arth(t, x.opr1, x.opr2, x.op), Mov(x.lhs, Var(t))]
        && c.exprMap == old(c.exprMap)[e := t]
        && varNum == (if e in old(c.exprMap) then old(varNum) else old(varNum) + 1)
        && c.labels == old(c.labels)
      ensures cfgs[|cfgs| - 1].nextJid == old(cfgs[|cfgs| - 1].nextJid)
    {
      var cfg := cfgs[|cfgs| - 1];
      var e := Canon(Expr(x.opr1, x.opr2, x.op));
      var t: nat;
      if e in cfg.exprMap {
        t := cfg.exprMap[e];
      } else {
        t := NewVarId();
      }
      cfg.AppendArth(e, t, x);
    }
  }

  /** Two arithmetic instructions with equal expressions, added one after the other, share
      their temporary. */
  lemma SameExprSameTemp(m: map<Expr, nat>, n: nat, e1: Expr, e2: Expr)
    requires SameArth(e1, e2)
    ensures var t1 := if Canon(e1) in m then m[Canon(e1)] else n;
      var m1 := m[Canon(e1) := t1];
      Canon(e2) in m1 && m1[Canon(e2)] == t1
  {
    SameArthIffCanon(e1, e2);
  }
}
