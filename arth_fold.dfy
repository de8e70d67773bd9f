/**
 * What the packed facts of `ir_arthprog` mean, and the two searches over a
 * map of them: `fold_v2v`, which follows affine facts from one variable to
 * another, and `fold_to`, which rewrites a two-variable linear term
 * `m0 * v0 + m1 * v1 + imm` step by step with the facts until nothing
 * applies. All arithmetic is that of C `int`, wrapped to 32 bits; a term is
 * therefore known only up to multiples of 2^32, and the soundness lemmas
 * are stated with the congruence `Cong`.
 */
module ArthFold {
  import opened Base
  import opened IrTypes
  import opened IrEval
  import opened ArthCval

  /** Variable to the packed fact about its value; absent keys have no fact (`NULL`). */
  type Facts = map<nat, Word>

  /** `hmap_get` on a map that is not top. */
  function Get(m: Facts, x: nat): Word
  {
    if x in m then m[x] else NULL
  }

  /* ------------------------------------------------------------------ */
  /* What a word means                                                   */
  /* ------------------------------------------------------------------ */

  /** The value a word stands for in store s: `mul * v + add`, or `v1 + v2` / `v1 - v2`
      for the two operator codes `make_vv` writes; any other word stands for nothing. */
  function Denotes(s: Store, w: Word): (r: Option<int>)
    ensures r.Some? ==> IsInt32(r.value)
  {
    match DecodeIvi(w)
    case Some(d) => Some(Wrap32(d.mul * Val(s, d.v) + d.add))
    case None =>
      var d := DecodeVv(w).value;
      if d.op == Code(Plus) then Some(Wrap32(Val(s, d.v1) + Val(s, d.v2)))
      else if d.op == Code(Minus) then Some(Wrap32(Val(s, d.v1) - Val(s, d.v2)))
      else None
  }

  /** The fact w about x is true in s. */
  predicate Means(s: Store, x: nat, w: Word)
  {
    Denotes(s, w) == Some(Val(s, x))
  }

  /** Every fact of m is true in s. */
  ghost predicate Holds(m: Facts, s: Store)
  {
    forall x {:trigger Means(s, x, m[x])} | x in m :: Means(s, x, m[x])
  }

  /** The variables whose value the word depends on: a multiplied variable, or either
      operand of a vv. */
  predicate Uses(w: Word, x: nat)
  {
    match DecodeIvi(w)
    case Some(d) => d.mul != 0 && d.v == x
    case None => DecodeVv(w).value.v1 == x || DecodeVv(w).value.v2 == x
  }

  /** A word `cval2opr` turns into an operand: a constant, or a variable times one. */
  predicate IsOperand(w: Word)
  {
    match DecodeIvi(w)
    case Some(d) => d.mul == 0 || (d.mul == 1 && d.add == 0)
    case None => false
  }

  /** `make_ivi` makes a word that stands for `mul * v + add`. */
  lemma MakeIviDenotes(v: nat, mul: int, add: int, s: Store)
    requires MakeIvi(v, mul, add) != NULL
    ensures Denotes(s, MakeIvi(v, mul, add)) == Some(Wrap32(mul * Val(s, v) + add))
  {
    MakeIviDecodes(v, mul, add);
    var d := DecodeIvi(MakeIvi(v, mul, add)).value;
    var p := mul * Val(s, v);
    assert d.mul * Val(s, d.v) == p by {
      if mul == 0 {
        assert d.mul == 0;
      } else {
        assert d.v == v && d.mul == mul;
      }
    }
    Wrap32Sum(p, add);
  }

  /** `make_vv` makes a word that stands for `v1 op v2`. */
  lemma MakeVvDenotes(v1: nat, v2: nat, op: ArithOp, s: Store)
    requires (op == Plus || op == Minus) && MakeVv(v1, v2, op) != NULL
    ensures Denotes(s, MakeVv(v1, v2, op)) == Some(ArthVal(op, Val(s, v1), Val(s, v2)))
  {
    MakeVvDecodes(v1, v2, op);
    if v1 == v2 {
      assert 2 * Val(s, v1) == Val(s, v1) + Val(s, v2);
    }
  }

  /** What `Get` returns about x is true in every store the map holds in. */
  lemma GetSound(m: Facts, x: nat, s: Store)
    requires Holds(m, s) && Get(m, x) != NULL
    ensures Means(s, x, Get(m, x))
  {
    assert Means(s, x, m[x]);
  }

  /* ------------------------------------------------------------------ */
  /* Congruence modulo 2^32                                              */
  /* ------------------------------------------------------------------ */

  /** a and b are the same C `int`: they differ by a multiple of 2^32. */
  ghost predicate Cong(a: int, b: int)
  {
    exists q :: a - b == Times32(q)
  }

  /** q multiples of 2^32. */
  function Times32(q: int): int
  {
    TWO32 * q
  }

  lemma CongFrom(a: int, b: int, q: int)
    requires a - b == TWO32 * q
    ensures Cong(a, b)
  {
    assert a - b == Times32(q);
  }

  lemma CongTo(a: int, b: int) returns (q: int)
    requires Cong(a, b)
    ensures a - b == TWO32 * q
  {
    q :| a - b == Times32(q);
  }

  lemma CongTrans(a: int, b: int, c: int)
    requires Cong(a, b) && Cong(b, c)
    ensures Cong(a, c)
  {
    var q1 := CongTo(a, b);
    var q2 := CongTo(b, c);
    CongFrom(a, c, q1 + q2);
  }

  /** A value and its wrap are the same C `int`. */
  lemma CongWrap(x: int)
    ensures Cong(Wrap32(x), x) && Cong(x, Wrap32(x))
  {
    var q := (Wrap32(x) - x) / TWO32;
    assert Wrap32(x) - x == TWO32 * q;
    CongFrom(Wrap32(x), x, q);
    CongFrom(x, Wrap32(x), -q);
  }

  /** A value is congruent to its wrap. */
  lemma CongWrapped(w: int, x: int)
    requires w == Wrap32(x)
    ensures Cong(w, x)
  {
    CongWrap(x);
  }

  lemma CongSame(a: int, b: int, a2: int, b2: int)
    requires a == a2 && b == b2 && Cong(a2, b2)
    ensures Cong(a, b)
  {
  }

  lemma CongInt32(a: int, b: int)
    requires Cong(a, b) && IsInt32(a) && IsInt32(b)
    ensures a == b
  {
    var q := CongTo(a, b);
  }

  /* ------------------------------------------------------------------ */
  /* fold_v2v                                                           */
  /* ------------------------------------------------------------------ */

  /**
   * `fold_v2v` from `mul * from + imm`: follow the affine facts from `from` until `to` is
   * reached and make `mul' * to + imm'`, or give up (`NULL`) where a variable has no
   * affine fact. The walk takes at most `fuel` steps.
   */
  function FoldV2vFrom(m: Facts, from: nat, to: nat, mul: int, imm: int, fuel: nat): (r: Word)
    ensures r != NULL ==> DecodeIvi(r).Some?
    decreases fuel
  {
    if from == to then MakeIviDecodes(from, mul, imm); MakeIvi(from, mul, imm)
    else if fuel == 0 then NULL
    else match DecodeIvi(Get(m, from))
      case None => NULL
      case Some(d) => FoldV2vFrom(m, d.v, to, Wrap32(mul * d.mul), Wrap32(imm + d.add * mul), fuel - 1)
  }

  /** `fold_v2v(map, from, to)`, walking at most once per fact. */
  function FoldV2v(m: Facts, from: nat, to: nat): (r: Word)
    ensures r != NULL ==> DecodeIvi(r).Some?
  {
    FoldV2vFrom(m, from, to, 1, 0, |m|)
  }

  /** Each step of the walk keeps `mul * from + imm` the same C `int`. */
  lemma V2vStep(mul: int, imm: int, f: int, dm: int, da: int, z: int, w1: int, w2: int)
    requires Cong(f, dm * z + da) && Cong(w1, mul * dm) && Cong(w2, imm + da * mul)
    ensures Cong(mul * f + imm, w1 * z + w2)
  {
    var q1 := CongTo(f, dm * z + da);
    var q2 := CongTo(w1, mul * dm);
    var q3 := CongTo(w2, imm + da * mul);
    assert mul * f == (mul * dm) * z + da * mul + TWO32 * (mul * q1);
    assert w1 * z == (mul * dm) * z + TWO32 * (q2 * z);
    CongFrom(mul * f + imm, w1 * z + w2, mul * q1 - q2 * z - q3);
  }

  /** An affine fact in a map that holds gives its variable's value as a C `int`. */
  lemma IviFact(m: Facts, x: nat, s: Store)
    requires Holds(m, s) && DecodeIvi(Get(m, x)).Some?
    ensures var d := DecodeIvi(Get(m, x)).value; Cong(Val(s, x), d.mul * Val(s, d.v) + d.add)
  {
    var d := DecodeIvi(Get(m, x)).value;
    GetSound(m, x, s);
    assert Val(s, x) == Wrap32(d.mul * Val(s, d.v) + d.add);
    CongWrap(d.mul * Val(s, d.v) + d.add);
  }

  /** The end of the walk: the word made for `mul * to + imm`. */
  lemma V2vDone(to: nat, mul: int, imm: int, s: Store, t: int)
    requires MakeIvi(to, mul, imm) != NULL && Cong(t, mul * Val(s, to) + imm)
    ensures var d := DecodeIvi(MakeIvi(to, mul, imm)).value; Cong(t, d.mul * Val(s, to) + d.add)
  {
    MakeIviDecodes(to, mul, imm);
    var d := DecodeIvi(MakeIvi(to, mul, imm)).value;
    assert d.mul == mul && d.add == Wrap32(imm);
    CongWrap(imm);
    var q1 := CongTo(t, mul * Val(s, to) + imm);
    var q2 := CongTo(imm, d.add);
    CongFrom(t, d.mul * Val(s, to) + d.add, q1 + q2);
  }

  /** One step of the walk, from a variable with an affine fact. */
  lemma V2vUnfold(m: Facts, from: nat, to: nat, mul: int, imm: int, fuel: nat)
    requires from != to && fuel > 0 && DecodeIvi(Get(m, from)).Some?
    ensures var d := DecodeIvi(Get(m, from)).value;
      FoldV2vFrom(m, from, to, mul, imm, fuel) ==
      FoldV2vFrom(m, d.v, to, Wrap32(mul * d.mul), Wrap32(imm + d.add * mul), fuel - 1)
  {
  }

  /** The step keeps the walked term equal to T. */
  lemma V2vAdvance(m: Facts, from: nat, mul: int, imm: int, s: Store, t: int)
    requires Holds(m, s) && Cong(t, mul * Val(s, from) + imm) && DecodeIvi(Get(m, from)).Some?
    ensures var d := DecodeIvi(Get(m, from)).value;
      Cong(t, Wrap32(mul * d.mul) * Val(s, d.v) + Wrap32(imm + d.add * mul))
  {
    var d := DecodeIvi(Get(m, from)).value;
    var z := Val(s, d.v);
    var w1, w2 := Wrap32(mul * d.mul), Wrap32(imm + d.add * mul);
    IviFact(m, from, s);
    CongWrap(mul * d.mul);
    CongWrap(imm + d.add * mul);
    V2vStep(mul, imm, Val(s, from), d.mul, d.add, z, w1, w2);
    CongTrans(t, mul * Val(s, from) + imm, w1 * z + w2);
  }

  /** What the walk makes is true: if T is `mul * from + imm`, it is also
      `mul' * to + imm'` for the word's multiplier and addend. */
  lemma {:induction false} FoldV2vFromSound(m: Facts, from: nat, to: nat, mul: int, imm: int, fuel: nat,
                                          s: Store, t: int)
    requires Holds(m, s) && Cong(t, mul * Val(s, from) + imm)
    ensures var r := FoldV2vFrom(m, from, to, mul, imm, fuel);
      r != NULL ==> Cong(t, DecodeIvi(r).value.mul * Val(s, to) + DecodeIvi(r).value.add)
    decreases fuel
  {
    if from == to {
      if MakeIvi(to, mul, imm) != NULL {
        V2vDone(to, mul, imm, s, t);
      }
    } else if fuel > 0 && DecodeIvi(Get(m, from)).Some? {
      var d := DecodeIvi(Get(m, from)).value;
      V2vUnfold(m, from, to, mul, imm, fuel);
      V2vAdvance(m, from, mul, imm, s, t);
      FoldV2vFromSound(m, d.v, to, Wrap32(mul * d.mul), Wrap32(imm + d.add * mul), fuel - 1, s, t);
    }
  }

  /** `fold_v2v` is sound: a word it makes says how `from` is `mul * to + add`. */
  lemma FoldV2vSound(m: Facts, from: nat, to: nat, s: Store)
    requires Holds(m, s)
    ensures var r := FoldV2v(m, from, to);
      r != NULL ==> Cong(Val(s, from), DecodeIvi(r).value.mul * Val(s, to) + DecodeIvi(r).value.add)
  {
    CongFrom(Val(s, from), 1 * Val(s, from) + 0, 0);
    FoldV2vFromSound(m, from, to, 1, 0, |m|, s, Val(s, from));
  }

  /** The loop of `fold_v2v`. */
  method FoldV2vWalk(m: Facts, from: nat, to: nat) returns (r: Word)
    ensures r == FoldV2v(m, from, to)
  {
    var cur, mul, imm := from, 1, 0;
    var k: nat := |m|;
    while true
      invariant FoldV2vFrom(m, cur, to, mul, imm, k) == FoldV2v(m, from, to)
      decreases k
    {
      if cur == to {
        return MakeIvi(cur, mul, imm);
      }
      if k == 0 {
        return NULL;
      }
      var f := DecodeIvi(Get(m, cur));
      if f.None? {
        return NULL;
      }
      imm := Wrap32(imm + f.value.add * mul);
      mul := Wrap32(mul * f.value.mul);
      cur := f.value.v;
      k := k - 1;
    }
  }

  /* ------------------------------------------------------------------ */
  /* The linear term of fold_to                                          */
  /* ------------------------------------------------------------------ */

  /** `m0 * v0 + m1 * v1 + imm`, the arrays `v`, `m` and `imm` of `fold_to`. */
  datatype Lin = Lin(v0: nat, v1: nat, m0: int, m1: int, imm: int)

  function VarOf(st: Lin, i: nat): nat
    requires i < 2
  {
    if i == 0 then st.v0 else st.v1
  }

  function MulOf(st: Lin, i: nat): int
    requires i < 2
  {
    if i == 0 then st.m0 else st.m1
  }

  /** The term with side i set to `mi * vi` and the other side to `mo * vo`. */
  function Set2(i: nat, vi: nat, mi: int, vo: nat, mo: int, imm: int): Lin
    requires i < 2
  {
    if i == 0 then Lin(vi, vo, mi, mo, imm) else Lin(vo, vi, mo, mi, imm)
  }

  /** The value of the term in s, as an exact integer. */
  function Term(s: Store, st: Lin): int
  {
    st.m0 * Val(s, st.v0) + st.m1 * Val(s, st.v1) + st.imm
  }

  lemma TermSides(s: Store, st: Lin, i: nat)
    requires i < 2
    ensures Term(s, st) == MulOf(st, i) * Val(s, VarOf(st, i)) + MulOf(st, 1 - i) * Val(s, VarOf(st, 1 - i)) + st.imm
  {
  }

  lemma TermSet2(s: Store, i: nat, vi: nat, mi: int, vo: nat, mo: int, imm: int)
    requires i < 2
    ensures Term(s, Set2(i, vi, mi, vo, mo, imm)) == mi * Val(s, vi) + mo * Val(s, vo) + imm
  {
  }

  /** The term `fold_to` starts from: `v1 ± v2`, or `mul * v + add`. */
  function Init(ori: Word): Lin
  {
    match DecodeVv(ori)
    case Some(d) => Lin(d.v1, d.v2, 1, if d.op == Code(Plus) then 1 else -1, 0)
    case None => var d := DecodeIvi(ori).value; Lin(d.v, 0, d.mul, 0, d.add)
  }

  /** The starting term has the value the word stands for. */
  lemma InitSound(ori: Word, s: Store)
    requires Denotes(s, ori).Some?
    ensures Cong(Denotes(s, ori).value, Term(s, Init(ori)))
  {
    var t := Term(s, Init(ori));
    match DecodeVv(ori) {
      case Some(d) =>
        if d.op == Code(Plus) {
          assert t == Val(s, d.v1) + Val(s, d.v2);
        } else {
          assert t == Val(s, d.v1) - Val(s, d.v2);
        }
        CongWrap(t);
      case None =>
        var d := DecodeIvi(ori).value;
        assert t == d.mul * Val(s, d.v) + d.add;
        CongWrap(t);
    }
  }

  /* ------------------------------------------------------------------ */
  /* The five ways fold_to rewrites the term, each keeping its value     */
  /* ------------------------------------------------------------------ */

  /** With `x = a + p*b` and `a = m1*y + imm1`: side i becomes `sg * b`, a folding into y;
      w1 and w2 are the wrapped new multiplier of y and constant. */
  lemma AlgFoldFirst(x: int, y: int, a: int, b: int, mi: int, mo: int, imm: int, m1: int, imm1: int,
                     p: int, sg: int, w1: int, w2: int)
    requires Cong(x, a + p * b) && Cong(a, m1 * y + imm1) && Cong(sg, p * mi)
    requires Cong(w1, mo + mi * m1) && Cong(w2, imm + mi * imm1)
    ensures Cong(mi * x + mo * y + imm, sg * b + w1 * y + w2)
  {
    var q1 := CongTo(x, a + p * b);
    var q2 := CongTo(a, m1 * y + imm1);
    var q3 := CongTo(sg, p * mi);
    var q4 := CongTo(w1, mo + mi * m1);
    var q5 := CongTo(w2, imm + mi * imm1);
    assert mi * x == mi * a + (p * mi) * b + TWO32 * (mi * q1);
    assert mi * a == (mi * m1) * y + mi * imm1 + TWO32 * (mi * q2);
    assert sg * b == (p * mi) * b + TWO32 * (q3 * b);
    assert w1 * y == mo * y + (mi * m1) * y + TWO32 * (q4 * y);
    CongFrom(mi * x + mo * y + imm, sg * b + w1 * y + w2, mi * q1 + mi * q2 - q3 * b - q4 * y - q5);
  }

  /** With `x = a + p*b` and `b = m1*y + imm1`: side i becomes `mi * a`, b folding into y. */
  lemma AlgFoldSecond(x: int, y: int, a: int, b: int, mi: int, mo: int, imm: int, m1: int, imm1: int,
                      p: int, sg: int, w1: int, w2: int)
    requires Cong(x, a + p * b) && Cong(b, m1 * y + imm1) && Cong(sg, p * mi)
    requires Cong(w1, mo + sg * m1) && Cong(w2, imm + sg * imm1)
    ensures Cong(mi * x + mo * y + imm, mi * a + w1 * y + w2)
  {
    var q1 := CongTo(x, a + p * b);
    var q2 := CongTo(b, m1 * y + imm1);
    var q3 := CongTo(sg, p * mi);
    var q4 := CongTo(w1, mo + sg * m1);
    var q5 := CongTo(w2, imm + sg * imm1);
    assert mi * x == mi * a + (p * mi) * b + TWO32 * (mi * q1);
    assert (p * mi) * b == sg * b - TWO32 * (q3 * b);
    assert sg * b == (sg * m1) * y + sg * imm1 + TWO32 * (sg * q2);
    assert w1 * y == mo * y + (sg * m1) * y + TWO32 * (q4 * y);
    CongFrom(mi * x + mo * y + imm, mi * a + w1 * y + w2, mi * q1 - q3 * b + sg * q2 - q4 * y - q5);
  }

  /** With `x = m0*y + imm0`: side i is merged into the other side. */
  lemma AlgMerge(x: int, y: int, mi: int, mo: int, imm: int, m0: int, imm0: int, z: int, w1: int, w2: int)
    requires Cong(x, m0 * y + imm0) && Cong(w1, mo + m0 * mi) && Cong(w2, imm + imm0 * mi)
    ensures Cong(mi * x + mo * y + imm, 0 * z + w1 * y + w2)
  {
    var q1 := CongTo(x, m0 * y + imm0);
    var q4 := CongTo(w1, mo + m0 * mi);
    var q5 := CongTo(w2, imm + imm0 * mi);
    assert mi * x == (m0 * mi) * y + imm0 * mi + TWO32 * (mi * q1);
    assert w1 * y == mo * y + (m0 * mi) * y + TWO32 * (q4 * y);
    CongFrom(mi * x + mo * y + imm, 0 * z + w1 * y + w2, mi * q1 - q4 * y - q5);
  }

  /** With `x = m0*z + imm0`: side i's variable is replaced by z. */
  lemma AlgSubst(x: int, y: int, z: int, mi: int, mo: int, imm: int, m0: int, imm0: int, w1: int, w2: int)
    requires Cong(x, m0 * z + imm0) && Cong(w1, mi * m0) && Cong(w2, imm + imm0 * mi)
    ensures Cong(mi * x + mo * y + imm, w1 * z + mo * y + w2)
  {
    var q1 := CongTo(x, m0 * z + imm0);
    var q4 := CongTo(w1, mi * m0);
    var q5 := CongTo(w2, imm + imm0 * mi);
    assert mi * x == (mi * m0) * z + imm0 * mi + TWO32 * (mi * q1);
    assert w1 * z == (mi * m0) * z + TWO32 * (q4 * z);
    CongFrom(mi * x + mo * y + imm, w1 * z + mo * y + w2, mi * q1 - q4 * z - q5);
  }

  /** With `x = a + p*b` and the other side empty: the term becomes `mi*a + sg*b`. */
  lemma AlgSplit(x: int, y: int, a: int, b: int, mi: int, imm: int, p: int, sg: int)
    requires Cong(x, a + p * b) && Cong(sg, p * mi)
    ensures Cong(mi * x + 0 * y + imm, mi * a + sg * b + imm)
  {
    var q1 := CongTo(x, a + p * b);
    var q3 := CongTo(sg, p * mi);
    assert mi * x == mi * a + (p * mi) * b + TWO32 * (mi * q1);
    assert sg * b == (p * mi) * b + TWO32 * (q3 * b);
    CongFrom(mi * x + 0 * y + imm, mi * a + sg * b + imm, mi * q1 - q3 * b);
  }

  /* ------------------------------------------------------------------ */
  /* The three tiers of fold_to                                          */
  /* ------------------------------------------------------------------ */

  /** The factor with which the second operand of a vv enters: `m` for `+`, `-m` otherwise. */
  function Signed(op: nat, mi: int): int
  {
    if op == Code(Plus) then mi else Wrap32(-mi)
  }

  /** How the decoded operator turns into a sign. */
  function SignOf(op: nat): int
  {
    if op == Code(Plus) then 1 else -1
  }

  /** Tier 1 takes a fold that cancels the other side or the constant; tier 2 one that
      adds no constant to a term that had none; tier 3 any. */
  predicate Accepts(tier: nat, mo: int, ms: int, imm: int, m1: int, imm1: int)
  {
    if tier == 1 then Wrap32(mo + ms * m1) == 0 || (imm != 0 && Wrap32(imm + ms * imm1) == 0)
    else if tier == 2 then imm != 0 || imm1 == 0
    else true
  }

  /** A vv fact `tv0 op tv1` about side i: fold one operand into the other side, or (tier 3,
      other side empty) split side i into both operands. */
  function VvStep(m: Facts, st: Lin, tier: nat, i: nat, d: Vv): Option<Lin>
    requires i < 2
  {
    var mi, mo, vo := MulOf(st, i), MulOf(st, 1 - i), VarOf(st, 1 - i);
    var sg := Signed(d.op, mi);
    if tier == 3 && mo == 0 then Some(Set2(i, d.v1, mi, d.v2, sg, st.imm))
    else if mo == 0 then None
    else
      var t0 := FoldV2v(m, d.v1, vo);
      var t1 := FoldV2v(m, d.v2, vo);
      if t0 != NULL && Accepts(tier, mo, mi, st.imm, DecodeIvi(t0).value.mul, DecodeIvi(t0).value.add) then
        var f := DecodeIvi(t0).value;
        Some(Set2(i, d.v2, sg, vo, Wrap32(mo + mi * f.mul), Wrap32(st.imm + mi * f.add)))
      else if t1 != NULL && Accepts(tier, mo, sg, st.imm, DecodeIvi(t1).value.mul, DecodeIvi(t1).value.add) then
        var f := DecodeIvi(t1).value;
        Some(Set2(i, d.v1, mi, vo, Wrap32(mo + sg * f.mul), Wrap32(st.imm + sg * f.add)))
      else None
  }

  /** An affine fact `mul * tv + add` about side i: merge it into the other side when tv is
      the other side's variable, else substitute it (when the tier takes it). */
  function IviStep(st: Lin, tier: nat, i: nat, d: Ivi): Option<Lin>
    requires i < 2
  {
    var mi, mo, vi, vo := MulOf(st, i), MulOf(st, 1 - i), VarOf(st, i), VarOf(st, 1 - i);
    if mo != 0 && d.v == vo then
      Some(Set2(i, vi, 0, vo, Wrap32(mo + d.mul * mi), Wrap32(st.imm + d.add * mi)))
    else if (tier == 1 && (d.mul == 0 || (st.imm != 0 && Wrap32(st.imm + d.add * mi) == 0))) ||
            (tier == 2 && (st.imm != 0 || d.add == 0)) || tier == 3 then
      Some(Set2(i, d.v, Wrap32(mi * d.mul), vo, mo, Wrap32(st.imm + d.add * mi)))
    else None
  }

  /** One pass of a tier's `for` loop body at side i: a live side with a fact. */
  function TierAt(m: Facts, st: Lin, tier: nat, i: nat): Option<Lin>
    requires i < 2
  {
    if MulOf(st, i) == 0 || Get(m, VarOf(st, i)) == NULL then None
    else match DecodeVv(Get(m, VarOf(st, i)))
      case Some(d) => VvStep(m, st, tier, i, d)
      case None => IviStep(st, tier, i, DecodeIvi(Get(m, VarOf(st, i))).value)
  }

  /** A tier: side 0 first, then side 1. */
  function Tier(m: Facts, st: Lin, tier: nat): Option<Lin>
  {
    var r0 := TierAt(m, st, tier, 0);
    if r0.Some? then r0 else TierAt(m, st, tier, 1)
  }

  /** The search of one round: tier 1, else tier 2, else tier 3; `None` is the `break`. */
  function Search(m: Facts, st: Lin): Option<Lin>
  {
    var r1 := Tier(m, st, 1);
    if r1.Some? then r1
    else var r2 := Tier(m, st, 2);
    if r2.Some? then r2 else Tier(m, st, 3)
  }

  /** The sign a vv operator gives its second operand, side i's multiplier applied. */
  lemma SignedCong(op: nat, mi: int)
    requires op == Code(Plus) || op == Code(Minus)
    ensures Cong(Signed(op, mi), SignOf(op) * mi)
  {
    if op == Code(Plus) {
      CongFrom(Signed(op, mi), SignOf(op) * mi, 0);
    } else {
      CongWrap(-mi);
    }
  }

  /** Tier 3 with the other side empty: side i is split into the two operands. */
  lemma VvSplitSound(st: Lin, i: nat, d: Vv, s: Store)
    requires i < 2 && MulOf(st, 1 - i) == 0
    requires d.op == Code(Plus) || d.op == Code(Minus)
    requires Cong(Val(s, VarOf(st, i)), Val(s, d.v1) + SignOf(d.op) * Val(s, d.v2))
    ensures Cong(Term(s, st), Term(s, Set2(i, d.v1, MulOf(st, i), d.v2, Signed(d.op, MulOf(st, i)), st.imm)))
  {
    var mi := MulOf(st, i);
    SignedCong(d.op, mi);
    TermSides(s, st, i);
    TermSet2(s, i, d.v1, mi, d.v2, Signed(d.op, mi), st.imm);
    AlgSplit(Val(s, VarOf(st, i)), Val(s, VarOf(st, 1 - i)), Val(s, d.v1), Val(s, d.v2), mi, st.imm,
             SignOf(d.op), Signed(d.op, mi));
  }

  /** The first operand, known as `fm * y + fa` for the other side's variable y, folds into
      that side. */
  lemma VvFoldFirstCore(st: Lin, i: nat, d: Vv, s: Store, fm: int, fa: int)
    requires i < 2 && (d.op == Code(Plus) || d.op == Code(Minus))
    requires Cong(Val(s, VarOf(st, i)), Val(s, d.v1) + SignOf(d.op) * Val(s, d.v2))
    requires Cong(Val(s, d.v1), fm * Val(s, VarOf(st, 1 - i)) + fa)
    ensures var mi, mo := MulOf(st, i), MulOf(st, 1 - i);
      Cong(Term(s, st), Term(s, Set2(i, d.v2, Signed(d.op, mi), VarOf(st, 1 - i),
                                     Wrap32(mo + mi * fm), Wrap32(st.imm + mi * fa))))
  {
    var mi, mo, vo := MulOf(st, i), MulOf(st, 1 - i), VarOf(st, 1 - i);
    var sg := Signed(d.op, mi);
    var w1, w2 := Wrap32(mo + mi * fm), Wrap32(st.imm + mi * fa);
    var x, y, a, b := Val(s, VarOf(st, i)), Val(s, vo), Val(s, d.v1), Val(s, d.v2);
    SignedCong(d.op, mi);
    CongWrapped(w1, mo + mi * fm);
    CongWrapped(w2, st.imm + mi * fa);
    TermSides(s, st, i);
    TermSet2(s, i, d.v2, sg, vo, w1, w2);
    AlgFoldFirst(x, y, a, b, mi, mo, st.imm, fm, fa, SignOf(d.op), sg, w1, w2);
    CongSame(Term(s, st), Term(s, Set2(i, d.v2, sg, vo, w1, w2)),
             mi * x + mo * y + st.imm, sg * b + w1 * y + w2);
  }

  /** The second operand, known as `fm * y + fa`, folds into the other side. */
  lemma VvFoldSecondCore(st: Lin, i: nat, d: Vv, s: Store, fm: int, fa: int)
    requires i < 2 && (d.op == Code(Plus) || d.op == Code(Minus))
    requires Cong(Val(s, VarOf(st, i)), Val(s, d.v1) + SignOf(d.op) * Val(s, d.v2))
    requires Cong(Val(s, d.v2), fm * Val(s, VarOf(st, 1 - i)) + fa)
    ensures var mi, mo := MulOf(st, i), MulOf(st, 1 - i);
      var sg := Signed(d.op, mi);
      Cong(Term(s, st), Term(s, Set2(i, d.v1, mi, VarOf(st, 1 - i),
                                     Wrap32(mo + sg * fm), Wrap32(st.imm + sg * fa))))
  {
    var mi, mo, vo := MulOf(st, i), MulOf(st, 1 - i), VarOf(st, 1 - i);
    var sg := Signed(d.op, mi);
    var w1, w2 := Wrap32(mo + sg * fm), Wrap32(st.imm + sg * fa);
    var x, y, a, b := Val(s, VarOf(st, i)), Val(s, vo), Val(s, d.v1), Val(s, d.v2);
    SignedCong(d.op, mi);
    CongWrapped(w1, mo + sg * fm);
    CongWrapped(w2, st.imm + sg * fa);
    TermSides(s, st, i);
    TermSet2(s, i, d.v1, mi, vo, w1, w2);
    AlgFoldSecond(x, y, a, b, mi, mo, st.imm, fm, fa, SignOf(d.op), sg, w1, w2);
    CongSame(Term(s, st), Term(s, Set2(i, d.v1, mi, vo, w1, w2)),
             mi * x + mo * y + st.imm, mi * a + w1 * y + w2);
  }

  /** Every vv step keeps the term's value as a C `int`. */
  /** The vv step of tier 3 against an empty other side. */
  lemma VvStepSplit(m: Facts, st: Lin, i: nat, d: Vv)
    requires i < 2 && MulOf(st, 1 - i) == 0
    ensures VvStep(m, st, 3, i, d) ==
      Some(Set2(i, d.v1, MulOf(st, i), d.v2, Signed(d.op, MulOf(st, i)), st.imm))
  {
  }

  /** The vv step when the first operand folds. */
  lemma VvStepFirst(m: Facts, st: Lin, tier: nat, i: nat, d: Vv)
    requires i < 2 && VvStep(m, st, tier, i, d).Some? && !(tier == 3 && MulOf(st, 1 - i) == 0)
    requires var t0 := FoldV2v(m, d.v1, VarOf(st, 1 - i));
      t0 != NULL && Accepts(tier, MulOf(st, 1 - i), MulOf(st, i), st.imm, DecodeIvi(t0).value.mul,
                            DecodeIvi(t0).value.add)
    ensures var mi, mo, vo := MulOf(st, i), MulOf(st, 1 - i), VarOf(st, 1 - i);
      var f := DecodeIvi(FoldV2v(m, d.v1, vo)).value;
      VvStep(m, st, tier, i, d).value ==
        Set2(i, d.v2, Signed(d.op, mi), vo, Wrap32(mo + mi * f.mul), Wrap32(st.imm + mi * f.add))
  {
  }

  /** The vv step when only the second operand folds. */
  lemma VvStepSecond(m: Facts, st: Lin, tier: nat, i: nat, d: Vv)
    requires i < 2 && VvStep(m, st, tier, i, d).Some? && !(tier == 3 && MulOf(st, 1 - i) == 0)
    requires var t0 := FoldV2v(m, d.v1, VarOf(st, 1 - i));
      !(t0 != NULL && Accepts(tier, MulOf(st, 1 - i), MulOf(st, i), st.imm, DecodeIvi(t0).value.mul,
                              DecodeIvi(t0).value.add))
    ensures var mi, mo, vo := MulOf(st, i), MulOf(st, 1 - i), VarOf(st, 1 - i);
      var sg := Signed(d.op, mi);
      var t1 := FoldV2v(m, d.v2, vo);
      t1 != NULL &&
      VvStep(m, st, tier, i, d).value ==
        Set2(i, d.v1, mi, vo, Wrap32(mo + sg * DecodeIvi(t1).value.mul), Wrap32(st.imm + sg * DecodeIvi(t1).value.add))
  {
  }

  /** The first-operand fold of a vv step keeps the term's value. */
  lemma VvStepFirstSound(m: Facts, st: Lin, tier: nat, i: nat, d: Vv, s: Store)
    requires i < 2 && Holds(m, s)
    requires d.op == Code(Plus) || d.op == Code(Minus)
    requires Cong(Val(s, VarOf(st, i)), Val(s, d.v1) + SignOf(d.op) * Val(s, d.v2))
    requires var t0 := FoldV2v(m, d.v1, VarOf(st, 1 - i));
      t0 != NULL && Accepts(tier, MulOf(st, 1 - i), MulOf(st, i), st.imm, DecodeIvi(t0).value.mul,
                            DecodeIvi(t0).value.add)
    ensures var mi, mo, vo := MulOf(st, i), MulOf(st, 1 - i), VarOf(st, 1 - i);
      var f := DecodeIvi(FoldV2v(m, d.v1, vo)).value;
      Cong(Term(s, st), Term(s, Set2(i, d.v2, Signed(d.op, mi), vo, Wrap32(mo + mi * f.mul),
                                     Wrap32(st.imm + mi * f.add))))
  {
    var t0 := FoldV2v(m, d.v1, VarOf(st, 1 - i));
    FoldV2vSound(m, d.v1, VarOf(st, 1 - i), s);
    var f := DecodeIvi(t0).value;
    assert Cong(Val(s, d.v1), f.mul * Val(s, VarOf(st, 1 - i)) + f.add);
    VvFoldFirstCore(st, i, d, s, f.mul, f.add);
  }

  /** The second-operand fold of a vv step keeps the term's value. */
  lemma VvStepSecondSound(m: Facts, st: Lin, i: nat, d: Vv, s: Store)
    requires i < 2 && Holds(m, s)
    requires d.op == Code(Plus) || d.op == Code(Minus)
    requires Cong(Val(s, VarOf(st, i)), Val(s, d.v1) + SignOf(d.op) * Val(s, d.v2))
    requires FoldV2v(m, d.v2, VarOf(st, 1 - i)) != NULL
    ensures var mi, mo, vo := MulOf(st, i), MulOf(st, 1 - i), VarOf(st, 1 - i);
      var sg := Signed(d.op, mi);
      var t1 := FoldV2v(m, d.v2, vo);
      Cong(Term(s, st), Term(s, Set2(i, d.v1, mi, vo, Wrap32(mo + sg * DecodeIvi(t1).value.mul),
                                     Wrap32(st.imm + sg * DecodeIvi(t1).value.add))))
  {
    var t1 := FoldV2v(m, d.v2, VarOf(st, 1 - i));
    FoldV2vSound(m, d.v2, VarOf(st, 1 - i), s);
    var f := DecodeIvi(t1).value;
    assert Cong(Val(s, d.v2), f.mul * Val(s, VarOf(st, 1 - i)) + f.add);
    VvFoldSecondCore(st, i, d, s, f.mul, f.add);
  }

  /** Every vv step keeps the term's value as a C `int`. */
  lemma VvStepSound(m: Facts, st: Lin, tier: nat, i: nat, d: Vv, s: Store)
    requires i < 2 && Holds(m, s)
    requires d.op == Code(Plus) || d.op == Code(Minus)
    requires Cong(Val(s, VarOf(st, i)), Val(s, d.v1) + SignOf(d.op) * Val(s, d.v2))
    requires VvStep(m, st, tier, i, d).Some?
    ensures Cong(Term(s, st), Term(s, VvStep(m, st, tier, i, d).value))
  {
    var mo, vo := MulOf(st, 1 - i), VarOf(st, 1 - i);
    var t0 := FoldV2v(m, d.v1, vo);
    if tier == 3 && mo == 0 {
      VvStepSplit(m, st, i, d);
      VvSplitSound(st, i, d, s);
    } else if t0 != NULL &&
              Accepts(tier, mo, MulOf(st, i), st.imm, DecodeIvi(t0).value.mul, DecodeIvi(t0).value.add) {
      VvStepFirst(m, st, tier, i, d);
      VvStepFirstSound(m, st, tier, i, d, s);
    } else {
      VvStepSecond(m, st, tier, i, d);
      VvStepSecondSound(m, st, i, d, s);
    }
  }

  /** An affine fact about the other side's variable merges side i into that side. */
  lemma IviMergeSound(st: Lin, i: nat, d: Ivi, s: Store)
    requires i < 2 && Cong(Val(s, VarOf(st, i)), d.mul * Val(s, d.v) + d.add) && d.v == VarOf(st, 1 - i)
    ensures var mi, mo := MulOf(st, i), MulOf(st, 1 - i);
      Cong(Term(s, st), Term(s, Set2(i, VarOf(st, i), 0, VarOf(st, 1 - i), Wrap32(mo + d.mul * mi),
                                     Wrap32(st.imm + d.add * mi))))
  {
    var mi, mo, vi, vo := MulOf(st, i), MulOf(st, 1 - i), VarOf(st, i), VarOf(st, 1 - i);
    var w1, w2 := Wrap32(mo + d.mul * mi), Wrap32(st.imm + d.add * mi);
    var x, y := Val(s, vi), Val(s, vo);
    CongWrapped(w1, mo + d.mul * mi);
    CongWrapped(w2, st.imm + d.add * mi);
    TermSides(s, st, i);
    TermSet2(s, i, vi, 0, vo, w1, w2);
    AlgMerge(x, y, mi, mo, st.imm, d.mul, d.add, x, w1, w2);
    CongSame(Term(s, st), Term(s, Set2(i, vi, 0, vo, w1, w2)), mi * x + mo * y + st.imm, 0 * x + w1 * y + w2);
  }

  /** An affine fact about side i's variable is substituted into side i. */
  lemma IviSubstSound(st: Lin, i: nat, d: Ivi, s: Store)
    requires i < 2 && Cong(Val(s, VarOf(st, i)), d.mul * Val(s, d.v) + d.add)
    ensures var mi, mo := MulOf(st, i), MulOf(st, 1 - i);
      Cong(Term(s, st), Term(s, Set2(i, d.v, Wrap32(mi * d.mul), VarOf(st, 1 - i), mo,
                                     Wrap32(st.imm + d.add * mi))))
  {
    var mi, mo, vi, vo := MulOf(st, i), MulOf(st, 1 - i), VarOf(st, i), VarOf(st, 1 - i);
    var w1, w2 := Wrap32(mi * d.mul), Wrap32(st.imm + d.add * mi);
    var x, y, z := Val(s, vi), Val(s, vo), Val(s, d.v);
    CongWrapped(w1, mi * d.mul);
    CongWrapped(w2, st.imm + d.add * mi);
    TermSides(s, st, i);
    TermSet2(s, i, d.v, w1, vo, mo, w2);
    AlgSubst(x, y, z, mi, mo, st.imm, d.mul, d.add, w1, w2);
    CongSame(Term(s, st), Term(s, Set2(i, d.v, w1, vo, mo, w2)), mi * x + mo * y + st.imm, w1 * z + mo * y + w2);
  }

  /** The affine step is a merge or a substitution. */
  lemma IviStepIs(st: Lin, tier: nat, i: nat, d: Ivi)
    requires i < 2 && IviStep(st, tier, i, d).Some?
    ensures var mi, mo, vi, vo := MulOf(st, i), MulOf(st, 1 - i), VarOf(st, i), VarOf(st, 1 - i);
      if mo != 0 && d.v == vo then
        IviStep(st, tier, i, d).value == Set2(i, vi, 0, vo, Wrap32(mo + d.mul * mi), Wrap32(st.imm + d.add * mi))
      else
        IviStep(st, tier, i, d).value == Set2(i, d.v, Wrap32(mi * d.mul), vo, mo, Wrap32(st.imm + d.add * mi))
  {
  }

  /** Every affine step keeps the term's value as a C `int`. */
  lemma IviStepSound(st: Lin, tier: nat, i: nat, d: Ivi, s: Store)
    requires i < 2 && Cong(Val(s, VarOf(st, i)), d.mul * Val(s, d.v) + d.add)
    requires IviStep(st, tier, i, d).Some?
    ensures Cong(Term(s, st), Term(s, IviStep(st, tier, i, d).value))
  {
    IviStepIs(st, tier, i, d);
    if MulOf(st, 1 - i) != 0 && d.v == VarOf(st, 1 - i) {
      IviMergeSound(st, i, d, s);
    } else {
      IviSubstSound(st, i, d, s);
    }
  }

  lemma TierAtSound(m: Facts, st: Lin, tier: nat, i: nat, s: Store)
    requires i < 2 && Holds(m, s) && TierAt(m, st, tier, i).Some?
    ensures Cong(Term(s, st), Term(s, TierAt(m, st, tier, i).value))
  {
    var w := Get(m, VarOf(st, i));
    GetSound(m, VarOf(st, i), s);
    match DecodeVv(w) {
      case Some(d) =>
        var x := Val(s, VarOf(st, i));
        var e := Val(s, d.v1) + SignOf(d.op) * Val(s, d.v2);
        assert x == Wrap32(e);
        CongWrap(e);
        VvStepSound(m, st, tier, i, d, s);
      case None =>
        var d := DecodeIvi(w).value;
        CongWrap(d.mul * Val(s, d.v) + d.add);
        IviStepSound(st, tier, i, d, s);
    }
  }

  /** Every rewrite the search finds keeps the term's value as a C `int`. */
  lemma SearchSound(m: Facts, st: Lin, s: Store)
    requires Holds(m, s) && Search(m, st).Some?
    ensures Cong(Term(s, st), Term(s, Search(m, st).value))
  {
    forall tier: nat, i: nat | i < 2 && TierAt(m, st, tier, i).Some?
      ensures Cong(Term(s, st), Term(s, TierAt(m, st, tier, i).value))
    {
      TierAtSound(m, st, tier, i, s);
    }
  }

  /* ------------------------------------------------------------------ */
  /* The `found:` label and the loop of fold_to                          */
  /* ------------------------------------------------------------------ */

  /** A live side of the term is the variable `lhsid`. */
  predicate MentionsLhs(st: Lin, lhsid: Option<nat>)
  {
    lhsid.Some? && ((st.m0 != 0 && st.v0 == lhsid.value) || (st.m1 != 0 && st.v1 == lhsid.value))
  }

  /** The form `found:` writes a term back in: an affine word, a vv word, or none. */
  datatype Shape = AsIvi(v: nat, mul: int, add: int) | AsVv(v1: nat, v2: nat, op: ArithOp) | NoShape

  /** The shapes `found:` knows, tried in its order (level 0: a constant or a variable;
      level 1 also `v0 ± v1`, `±v + imm` and `m * v`). */
  function ShapeOf(st: Lin, level: nat): (r: Shape)
    ensures r.AsVv? ==> r.op == Plus || r.op == Minus
  {
    if st.m0 == 0 && st.m1 == 0 then AsIvi(0, 0, st.imm)
    else if st.m0 == 1 && st.m1 == 0 && st.imm == 0 then AsIvi(st.v0, 1, 0)
    else if st.m0 == 0 && st.m1 == 1 && st.imm == 0 then AsIvi(st.v1, 1, 0)
    else if level == 0 then NoShape
    else if st.m0 == 1 && st.m1 == 1 && st.imm == 0 then AsVv(st.v0, st.v1, Plus)
    else if st.m0 == 1 && st.m1 == -1 && st.imm == 0 then AsVv(st.v0, st.v1, Minus)
    else if st.m0 == -1 && st.m1 == 1 && st.imm == 0 then AsVv(st.v1, st.v0, Minus)
    else if Abs(st.m0) == 1 && st.m1 == 0 then AsIvi(st.v0, st.m0, st.imm)
    else if st.m0 == 0 && Abs(st.m1) == 1 then AsIvi(st.v1, st.m1, st.imm)
    else if st.m1 == 0 && st.imm == 0 && -0x8000 <= st.m0 <= 0x7FFF then AsIvi(st.v0, st.m0, 0)
    else if st.m0 == 0 && st.imm == 0 && -0x8000 <= st.m1 <= 0x7FFF then AsIvi(st.v1, st.m1, 0)
    else NoShape
  }

  /** Every shape has the term's value, and multiplies only live sides' variables. */
  lemma ShapeTerm(st: Lin, level: nat, s: Store)
    ensures match ShapeOf(st, level)
      case AsIvi(v, mul, add) =>
        Term(s, st) == mul * Val(s, v) + add &&
        (mul != 0 ==> (st.m0 != 0 && v == st.v0) || (st.m1 != 0 && v == st.v1))
      case AsVv(v1, v2, op) =>
        Term(s, st) == Val(s, v1) + (if op == Plus then 1 else -1) * Val(s, v2) &&
        st.m0 != 0 && st.m1 != 0 && {v1, v2} == {st.v0, st.v1}
      case NoShape => true
  {
  }

  /** At level 0 only a constant or a variable has a shape. */
  lemma ShapeOperand(st: Lin)
    ensures ShapeOf(st, 0).NoShape? || (ShapeOf(st, 0).AsIvi? &&
      (ShapeOf(st, 0).mul == 0 || (ShapeOf(st, 0).mul == 1 && ShapeOf(st, 0).add == 0)))
  {
  }

  /** The word the term is written back as, when it has a shape and the shape fits. */
  function Commit(st: Lin, level: nat): (r: Option<Word>)
    ensures r.Some? ==> r.value != NULL
  {
    var w := match ShapeOf(st, level)
      case AsIvi(v, mul, add) => MakeIvi(v, mul, add)
      case AsVv(v1, v2, op) => MakeVv(v1, v2, op)
      case NoShape => NULL;
    if w == NULL then None else Some(w)
  }

  /** The word written back stands for the term. */
  lemma CommitSound(st: Lin, level: nat, s: Store)
    requires Commit(st, level).Some?
    ensures Denotes(s, Commit(st, level).value) == Some(Wrap32(Term(s, st)))
  {
    ShapeTerm(st, level, s);
    match ShapeOf(st, level) {
      case AsIvi(v, mul, add) =>
        MakeIviDenotes(v, mul, add, s);
      case AsVv(v1, v2, op) =>
        MakeVvDenotes(v1, v2, op, s);
    }
  }

  /** A word written back for a term none of whose live sides is l does not use l. */
  lemma CommitAvoids(st: Lin, level: nat, l: nat)
    requires Commit(st, level).Some? && !MentionsLhs(st, Some(l))
    ensures !Uses(Commit(st, level).value, l)
  {
    ShapeTerm(st, level, map[]);
    match ShapeOf(st, level) {
      case AsIvi(v, mul, add) =>
        MakeIviDecodes(v, mul, add);
      case AsVv(v1, v2, op) =>
        MakeVvDecodes(v1, v2, op);
    }
  }

  /** At level 0 only a constant or a variable is written back. */
  lemma CommitOperand(st: Lin)
    requires Commit(st, 0).Some?
    ensures IsOperand(Commit(st, 0).value)
  {
    ShapeOperand(st);
    var sh := ShapeOf(st, 0);
    MakeIviDecodes(sh.v, sh.mul, sh.add);
  }

  /** The result after a round that found st: unchanged while st mentions `lhsid`, else
      the word written back, if any. */
  function NextRes(st: Lin, res: Word, level: nat, lhsid: Option<nat>): Word
  {
    if MentionsLhs(st, lhsid) then res
    else match Commit(st, level)
      case None => res
      case Some(w) => w
  }

  /** The `while (1)` loop of `fold_to`, for at most `fuel` rounds, each round running
      `search` (which is `Search` on the map). */
  function FoldLoop(search: Lin -> Option<Lin>, st: Lin, res: Word, level: nat, lhsid: Option<nat>,
                    fuel: nat): (r: Word)
    ensures res != NULL ==> r != NULL
    decreases fuel
  {
    if fuel == 0 then res
    else match search(st)
      case None => res
      case Some(st') => FoldLoop(search, st', NextRes(st', res, level, lhsid), level, lhsid, fuel - 1)
  }

  /** `fold_to(map, ori, level, lhsid)`: the term of ori rewritten for at most `fuel`
      rounds; `NULL` only for a `NULL` ori. */
  function FoldTo(m: Facts, ori: Word, level: nat, lhsid: Option<nat>, fuel: nat): (r: Word)
    ensures r == NULL <==> ori == NULL
  {
    if ori == NULL then NULL else FoldLoop(SearchIn(m), Init(ori), ori, level, lhsid, fuel)
  }

  /** The search of the rounds of `fold_to` on the map m. */
  function SearchIn(m: Facts): Lin -> Option<Lin>
  {
    st => Search(m, st)
  }

  /** One round of the loop: the search found st', and the loop goes on from there. */
  lemma FoldLoopUnfold(search: Lin -> Option<Lin>, st: Lin, res: Word, level: nat, lhsid: Option<nat>,
                       fuel: nat)
    requires fuel > 0 && search(st).Some?
    ensures FoldLoop(search, st, res, level, lhsid, fuel) ==
      FoldLoop(search, search(st).value, NextRes(search(st).value, res, level, lhsid), level, lhsid, fuel - 1)
  {
  }

  /** A search whose every step keeps the term's value in s. */
  ghost predicate KeepsTerm(search: Lin -> Option<Lin>, s: Store)
  {
    forall x :: search(x).Some? ==> Cong(Term(s, x), Term(s, search(x).value))
  }

  lemma {:induction false} FoldLoopSound(search: Lin -> Option<Lin>, st: Lin, res: Word, level: nat,
                                         lhsid: Option<nat>, fuel: nat, s: Store, t: int)
    requires KeepsTerm(search, s) && Cong(t, Term(s, st)) && Denotes(s, res) == Some(t)
    ensures Denotes(s, FoldLoop(search, st, res, level, lhsid, fuel)) == Some(t)
    decreases fuel
  {
    if fuel > 0 && search(st).Some? {
      var st' := search(st).value;
      CongTrans(t, Term(s, st), Term(s, st'));
      var res' := NextRes(st', res, level, lhsid);
      if res' != res {
        CommitSound(st', level, s);
        CongWrap(Term(s, st'));
        CongTrans(t, Term(s, st'), Wrap32(Term(s, st')));
        CongInt32(t, Wrap32(Term(s, st')));
      }
      FoldLoopSound(search, st', res', level, lhsid, fuel - 1, s, t);
    }
  }

  lemma {:induction false} FoldLoopAvoids(search: Lin -> Option<Lin>, st: Lin, res: Word, level: nat,
                                          l: nat, fuel: nat, res0: Word)
    requires res == res0 || !Uses(res, l)
    ensures var r := FoldLoop(search, st, res, level, Some(l), fuel); r == res0 || !Uses(r, l)
    decreases fuel
  {
    if fuel > 0 && search(st).Some? {
      var st' := search(st).value;
      if !MentionsLhs(st', Some(l)) && Commit(st', level).Some? {
        CommitAvoids(st', level, l);
      }
      FoldLoopAvoids(search, st', NextRes(st', res, level, Some(l)), level, l, fuel - 1, res0);
    }
  }

  lemma {:induction false} FoldLoopOperand(search: Lin -> Option<Lin>, st: Lin, res: Word,
                                           lhsid: Option<nat>, fuel: nat, res0: Word)
    requires res == res0 || IsOperand(res)
    ensures var r := FoldLoop(search, st, res, 0, lhsid, fuel); r == res0 || IsOperand(r)
    decreases fuel
  {
    if fuel > 0 && search(st).Some? {
      var st' := search(st).value;
      if !MentionsLhs(st', lhsid) && Commit(st', 0).Some? {
        CommitOperand(st');
      }
      FoldLoopOperand(search, st', NextRes(st', res, 0, lhsid), lhsid, fuel - 1, res0);
    }
  }

  /**
   * What `fold_to` promises: in every store the facts hold in, the word it gives stands
   * for the same value as ori; a word other than ori does not use `lhsid`; and at level 0
   * a word other than ori is a constant or a variable.
   */
  lemma FoldToSound(m: Facts, ori: Word, level: nat, lhsid: Option<nat>, fuel: nat, s: Store)
    requires Holds(m, s) && Denotes(s, ori).Some?
    ensures Denotes(s, FoldTo(m, ori, level, lhsid, fuel)) == Denotes(s, ori)
  {
    var search := SearchIn(m);
    forall x | search(x).Some?
      ensures Cong(Term(s, x), Term(s, search(x).value))
    {
      SearchSound(m, x, s);
    }
    InitSound(ori, s);
    FoldLoopSound(search, Init(ori), ori, level, lhsid, fuel, s, Denotes(s, ori).value);
  }

  lemma FoldToAvoids(m: Facts, ori: Word, level: nat, l: nat, fuel: nat)
    ensures var r := FoldTo(m, ori, level, Some(l), fuel); r == ori || !Uses(r, l)
  {
    if ori != NULL {
      FoldLoopAvoids(SearchIn(m), Init(ori), ori, level, l, fuel, ori);
    }
  }

  lemma FoldToOperand(m: Facts, ori: Word, lhsid: Option<nat>, fuel: nat)
    ensures var r := FoldTo(m, ori, 0, lhsid, fuel); r == ori || IsOperand(r)
  {
    if ori != NULL {
      FoldLoopOperand(SearchIn(m), Init(ori), ori, lhsid, fuel, ori);
    }
  }

  /** The `while (1)` loop of `fold_to`, with the round's search passed in. */
  method RunFoldLoop(search: Lin -> Option<Lin>, st0: Lin, res0: Word, level: nat, lhsid: Option<nat>,
                     fuel: nat) returns (res: Word)
    ensures res == FoldLoop(search, st0, res0, level, lhsid, fuel)
  {
    var st := st0;
    res := res0;
    var k := fuel;
    while k > 0
      invariant FoldLoop(search, st, res, level, lhsid, k) == FoldLoop(search, st0, res0, level, lhsid, fuel)
      decreases k
    {
      var found := search(st);
      if found.None? {
        break;
      }
      FoldLoopUnfold(search, st, res, level, lhsid, k);
      st := found.value;
      res := NextRes(st, res, level, lhsid);
      k := k - 1;
    }
  }

  /** `fold_to`: the loop run from the term of ori. */
  method FoldToLoop(m: Facts, ori: Word, level: nat, lhsid: Option<nat>, fuel: nat) returns (res: Word)
    ensures res == FoldTo(m, ori, level, lhsid, fuel)
  {
    if ori == NULL {
      return NULL;
    }
    res := RunFoldLoop(SearchIn(m), Init(ori), ori, level, lhsid, fuel);
  }
}
