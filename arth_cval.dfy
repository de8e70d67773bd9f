/**
 * The facts of `ir_arthprog`, packed into one 64-bit word as the union
 * `val_union_t` lays them out: bit 0 tells the two forms apart; an "ivi"
 * word `v * mul + add` keeps v in 15 bits, mul in 16 and add in 32; a "vv"
 * word `v1 op v2` keeps each variable in 15 bits and the operator in 3. The
 * word 0 is the null fact. Words are natural numbers here, and the bit
 * fields are written out with division and remainder.
 */
module ArthCval {
  import opened Base
  import opened IrTypes

  /** A packed fact; 0 is `NULL`. */
  type Word = nat

  const NULL: Word := 0
  const F15: nat := 0x8000
  const F16: nat := 0x1_0000
  const F31: nat := 0x8000_0000
  const F32: nat := 0x1_0000_0000

  /** An affine fact `v * mul + add`. */
  datatype Ivi = Ivi(v: nat, mul: int, add: int)

  /** A fact `v1 op v2`; op is the operator's enumeration value. */
  datatype Vv = Vv(v1: nat, v2: nat, op: nat)

  /** Storing a C `int` into an unsigned bit field of width `size` keeps it modulo the size. */
  function Field(x: int, size: nat): (r: nat)
    requires size > 0
    ensures r < size
  {
    x % size
  }

  /** `(int16_t)(uint16_t)`: a 16-bit field read back as a signed value. */
  function Sign16(u: nat): (r: int)
    requires u < F16
    ensures -0x8000 <= r <= 0x7FFF
    ensures r % F16 == u
  {
    if u >= F15 then u - F16 else u
  }

  /** The word with the ivi fields: type 1, then v, mul and add. */
  function PackIvi(v: int, mul: int, add: int): Word
  {
    1 + 2 * Field(v, F15) + F16 * Field(mul, F16) + F32 * Field(add, F32)
  }

  /** The word with the vv fields: type 0, then v1, v2 and the operator. */
  function PackVv(v1: int, v2: int, op: nat): Word
  {
    2 * Field(v1, F15) + F16 * Field(v2, F15) + F31 * Field(op, 8)
  }

  /** `decode_ivi`: the ivi fields, when bit 0 says the word is an ivi. */
  function DecodeIvi(w: Word): (r: Option<Ivi>)
    ensures r.Some? <==> w % 2 == 1
    ensures r.Some? ==> r.value.v < F15 && -0x8000 <= r.value.mul <= 0x7FFF && IsInt32(r.value.add)
  {
    if w % 2 != 1 then None
    else Some(Ivi((w / 2) % F15, Sign16((w / F16) % F16), Wrap32((w / F32) % F32)))
  }

  /** `decode_vv`: the vv fields, when bit 0 says the word is a vv. */
  function DecodeVv(w: Word): (r: Option<Vv>)
    ensures r.Some? <==> w % 2 == 0
    ensures r.Some? ==> r.value.v1 < F15 && r.value.v2 < F15 && r.value.op < 8
  {
    if w % 2 != 0 then None
    else Some(Vv((w / 2) % F15, (w / F16) % F15, (w / F31) % 8))
  }

  /** The two decoders never both succeed, and one of them always does. */
  lemma DecodersExclusive(w: Word)
    ensures DecodeIvi(w).Some? <==> DecodeVv(w).None?
  {
  }

  /** `contain_var`: the variable fields of the decoded form include var. */
  predicate ContainVar(w: Word, x: nat)
  {
    if w % 2 == 0 then x == DecodeVv(w).value.v1 || x == DecodeVv(w).value.v2
    else x == DecodeIvi(w).value.v
  }

  /** `contain_var` tests exactly the variable fields of whichever form the word has. */
  lemma ContainVarFields(w: Word, x: nat)
    ensures DecodeVv(w).Some? ==> (ContainVar(w, x) <==> x == DecodeVv(w).value.v1 || x == DecodeVv(w).value.v2)
    ensures DecodeIvi(w).Some? ==> (ContainVar(w, x) <==> x == DecodeIvi(w).value.v)
  {
  }

  /** Reading the ivi fields back from a packed ivi word. */
  lemma UnpackIvi(v: int, mul: int, add: int)
    ensures var w := PackIvi(v, mul, add);
      w % 2 == 1 && (w / 2) % F15 == Field(v, F15) && (w / F16) % F16 == Field(mul, F16) &&
      (w / F32) % F32 == Field(add, F32)
  {
    var a, b, c := Field(v, F15), Field(mul, F16), Field(add, F32);
    var w := PackIvi(v, mul, add);
    assert w == 1 + 2 * (a + F15 * b + F31 * c);
    assert w / 2 == a + F15 * (b + F16 * c);
    assert w / F16 == b + F16 * c;
    assert w / F32 == c;
  }

  /** Reading the vv fields back from a packed vv word. */
  lemma UnpackVv(v1: int, v2: int, op: nat)
    ensures var w := PackVv(v1, v2, op);
      w % 2 == 0 && (w / 2) % F15 == Field(v1, F15) && (w / F16) % F15 == Field(v2, F15) &&
      (w / F31) % 8 == Field(op, 8)
  {
    var a, b, c := Field(v1, F15), Field(v2, F15), Field(op, 8);
    var w := PackVv(v1, v2, op);
    assert w == 2 * (a + F15 * b + F15 * F15 * c);
    assert w / 2 == a + F15 * (b + F15 * c);
    assert w / F16 == b + F15 * c;
    assert w / F31 == c;
  }

  /** A 16-bit field read back gives a value already in range. */
  lemma Sign16Field(mul: int)
    requires -0x8000 <= mul <= 0x7FFF
    ensures Sign16(Field(mul, F16)) == mul
  {
  }

  /** A 32-bit field read back as an `int` is the value wrapped to 32 bits. */
  lemma Wrap32Field(add: int)
    ensures Wrap32(Field(add, F32)) == Wrap32(add)
  {
    var q := add / F32;
    assert add == F32 * q + Field(add, F32);
    assert (Field(add, F32) - add) == TWO32 * (-q);
    ModShift(0, -q);
    Wrap32Congruent(Field(add, F32), add);
  }

  /* ------------------------------------------------------------------ */
  /* make_ivi and make_vv as written                                    */
  /* ------------------------------------------------------------------ */

  /** `make_ivi` as written: the guard admits variable 32768, one past what 15 bits hold. */
  function MakeIviAsWritten(v: nat, mul: int, add: int): Word
  {
    if v > 0x8000 || mul > 0x7FFF || mul < -0x8000 then NULL
    else PackIvi(if mul == 0 then 0 else v, mul, add)
  }

  /** `make_vv` as written, with the same guard. */
  function MakeVvAsWritten(v1: nat, v2: nat, op: ArithOp): Word
    requires op == Plus || op == Minus
  {
    if v1 > 0x8000 || v2 > 0x8000 then NULL
    else if v1 == v2 then (if op == Plus then MakeIviAsWritten(v1, 2, 0) else MakeIviAsWritten(0, 0, 0))
    else if op == Plus && v1 > v2 then PackVv(v2, v1, Code(op))
    else PackVv(v1, v2, Code(op))
  }

  /** Variable 32768 passes the guard of `make_ivi` and comes back as variable 0: the fact
      `v32768 * 1 + 0` reads as `v0 * 1 + 0`. */
  lemma AsWrittenIviLosesVar()
    ensures MakeIviAsWritten(0x8000, 1, 0) != NULL
    ensures DecodeIvi(MakeIviAsWritten(0x8000, 1, 0)) == Some(Ivi(0, 1, 0))
  {
    UnpackIvi(0x8000, 1, 0);
  }

  /** The same for `make_vv`: `v32768 - v1` reads as `v0 - v1`. */
  lemma AsWrittenVvLosesVar()
    ensures MakeVvAsWritten(0x8000, 1, Minus) != NULL
    ensures DecodeVv(MakeVvAsWritten(0x8000, 1, Minus)) == Some(Vv(0, 1, Code(Minus)))
  {
    UnpackVv(0x8000, 1, Code(Minus));
  }

  /* ------------------------------------------------------------------ */
  /* make_ivi and make_vv, with the guard the field width calls for      */
  /* ------------------------------------------------------------------ */

  /** `make_ivi`: null unless v fits its 15 bits and mul its 16; a zero multiplier zeroes v,
      so that every constant has one word. */
  function MakeIvi(v: nat, mul: int, add: int): (w: Word)
    ensures w != NULL <==> v < F15 && -0x8000 <= mul <= 0x7FFF
  {
    if v > 0x7FFF || mul > 0x7FFF || mul < -0x8000 then NULL
    else PackIvi(if mul == 0 then 0 else v, mul, add)
  }

  /** What `make_ivi` gives back through `decode_ivi`: v (zero for a constant), mul, and add
      as a C `int`. */
  lemma MakeIviDecodes(v: nat, mul: int, add: int)
    ensures MakeIvi(v, mul, add) != NULL ==>
      DecodeIvi(MakeIvi(v, mul, add)) == Some(Ivi(if mul == 0 then 0 else v, mul, Wrap32(add)))
  {
    if MakeIvi(v, mul, add) != NULL {
      UnpackIvi(if mul == 0 then 0 else v, mul, add);
      Sign16Field(mul);
      Wrap32Field(add);
    }
  }

  /** `make_vv` for `+` and `-`: `v + v` is `v * 2`, `v - v` is the constant 0, and the
      operands of `+` are put in ascending order. */
  function MakeVv(v1: nat, v2: nat, op: ArithOp): (w: Word)
    requires op == Plus || op == Minus
  {
    if v1 > 0x7FFF || v2 > 0x7FFF then NULL
    else if v1 == v2 then (if op == Plus then MakeIvi(v1, 2, 0) else MakeIvi(0, 0, 0))
    else if op == Plus && v1 > v2 then PackVv(v2, v1, Code(op))
    else PackVv(v1, v2, Code(op))
  }

  /** Decoding the operator field of a vv word made by `make_vv`. */
  function OpOf(code: nat): Option<ArithOp>
  {
    if code == 4 then Some(Plus) else if code == 5 then Some(Minus)
    else if code == 6 then Some(Star) else if code == 7 then Some(Div) else None
  }

  /** What `make_vv` gives back through the decoders. */
  lemma MakeVvDecodes(v1: nat, v2: nat, op: ArithOp)
    requires op == Plus || op == Minus
    ensures MakeVv(v1, v2, op) != NULL <==> v1 < F15 && v2 < F15
    ensures MakeVv(v1, v2, op) != NULL && v1 == v2 ==>
      DecodeIvi(MakeVv(v1, v2, op)) == Some(if op == Plus then Ivi(v1, 2, 0) else Ivi(0, 0, 0))
    ensures MakeVv(v1, v2, op) != NULL && v1 != v2 ==>
      match DecodeVv(MakeVv(v1, v2, op))
      case None => false
      case Some(d) =>
        OpOf(d.op) == Some(op) &&
        (if op == Minus then d.v1 == v1 && d.v2 == v2
         else d.v1 < d.v2 && {d.v1, d.v2} == {v1, v2})
  {
    MakeIviDecodes(v1, 2, 0);
    MakeIviDecodes(0, 0, 0);
    if v1 < F15 && v2 < F15 && v1 != v2 {
      var a, b := if op == Plus && v1 > v2 then v2 else v1, if op == Plus && v1 > v2 then v1 else v2;
      assert MakeVv(v1, v2, op) == PackVv(a, b, Code(op));
      UnpackVv(a, b, Code(op));
      assert DecodeVv(PackVv(a, b, Code(op))) == Some(Vv(a, b, Code(op)));
    }
  }
}
