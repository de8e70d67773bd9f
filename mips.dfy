/**
 * The MIPS target: registers in the order of their enumeration, the assembly
 * instructions the back end emits, and their text form (`mips_dump`): a fixed
 * preamble with the `read`/`write` helpers, then for every reachable function
 * its entry sequence and its body, each `ret` expanded into the function's
 * epilogue followed by `jr $ra`.
 */
module Mips {
  import opened Base
  import IrTypes

  /** A register, numbered as in the register enumeration. */
  newtype Reg = r: int | 0 <= r < 32

  const Zero: Reg := 0
  const V0: Reg := 2
  const V1: Reg := 3
  const A0: Reg := 4
  const A3: Reg := 7
  const T0: Reg := 8
  const S0: Reg := 16
  const S7: Reg := 23
  const T8: Reg := 24
  const T9: Reg := 25
  const SP: Reg := 29
  const FP: Reg := 30
  const RA: Reg := 31

  /** `reg_name`: the register names, indexed by the register enumeration. */
  const RegNames: seq<string> := [
    "zero", "at",
    "v0", "v1",
    "a0", "a1", "a2", "a3",
    "t0", "t1", "t2", "t3", "t4", "t5", "t6", "t7",
    "s0", "s1", "s2", "s3", "s4", "s5", "s6", "s7",
    "t8", "t9",
    "k0", "k1",
    "gp", "sp", "fp", "ra"
  ]

  /** The second operand of an arithmetic, move or branch: a register or an immediate. */
  datatype Src = R(reg: Reg) | I(imm: int)

  /** The assembly instructions: memory operands are a base register and an offset. */
  datatype Asm =
    | Func(name: string)
    | Label(lbl: nat)
    | Arth(lhs: Reg, opr1: Reg, opr2: Src, op: IrTypes.ArithOp)
    | Move(lhs: Reg, rhs: Src)
    | Lw(lhs: Reg, base: Reg, offset: int)
    | Sw(base: Reg, offset: int, src: Reg)
    | J(target: nat)
    | Jal(func: string)
    | Ret
    | Bcc(opr1: Reg, opr2: Src, rel: IrTypes.Relop, target: nat)

  /* ------------------------------------------------------------------ */
  /* Text                                                                */
  /* ------------------------------------------------------------------ */

  function RegText(r: Reg): (s: string)
    ensures |s| >= 3 && s[0] == '$'
  {
    "$" + RegNames[r]
  }

  function SrcText(s: Src): string
  {
    match s
    case R(r) => RegText(r)
    case I(k) => IntToString(k)
  }

  /** A memory operand: `offset($reg)`. */
  function MemText(base: Reg, offset: int): string
  {
    IntToString(offset) + "(" + RegText(base) + ")"
  }

  /** The label a function's code starts at: `main` keeps its name, every other
      function is prefixed with `_` (so none can clash with `main`). */
  function EntryName(f: string): (s: string)
    ensures s == "main" || (|s| > 0 && s[0] == '_')
  {
    if f == "main" then "main" else "_" + f
  }

  function ArthMnemonic(op: IrTypes.ArithOp): string
  {
    match op
    case Plus => "addu"
    case Minus => "subu"
    case Star => "mul"
    case Div => "div"
  }

  function BranchMnemonic(rel: IrTypes.Relop): string
  {
    match rel
    case GT => "bgt"
    case LE => "ble"
    case GE => "bge"
    case LT => "blt"
    case EQ => "beq"
    case NEQ => "bne"
  }

  /** The one line every instruction other than `ret` prints. */
  function Line(x: Asm): (s: string)
    requires !x.Ret?
    ensures |s| > 0
  {
    match x
    case Func(f) => EntryName(f) + ":"
    case Label(l) => IrTypes.LabelText(l) + ":"
    case Arth(d, a, b, op) => ArthMnemonic(op) + " " + RegText(d) + ", " + RegText(a) + ", " + SrcText(b)
    case Move(d, b) => (if b.R? then "move " else "li ") + RegText(d) + ", " + SrcText(b)
    case Lw(d, base, off) => "lw " + RegText(d) + ", " + MemText(base, off)
    case Sw(base, off, r) => "sw " + RegText(r) + ", " + MemText(base, off)
    case J(l) => "j " + IrTypes.LabelText(l)
    case Jal(f) => "jal " + EntryName(f)
    case Bcc(a, b, rel, l) => BranchMnemonic(rel) + " " + RegText(a) + ", " + SrcText(b) + ", " + IrTypes.LabelText(l)
  }

  /** An epilogue list: it cannot itself return. */
  predicate NoRet(exit: seq<Asm>)
  {
    forall k | 0 <= k < |exit| :: !exit[k].Ret?
  }

  /** The lines of one instruction: `ret` prints the function's epilogue, then `jr $ra`. */
  function Lines(x: Asm, exit: seq<Asm>): (ls: seq<string>)
    requires NoRet(exit)
    ensures x.Ret? ==> (|ls| == |exit| + 1 && ls[|exit|] == "jr $ra" &&
      forall k | 0 <= k < |exit| :: ls[k] == Line(exit[k]))
    ensures !x.Ret? ==> ls == [Line(x)]
  {
    if x.Ret? then PlainLines(exit) + ["jr $ra"] else [Line(x)]
  }

  /** The lines of a list of instructions none of which returns. */
  function PlainLines(xs: seq<Asm>): (ls: seq<string>)
    requires NoRet(xs)
    ensures |ls| == |xs| && forall k | 0 <= k < |xs| :: ls[k] == Line(xs[k])
  {
    if xs == [] then [] else [Line(xs[0])] + PlainLines(xs[1..])
  }

  /** The lines of a body whose `ret`s expand to the epilogue. */
  function BodyLines(xs: seq<Asm>, exit: seq<Asm>): seq<string>
    requires NoRet(exit)
  {
    if xs == [] then [] else Lines(xs[0], exit) + BodyLines(xs[1..], exit)
  }

  /** What `ir_mips` leaves for one function: whether it is reachable, and its entry
      sequence, body and epilogue. */
  datatype Emitted = Emitted(reachable: bool, entry: seq<Asm>, body: seq<Asm>, exit: seq<Asm>)

  predicate Printable(e: Emitted)
  {
    NoRet(e.entry) && NoRet(e.exit)
  }

  /** The text of every reachable function in order: its entry, then its body. */
  function FunctionsText(fs: seq<Emitted>): string
    requires forall i | 0 <= i < |fs| :: Printable(fs[i])
  {
    if fs == [] then ""
    else
      var e := fs[|fs| - 1];
      assert Printable(e);
      FunctionsText(fs[..|fs| - 1]) +
      (if e.reachable then Text(BodyLines(e.entry, e.exit) + BodyLines(e.body, e.exit)) else "")
  }

  /** The fixed start of every output: data strings and the `read`/`write` helpers. */
  const Preamble: string :=
    ".data\n" +
    "_prompt: .asciiz \"Enter an integer:\"\n" +
    "_ret: .asciiz \"\\n\"\n" +
    ".globl main\n" +
    ".text\n" +
    "_read:\n" +
    "li $v0, 4\n" +
    "la $a0, _prompt\n" +
    "syscall\n" +
    "li $v0, 5\n" +
    "syscall\n" +
    "jr $ra\n" +
    "_write:\n" +
    "li $v0, 1\n" +
    "syscall\n" +
    "li $v0, 4\n" +
    "la $a0, _ret\n" +
    "syscall\n" +
    "move $v0, $0\n" +
    "jr $ra\n"

  /** The lines of a list of instructions, one after the other. */
  method ListLines(xs: seq<Asm>, exit: seq<Asm>) returns (ls: seq<string>)
    requires NoRet(exit)
    ensures ls == BodyLines(xs, exit)
  {
    ls := [];
    for j := 0 to |xs|
      invariant ls == BodyLines(xs[..j], exit)
    {
      BodyLinesNext(xs, j, exit);
      ls := ls + Lines(xs[j], exit);
    }
    assert xs[..|xs|] == xs;
  }

  /** `mips_dump` without the file: the preamble once, then each reachable function's
      entry and body, instruction by instruction. */
  method MipsDump(fs: seq<Emitted>) returns (out: string)
    requires forall i | 0 <= i < |fs| :: Printable(fs[i])
    ensures out == Preamble + FunctionsText(fs)
  {
    var text := "";
    for i := 0 to |fs|
      invariant text == FunctionsText(fs[..i])
    {
      var e := fs[i];
      assert fs[..i + 1][..i] == fs[..i];
      assert Printable(e);
      if e.reachable {
        var entry := ListLines(e.entry, e.exit);
        var body := ListLines(e.body, e.exit);
        text := text + Text(entry + body);
      }
    }
    assert fs[..|fs|] == fs;
    out := Preamble + text;
  }

  lemma BodyLinesNext(xs: seq<Asm>, j: nat, exit: seq<Asm>)
    requires NoRet(exit) && j < |xs|
    ensures BodyLines(xs[..j + 1], exit) == BodyLines(xs[..j], exit) + Lines(xs[j], exit)
  {
    assert xs[..j + 1] == xs[..j] + [xs[j]];
    BodyLinesSnoc(xs[..j], xs[j], exit);
  }

  lemma {:induction false} BodyLinesSnoc(xs: seq<Asm>, x: Asm, exit: seq<Asm>)
    requires NoRet(exit)
    ensures BodyLines(xs + [x], exit) == BodyLines(xs, exit) + Lines(x, exit)
  {
    if xs == [] {
      assert [x][1..] == [];
    } else {
      assert (xs + [x])[1..] == xs[1..] + [x];
      BodyLinesSnoc(xs[1..], x, exit);
    }
  }

  /* ------------------------------------------------------------------ */
  /* Properties of the text                                              */
  /* ------------------------------------------------------------------ */

  /** Reads a register name back. */
  function RegOf(name: string): (r: Option<Reg>)
  {
    match name
    case "zero" => Some(0) case "at" => Some(1)
    case "v0" => Some(2) case "v1" => Some(3)
    case "a0" => Some(4) case "a1" => Some(5) case "a2" => Some(6) case "a3" => Some(7)
    case "t0" => Some(8) case "t1" => Some(9) case "t2" => Some(10) case "t3" => Some(11)
    case "t4" => Some(12) case "t5" => Some(13) case "t6" => Some(14) case "t7" => Some(15)
    case "s0" => Some(16) case "s1" => Some(17) case "s2" => Some(18) case "s3" => Some(19)
    case "s4" => Some(20) case "s5" => Some(21) case "s6" => Some(22) case "s7" => Some(23)
    case "t8" => Some(24) case "t9" => Some(25)
    case "k0" => Some(26) case "k1" => Some(27)
    case "gp" => Some(28) case "sp" => Some(29) case "fp" => Some(30) case "ra" => Some(31)
    case _ => None
  }

  /** Every register's name reads back as that register, so distinct registers print
      differently. */
  lemma RegNamesRoundTrip(r: Reg)
    ensures RegOf(RegNames[r]) == Some(r)
  {
  }

  lemma RegTextInjective(r1: Reg, r2: Reg)
    requires RegText(r1) == RegText(r2)
    ensures r1 == r2
  {
    assert RegText(r1)[1..] == RegNames[r1];
    assert RegText(r2)[1..] == RegNames[r2];
    RegNamesRoundTrip(r1);
    RegNamesRoundTrip(r2);
  }

  /** A call and the function it calls agree on the entry label. */
  lemma CallReachesEntry(f: string)
    ensures Line(Func(f)) == EntryName(f) + ":" && Line(Jal(f)) == "jal " + EntryName(f)
    ensures f == "main" <==> EntryName(f) == "main"
  {
    if f != "main" {
      assert EntryName(f)[0] == '_';
    }
  }

  /** Different functions get different entry labels. */
  lemma EntryNameInjective(f: string, g: string)
    requires EntryName(f) == EntryName(g)
    ensures f == g
  {
    if f != "main" && g != "main" {
      assert f == EntryName(f)[1..];
      assert g == EntryName(g)[1..];
    } else {
      OnlyMainIsMain(f);
      OnlyMainIsMain(g);
    }
  }

  lemma OnlyMainIsMain(f: string)
    ensures EntryName(f) == "main" ==> f == "main"
  {
    if f != "main" {
      assert EntryName(f)[0] == '_' != "main"[0];
    }
  }

  /** Different relations branch with different mnemonics. */
  lemma BranchMnemonicInjective(r1: IrTypes.Relop, r2: IrTypes.Relop)
    requires BranchMnemonic(r1) == BranchMnemonic(r2)
    ensures r1 == r2
  {
    assert BranchMnemonic(r1)[1..] == BranchMnemonic(r2)[1..];
  }

  /** Different operators print with different mnemonics. */
  lemma ArthMnemonicInjective(o1: IrTypes.ArithOp, o2: IrTypes.ArithOp)
    requires ArthMnemonic(o1) == ArthMnemonic(o2)
    ensures o1 == o2
  {
    assert ArthMnemonic(o1)[0] == ArthMnemonic(o2)[0];
    if |ArthMnemonic(o1)| == 4 {
      assert ArthMnemonic(o1)[0] == ArthMnemonic(o2)[0];
    }
  }
}
