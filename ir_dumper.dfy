/**
 * The textual form of the IR (`ir_dump`): one line per instruction, words
 * separated by single spaces, every reachable function in order. A parser
 * for the same grammar shows that the text determines the instructions:
 * dumping and reading back gives the list without its nops, with jump
 * identities (which the text does not carry) reset to zero.
 */
module IrDumper {
  import opened Base
  import opened IrTypes
  import IrProgram

  /* ------------------------------------------------------------------ */
  /* Printing                                                            */
  /* ------------------------------------------------------------------ */

  /** `dump_opr`: `v<id>` for a variable, `#<val>` for an immediate. */
  function OprText(o: Opr): (s: string)
    ensures |s| > 1 && (s[0] == 'v' <==> o.Var?) && (s[0] == '#' <==> o.Imm?)
  {
    match o
    case Var(i) => "v" + NatToString(i)
    case Imm(k) => "#" + IntToString(k)
  }

  function VarText(v: nat): string { OprText(Var(v)) }

  /** The arithmetic signs; `ir_dump` knows no other operator. */
  function ArthSign(op: ArithOp): string
  {
    match op
    case Plus => "+"
    case Minus => "-"
    case Star => "*"
    case Div => "/"
  }

  /** The relational texts, indexed by the relational enumeration. */
  const RelopTexts: seq<string> := [">", "<=", ">=", "<", "==", "!="]

  function RelopText(r: Relop): string { RelopTexts[RelopIndex(r)] }

  /** `dump_arg`: the rest of the list first, so the last argument prints first. */
  function ArgWords(args: seq<Opr>): (ls: seq<seq<string>>)
    ensures |ls| == |args|
    ensures forall k | 0 <= k < |args| :: ls[k] == ["ARG", OprText(args[|args| - 1 - k])]
  {
    if args == [] then [] else ArgWords(args[1..]) + [["ARG", OprText(args[0])]]
  }

  function ParamWords(ps: seq<nat>): (ls: seq<seq<string>>)
    ensures |ls| == |ps|
    ensures forall k | 0 <= k < |ps| :: ls[k] == ["PARAM", VarText(ps[k])]
  {
    if ps == [] then [] else [["PARAM", VarText(ps[0])]] + ParamWords(ps[1..])
  }

  /** The lines one instruction prints, each as its words. A nop prints nothing. */
  function Words(x: Instr): seq<seq<string>>
  {
    match x
    case Nop => []
    case Label(l) => [["LABEL", LabelText(l), ":"]]
    case Func(f, ps) => [["FUNCTION", f, ":"]] + ParamWords(ps)
    case Mov(d, o) => [[VarText(d), ":=", OprText(o)]]
    case Arth(d, a, b, op) => [[VarText(d), ":=", OprText(a), ArthSign(op), OprText(b)]]
    case Addr(d, v) => [[VarText(d), ":=", "&" + VarText(v)]]
    case Load(d, v) => [[VarText(d), ":=", "*" + VarText(v)]]
    case Store(a, o) => [["*" + VarText(a), ":=", OprText(o)]]
    case Goto(l, _) => [["GOTO", LabelText(l)]]
    case Branch(a, b, r, l, _) => [["IF", OprText(a), RelopText(r), OprText(b), "GOTO", LabelText(l)]]
    case Ret(o) => [["RETURN", OprText(o)]]
    case Alloc(v, n) => [["DEC", VarText(v), IntToString(n)]]
    case Call(d, f, args) => ArgWords(args) + [[VarText(d), ":=", "CALL", f]]
    case Read(v) => [["READ", VarText(v)]]
    case Write(o) => [["WRITE", OprText(o)]]
  }

  /** Lines made of their words, each a line of text. */
  function JoinLines(wss: seq<seq<string>>): (ls: seq<string>)
    requires forall k | 0 <= k < |wss| :: |wss[k]| > 0
    ensures |ls| == |wss| && forall k | 0 <= k < |wss| :: ls[k] == Join(wss[k], ' ')
  {
    if wss == [] then [] else [Join(wss[0], ' ')] + JoinLines(wss[1..])
  }

  /** The text lines of one instruction. */
  function InstrLines(x: Instr): seq<string>
  {
    WordsNonEmpty(x);
    JoinLines(Words(x))
  }

  lemma WordsNonEmpty(x: Instr)
    ensures forall k | 0 <= k < |Words(x)| :: |Words(x)[k]| > 0
  {
  }

  /** The lines of a function's instruction list, in order. */
  function ListingLines(irs: seq<Instr>): seq<string>
  {
    Flatten(seq(|irs|, i requires 0 <= i < |irs| => InstrLines(irs[i])))
  }

  /** Line groups one after the other. */
  function Flatten(lss: seq<seq<string>>): seq<string>
  {
    if lss == [] then [] else lss[0] + Flatten(lss[1..])
  }

  lemma {:induction false} FlattenAppend(a: seq<seq<string>>, b: seq<seq<string>>)
    ensures Flatten(a + b) == Flatten(a) + Flatten(b)
  {
    if a != [] {
      assert (a + b)[1..] == a[1..] + b;
      FlattenAppend(a[1..], b);
    } else {
      assert a + b == b;
    }
  }

  /** The assertion of the goto and branch printers: the target label is still a label,
      that is, it is placed in the list and has not been turned into a nop. */
  predicate Printable(irs: seq<Instr>)
  {
    LandsBefore(irs, |irs|)
  }

  /** The whole dump: the lines of every reachable function, one function after the other. */
  function DumpText(fs: seq<(bool, seq<Instr>)>): string
  {
    if fs == [] then ""
    else
      DumpText(fs[..|fs| - 1]) + (if fs[|fs| - 1].0 then Text(ListingLines(fs[|fs| - 1].1)) else "")
  }

  /** The reachability flag and the instruction list of every graph. */
  ghost function Listings(cfgs: seq<IrProgram.Cfg>): (fs: seq<(bool, seq<Instr>)>)
    reads set c | c in cfgs
    ensures |fs| == |cfgs| && forall i | 0 <= i < |cfgs| :: fs[i] == (cfgs[i].reachable, cfgs[i].irs)
  {
    if cfgs == [] then [] else Listings(cfgs[..|cfgs| - 1]) + [(cfgs[|cfgs| - 1].reachable, cfgs[|cfgs| - 1].irs)]
  }

  /**
   * `ir_dump` without the file: every instruction of every reachable graph, visited in
   * order, appends its lines. A jump whose label is gone stops the dump (the C code
   * aborts on its assertion); `ok` then is false.
   */
  method IrDump(prog: IrProgram.Program) returns (ok: bool, out: string)
    ensures ok <==> forall i | 0 <= i < |prog.cfgs| :: GraphOk(prog.cfgs[i])
    ensures ok ==> out == DumpText(Listings(prog.cfgs))
  {
    var cfgs := prog.cfgs;
    ghost var fs := Listings(cfgs);
    out := "";
    ok := true;
    var i := 0;
    while i < |cfgs| && ok
      invariant i <= |cfgs|
      invariant ok ==> forall k | 0 <= k < i :: GraphOk(cfgs[k])
      invariant ok ==> out == DumpText(fs[..i])
      invariant !ok ==> i < |cfgs| && !GraphOk(cfgs[i])
      decreases |cfgs| - i, if ok then 1 else 0
    {
      var printed;
      ok, printed := DumpGraph(cfgs[i]);
      if ok {
        DumpSnoc(fs, i);
        out := out + printed;
        i := i + 1;
      }
    }
    assert ok ==> fs[..i] == fs;
  }

  /** A graph prints unless it is reachable and one of its jumps has lost its label. */
  predicate GraphOk(c: IrProgram.Cfg)
    reads c
  {
    c.reachable ==> Printable(c.irs)
  }

  method DumpGraph(c: IrProgram.Cfg) returns (ok: bool, out: string)
    ensures ok <==> GraphOk(c)
    ensures ok ==> out == (if c.reachable then Text(ListingLines(c.irs)) else "")
  {
    if c.reachable {
      ok, out := DumpListing(c.irs);
    } else {
      ok, out := true, "";
    }
  }

  /** One graph's instructions, one by one (the visits `ir_hole` makes with a window of one). */
  method DumpListing(irs: seq<Instr>) returns (ok: bool, out: string)
    ensures ok <==> Printable(irs)
    ensures ok ==> out == Text(ListingLines(irs))
  {
    out := "";
    var j := 0;
    ok := true;
    while j < |irs| && ok
      invariant j <= |irs|
      invariant ok ==> out == Text(ListingLines(irs[..j]))
      invariant ok ==> LandsBefore(irs, j)
      invariant !ok ==> j < |irs| && !Lands(irs, j)
      decreases |irs| - j, if ok then 1 else 0
    {
      ok := CheckJump(irs, j);
      if ok {
        LandsStep(irs, j);
        var t := InstrText(irs[j]);
        ListingSnoc(irs, j);
        out := out + t;
        j := j + 1;
      }
    }
    assert ok ==> irs[..j] == irs;
  }

  /** What one visit of the printer writes for an instruction. */
  method InstrText(x: Instr) returns (t: string)
    ensures t == Text(InstrLines(x))
  {
    t := Text(InstrLines(x));
  }

  /** The jump at p, if it is one, targets a placed label. */
  predicate Lands(irs: seq<Instr>, p: nat)
    requires p < |irs|
  {
    irs[p].IsJump() ==> IrProgram.FindLabel(irs, irs[p].target).Some?
  }

  predicate LandsBefore(irs: seq<Instr>, j: nat)
    requires j <= |irs|
  {
    forall p | 0 <= p < j :: Lands(irs, p)
  }

  lemma LandsStep(irs: seq<Instr>, j: nat)
    requires j < |irs| && LandsBefore(irs, j) && Lands(irs, j)
    ensures LandsBefore(irs, j + 1)
  {
  }

  method CheckJump(irs: seq<Instr>, p: nat) returns (b: bool)
    requires p < |irs|
    ensures b == Lands(irs, p)
  {
    var x := irs[p];
    b := !x.IsJump() || IrProgram.FindLabel(irs, x.target).Some?;
  }

  lemma ListingSnoc(irs: seq<Instr>, j: nat)
    requires j < |irs|
    ensures Text(ListingLines(irs[..j + 1])) == Text(ListingLines(irs[..j])) + Text(InstrLines(irs[j]))
  {
    assert irs[..j + 1] == irs[..j] + [irs[j]];
    ListingAppend(irs[..j], [irs[j]]);
    ListingOne(irs[j]);
    TextAppend(ListingLines(irs[..j]), InstrLines(irs[j]));
  }

  lemma ListingOne(x: Instr)
    ensures ListingLines([x]) == InstrLines(x)
  {
    var g := [InstrLines(x)];
    assert seq(|[x]|, i requires 0 <= i < |[x]| => InstrLines([x][i])) == g;
    assert g[1..] == [];
    assert Flatten(g) == g[0] + Flatten([]);
  }

  lemma DumpSnoc(fs: seq<(bool, seq<Instr>)>, i: nat)
    requires i < |fs|
    ensures DumpText(fs[..i + 1]) == DumpText(fs[..i]) + (if fs[i].0 then Text(ListingLines(fs[i].1)) else "")
  {
    assert fs[..i + 1][..i] == fs[..i];
  }

  /* ------------------------------------------------------------------ */
  /* Reading back                                                        */
  /* ------------------------------------------------------------------ */

  predicate IsDigits(s: string)
  {
    |s| > 0 && forall i | 0 <= i < |s| :: '0' <= s[i] <= '9'
  }

  function ParseNat(s: string): Option<nat>
  {
    if IsDigits(s) then Some(DigitsValue(s)) else None
  }

  /** A decimal number as `printf("%d")` writes it. */
  function ParseDec(s: string): Option<int>
  {
    if |s| > 0 && s[0] == '-' then
      (if IsDigits(s[1..]) then Some(0 - DigitsValue(s[1..])) else None)
    else if IsDigits(s) then Some(DigitsValue(s) as int)
    else None
  }

  function ParseVar(t: string): Option<nat>
  {
    if |t| > 0 && t[0] == 'v' then ParseNat(t[1..]) else None
  }

  function ParseOpr(t: string): Option<Opr>
  {
    if |t| > 0 && t[0] == 'v' then
      (match ParseNat(t[1..]) case Some(i) => Some(Var(i)) case None => None)
    else if |t| > 0 && t[0] == '#' then
      (match ParseDec(t[1..]) case Some(k) => Some(Imm(k)) case None => None)
    else None
  }

  function ParseLabel(t: string): Option<nat>
  {
    if |t| >= 2 && t[..2] == ".L" then ParseNat(t[2..]) else None
  }

  function ParseSign(t: string): Option<ArithOp>
  {
    if t == "+" then Some(Plus) else if t == "-" then Some(Minus)
    else if t == "*" then Some(Star) else if t == "/" then Some(Div) else None
  }

  function ParseRelop(t: string): Option<Relop>
  {
    if t == ">" then Some(GT) else if t == "<=" then Some(LE) else if t == ">=" then Some(GE)
    else if t == "<" then Some(LT) else if t == "==" then Some(EQ) else if t == "!=" then Some(NEQ)
    else None
  }

  /** What one line says: a whole instruction, or a part of a function header or a call. */
  datatype Piece = Whole(x: Instr) | Header(name: string) | Param(v: nat) | Arg(o: Opr) | CallTo(ret: nat, name: string)

  /** Reads the words of one line. Jumps read back with identity 0. */
  function ParseWords(ws: seq<string>): Option<Piece>
  {
    if |ws| == 3 && ws[0] == "LABEL" && ws[2] == ":" then
      (match ParseLabel(ws[1]) case Some(l) => Some(Whole(Label(l))) case None => None)
    else if |ws| == 3 && ws[0] == "FUNCTION" && ws[2] == ":" then Some(Header(ws[1]))
    else if |ws| == 2 && ws[0] == "PARAM" then
      (match ParseVar(ws[1]) case Some(v) => Some(Param(v)) case None => None)
    else if |ws| == 2 && ws[0] == "GOTO" then
      (match ParseLabel(ws[1]) case Some(l) => Some(Whole(Goto(l, 0))) case None => None)
    else if |ws| == 6 && ws[0] == "IF" && ws[4] == "GOTO" then
      (match (ParseOpr(ws[1]), ParseRelop(ws[2]), ParseOpr(ws[3]), ParseLabel(ws[5]))
       case (Some(a), Some(r), Some(b), Some(l)) => Some(Whole(Branch(a, b, r, l, 0)))
       case _ => None)
    else if |ws| == 2 && ws[0] == "RETURN" then
      (match ParseOpr(ws[1]) case Some(o) => Some(Whole(Ret(o))) case None => None)
    else if |ws| == 3 && ws[0] == "DEC" then
      (match (ParseVar(ws[1]), ParseDec(ws[2]))
       case (Some(v), Some(n)) => Some(Whole(Alloc(v, n)))
       case _ => None)
    else if |ws| == 2 && ws[0] == "ARG" then
      (match ParseOpr(ws[1]) case Some(o) => Some(Arg(o)) case None => None)
    else if |ws| == 2 && ws[0] == "READ" then
      (match ParseVar(ws[1]) case Some(v) => Some(Whole(Read(v))) case None => None)
    else if |ws| == 2 && ws[0] == "WRITE" then
      (match ParseOpr(ws[1]) case Some(o) => Some(Whole(Write(o))) case None => None)
    else if |ws| == 3 && ws[1] == ":=" && |ws[0]| > 0 && ws[0][0] == '*' then
      (match (ParseVar(ws[0][1..]), ParseOpr(ws[2]))
       case (Some(a), Some(o)) => Some(Whole(Store(a, o)))
       case _ => None)
    else if |ws| == 3 && ws[1] == ":=" && |ws[2]| > 0 && ws[2][0] == '&' then
      (match (ParseVar(ws[0]), ParseVar(ws[2][1..]))
       case (Some(d), Some(v)) => Some(Whole(Addr(d, v)))
       case _ => None)
    else if |ws| == 3 && ws[1] == ":=" && |ws[2]| > 0 && ws[2][0] == '*' then
      (match (ParseVar(ws[0]), ParseVar(ws[2][1..]))
       case (Some(d), Some(v)) => Some(Whole(Load(d, v)))
       case _ => None)
    else if |ws| == 3 && ws[1] == ":=" then
      (match (ParseVar(ws[0]), ParseOpr(ws[2]))
       case (Some(d), Some(o)) => Some(Whole(Mov(d, o)))
       case _ => None)
    else if |ws| == 4 && ws[1] == ":=" && ws[2] == "CALL" then
      (match ParseVar(ws[0]) case Some(d) => Some(CallTo(d, ws[3])) case None => None)
    else if |ws| == 5 && ws[1] == ":=" then
      (match (ParseVar(ws[0]), ParseOpr(ws[2]), ParseSign(ws[3]), ParseOpr(ws[4]))
       case (Some(d), Some(a), Some(op), Some(b)) => Some(Whole(Arth(d, a, b, op)))
       case _ => None)
    else None
  }

  function ParseLines(ls: seq<string>): (ps: seq<Option<Piece>>)
    ensures |ps| == |ls|
  {
    if ls == [] then [] else [ParseWords(Split(ls[0], ' '))] + ParseLines(ls[1..])
  }

  /** The parameters heading the pieces, and how many pieces they take. */
  function LeadingParams(ps: seq<Option<Piece>>): (r: (seq<nat>, nat))
    ensures r.1 == |r.0| <= |ps|
  {
    if ps != [] && ps[0].Some? && ps[0].value.Param? then
      var r := LeadingParams(ps[1..]);
      ([ps[0].value.v] + r.0, r.1 + 1)
    else ([], 0)
  }

  /** The arguments heading the pieces, in list order (the text has them last first). */
  function LeadingArgs(ps: seq<Option<Piece>>): (r: (seq<Opr>, nat))
    ensures r.1 == |r.0| <= |ps|
  {
    if ps != [] && ps[0].Some? && ps[0].value.Arg? then
      var r := LeadingArgs(ps[1..]);
      (r.0 + [ps[0].value.o], r.1 + 1)
    else ([], 0)
  }

  /** Puts the pieces back together: a header takes the parameters after it, arguments
      wait for the call after them. */
  function Assemble(ps: seq<Option<Piece>>): Option<seq<Instr>>
    decreases |ps|
  {
    if ps == [] then Some([])
    else if ps[0].None? then None
    else match ps[0].value
      case Whole(x) => Prepend(x, Assemble(ps[1..]))
      case Header(f) =>
        var r := LeadingParams(ps[1..]);
        Prepend(Func(f, r.0), Assemble(ps[1 + r.1..]))
      case Param(_) => None
      case Arg(_) =>
        var r := LeadingArgs(ps);
        if r.1 < |ps| && ps[r.1].Some? && ps[r.1].value.CallTo? then
          Prepend(Call(ps[r.1].value.ret, ps[r.1].value.name, r.0), Assemble(ps[r.1 + 1..]))
        else None
      case CallTo(d, f) => Prepend(Call(d, f, []), Assemble(ps[1..]))
  }

  function Prepend(x: Instr, r: Option<seq<Instr>>): Option<seq<Instr>>
  {
    match r case Some(xs) => Some([x] + xs) case None => None
  }

  /** Reads a dump back into instructions. */
  function ParseListing(s: string): Option<seq<Instr>>
  {
    Assemble(ParseLines(SplitLines(s)))
  }

  /** What the text keeps of an instruction: a jump loses its identity. */
  function Kept(x: Instr): Instr
  {
    match x
    case Goto(l, _) => Goto(l, 0)
    case Branch(a, b, r, l, _) => Branch(a, b, r, l, 0)
    case _ => x
  }

  /** What the text keeps of a list: no nops, and jumps without their identity. */
  function Erase(irs: seq<Instr>): seq<Instr>
  {
    if irs == [] then []
    else (if irs[0].Nop? then [] else [Kept(irs[0])]) + Erase(irs[1..])
  }

  /** Function names are single words. */
  predicate NameOk(f: string) { ' ' !in f && '\n' !in f }

  predicate NamesOk(irs: seq<Instr>)
  {
    forall p | 0 <= p < |irs| :: (irs[p].Func? ==> NameOk(irs[p].name)) && (irs[p].Call? ==> NameOk(irs[p].func))
  }

  /* ------------------------------------------------------------------ */
  /* The round trip                                                      */
  /* ------------------------------------------------------------------ */

  /** A word holds no separator: no space and no line break. */
  predicate Clean(w: string) { ' ' !in w && '\n' !in w }

  lemma NatClean(n: nat)
    ensures Clean(NatToString(n))
  {
    var s := NatToString(n);
    assert forall i | 0 <= i < |s| :: s[i] != ' ' && s[i] != '\n';
  }

  lemma OprClean(o: Opr)
    ensures Clean(OprText(o))
  {
    match o
    case Var(i) => NatClean(i);
    case Imm(k) =>
      if k < 0 { NatClean(-k); } else { NatClean(k); }
  }

  lemma LabelClean(l: nat)
    ensures Clean(LabelText(l))
  {
    NatClean(l);
  }

  lemma ParseNatOf(n: nat)
    ensures ParseNat(NatToString(n)) == Some(n)
  {
    NatToStringRoundTrip(n);
  }

  lemma ParseDecOf(k: int)
    ensures ParseDec(IntToString(k)) == Some(k)
  {
    if k < 0 {
      NatToStringRoundTrip(-k);
      assert IntToString(k)[1..] == NatToString(-k);
    } else {
      NatToStringRoundTrip(k);
    }
  }

  lemma ParseOprOf(o: Opr)
    ensures ParseOpr(OprText(o)) == Some(o)
  {
    match o
    case Var(i) =>
      ParseNatOf(i);
      assert OprText(o)[1..] == NatToString(i);
    case Imm(k) =>
      ParseDecOf(k);
      assert OprText(o)[1..] == IntToString(k);
  }

  lemma ParseVarOf(v: nat)
    ensures ParseVar(VarText(v)) == Some(v)
  {
    ParseOprOf(Var(v));
  }

  lemma ParseLabelOf(l: nat)
    ensures ParseLabel(LabelText(l)) == Some(l)
  {
    ParseNatOf(l);
    assert LabelText(l)[2..] == NatToString(l);
  }

  /** The pieces an instruction's lines read back as. */
  function Pieces(x: Instr): (ps: seq<Option<Piece>>)
  {
    match x
    case Nop => []
    case Func(f, params) => [Some(Header(f))] + seq(|params|, k requires 0 <= k < |params| => Some(Param(params[k])))
    case Call(d, f, args) =>
      seq(|args|, k requires 0 <= k < |args| => Some(Arg(args[|args| - 1 - k]))) + [Some(CallTo(d, f))]
    case _ => [Some(Whole(Kept(x)))]
  }

  /** The names in one instruction are single words. */
  predicate InstrNamesOk(x: Instr)
  {
    (x.Func? ==> NameOk(x.name)) && (x.Call? ==> NameOk(x.func))
  }

  /** Every word of a line is clean. */
  predicate AllClean(ws: seq<string>)
  {
    forall i | 0 <= i < |ws| :: Clean(ws[i])
  }

  /** Every word an instruction prints is clean. */
  lemma WordsClean(x: Instr)
    requires InstrNamesOk(x)
    ensures forall k | 0 <= k < |Words(x)| :: AllClean(Words(x)[k])
  {
    if x.Func? {
      FuncClean(x.name, x.params);
    } else if x.Call? {
      CallClean(x.ret, x.func, x.args);
    } else if !x.Nop? {
      LineClean(x);
    }
  }

  lemma FuncClean(f: string, ps: seq<nat>)
    requires NameOk(f)
    ensures forall k | 0 <= k < |Words(Func(f, ps))| :: AllClean(Words(Func(f, ps))[k])
  {
    var ws := Words(Func(f, ps));
    forall k | 0 <= k < |ws| ensures AllClean(ws[k]) {
      if k > 0 { OprClean(Var(ps[k - 1])); }
    }
  }

  lemma CallClean(d: nat, f: string, args: seq<Opr>)
    requires NameOk(f)
    ensures forall k | 0 <= k < |Words(Call(d, f, args))| :: AllClean(Words(Call(d, f, args))[k])
  {
    var ws := Words(Call(d, f, args));
    forall k | 0 <= k < |ws| ensures AllClean(ws[k]) {
      if k < |args| {
        OprClean(args[|args| - 1 - k]);
      } else {
        OprClean(Var(d));
      }
    }
  }

  lemma LineClean(x: Instr)
    requires !x.Nop? && !x.Func? && !x.Call?
    ensures |Words(x)| == 1 && AllClean(Words(x)[0])
  {
    if x.Label? {
      LabelLineClean(x);
    } else if x.Mov? {
      MovClean(x);
    } else if x.Arth? {
      ArthClean(x);
    } else if x.Addr? {
      AddrClean(x);
    } else if x.Load? {
      LoadClean(x);
    } else if x.Store? {
      StoreClean(x);
    } else if x.Goto? {
      GotoClean(x);
    } else if x.Branch? {
      BranchClean(x);
    } else if x.Ret? {
      RetClean(x);
    } else if x.Alloc? {
      AllocClean(x);
    } else if x.Read? {
      ReadClean(x);
    } else {
      WriteClean(x);
    }
  }

  lemma LabelLineClean(x: Instr)
    requires x.Label?
    ensures |Words(x)| == 1 && AllClean(Words(x)[0])
  {
    LabelClean(x.lbl);
  }

  lemma MovClean(x: Instr)
    requires x.Mov?
    ensures |Words(x)| == 1 && AllClean(Words(x)[0])
  {
    OprClean(Var(x.lhs)); OprClean(x.rhs);
  }

  lemma ArthClean(x: Instr)
    requires x.Arth?
    ensures |Words(x)| == 1 && AllClean(Words(x)[0])
  {
    OprClean(Var(x.lhs)); OprClean(x.opr1); OprClean(x.opr2);
  }

  lemma AddrClean(x: Instr)
    requires x.Addr?
    ensures |Words(x)| == 1 && AllClean(Words(x)[0])
  {
    OprClean(Var(x.lhs)); OprClean(Var(x.src));
  }

  lemma LoadClean(x: Instr)
    requires x.Load?
    ensures |Words(x)| == 1 && AllClean(Words(x)[0])
  {
    OprClean(Var(x.lhs)); OprClean(Var(x.src));
  }

  lemma StoreClean(x: Instr)
    requires x.Store?
    ensures |Words(x)| == 1 && AllClean(Words(x)[0])
  {
    OprClean(Var(x.addr)); OprClean(x.rhs);
  }

  lemma GotoClean(x: Instr)
    requires x.Goto?
    ensures |Words(x)| == 1 && AllClean(Words(x)[0])
  {
    LabelClean(x.target);
  }

  lemma BranchClean(x: Instr)
    requires x.Branch?
    ensures |Words(x)| == 1 && AllClean(Words(x)[0])
  {
    OprClean(x.opr1); OprClean(x.opr2); LabelClean(x.target);
  }

  lemma RetClean(x: Instr)
    requires x.Ret?
    ensures |Words(x)| == 1 && AllClean(Words(x)[0])
  {
    OprClean(x.opr);
  }

  lemma AllocClean(x: Instr)
    requires x.Alloc?
    ensures |Words(x)| == 1 && AllClean(Words(x)[0])
  {
    OprClean(Var(x.v)); OprClean(Imm(x.size));
  }

  lemma ReadClean(x: Instr)
    requires x.Read?
    ensures |Words(x)| == 1 && AllClean(Words(x)[0])
  {
    OprClean(Var(x.v));
  }

  lemma WriteClean(x: Instr)
    requires x.Write?
    ensures |Words(x)| == 1 && AllClean(Words(x)[0])
  {
    OprClean(x.opr);
  }

  lemma ParseSignOf(op: ArithOp)
    ensures ParseSign(ArthSign(op)) == Some(op)
  {
  }

  lemma ParseRelopOf(r: Relop)
    ensures ParseRelop(RelopText(r)) == Some(r)
  {
  }

  /** Each line of an instruction reads back as the matching piece. */
  lemma ParseWordsOf(x: Instr, k: nat)
    requires k < |Words(x)|
    ensures |Pieces(x)| == |Words(x)| && ParseWords(Words(x)[k]) == Pieces(x)[k]
  {
    if x.Func? {
      ParseFuncLine(x.name, x.params, k);
    } else if x.Call? {
      ParseCallLine(x.ret, x.func, x.args, k);
    } else {
      ParseLine(x);
    }
  }

  lemma ParseFuncLine(f: string, ps: seq<nat>, k: nat)
    requires k < |Words(Func(f, ps))|
    ensures |Pieces(Func(f, ps))| == |Words(Func(f, ps))|
    ensures ParseWords(Words(Func(f, ps))[k]) == Pieces(Func(f, ps))[k]
  {
    if k > 0 { ParseVarOf(ps[k - 1]); }
  }

  lemma ParseCallLine(d: nat, f: string, args: seq<Opr>, k: nat)
    requires k < |Words(Call(d, f, args))|
    ensures |Pieces(Call(d, f, args))| == |Words(Call(d, f, args))|
    ensures ParseWords(Words(Call(d, f, args))[k]) == Pieces(Call(d, f, args))[k]
  {
    if k < |args| {
      var o := args[|args| - 1 - k];
      ParseArgLine(o);
      assert Words(Call(d, f, args))[k] == ["ARG", OprText(o)];
      assert Pieces(Call(d, f, args))[k] == Some(Arg(o));
    } else {
      ParseCallToLine(d, f);
      assert Words(Call(d, f, args))[k] == [VarText(d), ":=", "CALL", f];
      assert Pieces(Call(d, f, args))[k] == Some(CallTo(d, f));
    }
  }

  lemma ParseArgLine(o: Opr)
    ensures ParseWords(["ARG", OprText(o)]) == Some(Arg(o))
  {
    ParseOprOf(o);
  }

  lemma ParseCallToLine(d: nat, f: string)
    ensures ParseWords([VarText(d), ":=", "CALL", f]) == Some(CallTo(d, f))
  {
    ParseVarOf(d);
  }

  lemma ParseLine(x: Instr)
    requires !x.Nop? && !x.Func? && !x.Call?
    ensures |Words(x)| == 1 == |Pieces(x)| && ParseWords(Words(x)[0]) == Pieces(x)[0]
  {
    if x.Label? {
      ParseLabelLine(x);
    } else if x.Mov? {
      ParseMovLine(x);
    } else if x.Arth? {
      ParseArthInstr(x);
    } else if x.Addr? {
      ParseAddrLine(x);
    } else if x.Load? {
      ParseLoadLine(x);
    } else if x.Store? {
      ParseStoreLine(x);
    } else if x.Goto? {
      ParseGotoLine(x);
    } else if x.Branch? {
      ParseBranchInstr(x);
    } else if x.Ret? {
      ParseRetLine(x);
    } else if x.Alloc? {
      ParseAllocLine(x);
    } else if x.Read? {
      ParseReadLine(x);
    } else {
      ParseWriteLine(x);
    }
  }

  lemma ParseLabelLine(x: Instr)
    requires x.Label?
    ensures |Words(x)| == 1 == |Pieces(x)| && ParseWords(Words(x)[0]) == Pieces(x)[0]
  {
    ParseLabelOf(x.lbl);
  }

  lemma ParseMovLine(x: Instr)
    requires x.Mov?
    ensures |Words(x)| == 1 == |Pieces(x)| && ParseWords(Words(x)[0]) == Pieces(x)[0]
  {
    ParseVarOf(x.lhs); ParseOprOf(x.rhs);
  }

  lemma ParseArthInstr(x: Instr)
    requires x.Arth?
    ensures |Words(x)| == 1 == |Pieces(x)| && ParseWords(Words(x)[0]) == Pieces(x)[0]
  {
    ParseArthLine(x.lhs, x.opr1, x.opr2, x.op);
  }

  lemma ParseAddrLine(x: Instr)
    requires x.Addr?
    ensures |Words(x)| == 1 == |Pieces(x)| && ParseWords(Words(x)[0]) == Pieces(x)[0]
  {
    ParseVarOf(x.lhs); ParseVarOf(x.src);
    assert ("&" + VarText(x.src))[1..] == VarText(x.src);
  }

  lemma ParseLoadLine(x: Instr)
    requires x.Load?
    ensures |Words(x)| == 1 == |Pieces(x)| && ParseWords(Words(x)[0]) == Pieces(x)[0]
  {
    ParseVarOf(x.lhs); ParseVarOf(x.src);
    assert ("*" + VarText(x.src))[1..] == VarText(x.src);
  }

  lemma ParseStoreLine(x: Instr)
    requires x.Store?
    ensures |Words(x)| == 1 == |Pieces(x)| && ParseWords(Words(x)[0]) == Pieces(x)[0]
  {
    ParseVarOf(x.addr); ParseOprOf(x.rhs);
    assert ("*" + VarText(x.addr))[1..] == VarText(x.addr);
  }

  lemma ParseGotoLine(x: Instr)
    requires x.Goto?
    ensures |Words(x)| == 1 == |Pieces(x)| && ParseWords(Words(x)[0]) == Pieces(x)[0]
  {
    ParseLabelOf(x.target);
  }

  lemma ParseBranchInstr(x: Instr)
    requires x.Branch?
    ensures |Words(x)| == 1 == |Pieces(x)| && ParseWords(Words(x)[0]) == Pieces(x)[0]
  {
    ParseBranchLine(x.opr1, x.opr2, x.rel, x.target);
  }

  lemma ParseRetLine(x: Instr)
    requires x.Ret?
    ensures |Words(x)| == 1 == |Pieces(x)| && ParseWords(Words(x)[0]) == Pieces(x)[0]
  {
    ParseOprOf(x.opr);
  }

  lemma ParseAllocLine(x: Instr)
    requires x.Alloc?
    ensures |Words(x)| == 1 == |Pieces(x)| && ParseWords(Words(x)[0]) == Pieces(x)[0]
  {
    ParseVarOf(x.v); ParseDecOf(x.size);
  }

  lemma ParseReadLine(x: Instr)
    requires x.Read?
    ensures |Words(x)| == 1 == |Pieces(x)| && ParseWords(Words(x)[0]) == Pieces(x)[0]
  {
    ParseVarOf(x.v);
  }

  lemma ParseWriteLine(x: Instr)
    requires x.Write?
    ensures |Words(x)| == 1 == |Pieces(x)| && ParseWords(Words(x)[0]) == Pieces(x)[0]
  {
    ParseOprOf(x.opr);
  }

  lemma ParseArthLine(d: nat, a: Opr, b: Opr, op: ArithOp)
    ensures ParseWords([VarText(d), ":=", OprText(a), ArthSign(op), OprText(b)]) == Some(Whole(Arth(d, a, b, op)))
  {
    ParseVarOf(d); ParseOprOf(a); ParseOprOf(b); ParseSignOf(op);
  }

  lemma ParseBranchLine(a: Opr, b: Opr, r: Relop, l: nat)
    ensures ParseWords(["IF", OprText(a), RelopText(r), OprText(b), "GOTO", LabelText(l)]) == Some(Whole(Branch(a, b, r, l, 0)))
  {
    ParseOprOf(a); ParseOprOf(b); ParseRelopOf(r); ParseLabelOf(l);
  }

  lemma {:induction false} ParseLinesAt(ls: seq<string>)
    ensures forall k | 0 <= k < |ls| :: ParseLines(ls)[k] == ParseWords(Split(ls[k], ' '))
  {
    if ls != [] {
      ParseLinesAt(ls[1..]);
    }
  }

  lemma {:induction false} ParseLinesAppend(a: seq<string>, b: seq<string>)
    ensures ParseLines(a + b) == ParseLines(a) + ParseLines(b)
  {
    ParseLinesAt(a + b);
    ParseLinesAt(a);
    ParseLinesAt(b);
  }

  /** The lines of one instruction read back as its pieces. */
  lemma InstrReadsBack(x: Instr)
    requires InstrNamesOk(x)
    ensures ParseLines(InstrLines(x)) == Pieces(x)
    ensures forall k | 0 <= k < |InstrLines(x)| :: '\n' !in InstrLines(x)[k]
  {
    var ws := Words(x);
    var ls := InstrLines(x);
    WordsClean(x);
    WordsNonEmpty(x);
    PiecesLength(x);
    ParseLinesAt(ls);
    assert |ls| == |ws| == |Pieces(x)|;
    forall k | 0 <= k < |ls|
      ensures ParseLines(ls)[k] == Pieces(x)[k] && '\n' !in ls[k]
    {
      ParseWordsOf(x, k);
      LineReadsBack(ws[k], ls[k]);
    }
  }

  /** A line of clean words splits back into them and holds no line break. */
  lemma LineReadsBack(ws: seq<string>, line: string)
    requires |ws| > 0 && AllClean(ws) && line == Join(ws, ' ')
    ensures Split(line, ' ') == ws && '\n' !in line
  {
    SplitJoin(ws, ' ');
    JoinAvoids(ws, ' ', '\n');
  }

  lemma PiecesLength(x: Instr)
    ensures |Pieces(x)| == |Words(x)|
  {
  }

  /** The pieces of a whole list, instruction after instruction. */
  function AllPieces(irs: seq<Instr>): seq<Option<Piece>>
  {
    if irs == [] then [] else Pieces(irs[0]) + AllPieces(irs[1..])
  }

  lemma ListingCons(irs: seq<Instr>)
    requires irs != []
    ensures ListingLines(irs) == InstrLines(irs[0]) + ListingLines(irs[1..])
  {
    var n := |irs|;
    var lss := seq(n, i requires 0 <= i < n => InstrLines(irs[i]));
    assert lss[1..] == seq(n - 1, i requires 0 <= i < n - 1 => InstrLines(irs[1..][i]));
  }

  lemma {:induction false} ListingReadsBack(irs: seq<Instr>)
    requires NamesOk(irs)
    ensures ParseLines(ListingLines(irs)) == AllPieces(irs)
    ensures forall k | 0 <= k < |ListingLines(irs)| :: '\n' !in ListingLines(irs)[k]
  {
    if irs != [] {
      ListingCons(irs);
      assert InstrNamesOk(irs[0]) by { assert irs[0] == irs[0]; }
      InstrReadsBack(irs[0]);
      ListingReadsBack(irs[1..]);
      ParseLinesAppend(InstrLines(irs[0]), ListingLines(irs[1..]));
    }
  }

  /** No parameter piece heads the list: a header's parameters stop at the next line. */
  predicate NoParamFirst(ps: seq<Option<Piece>>)
  {
    ps == [] || ps[0].None? || !ps[0].value.Param?
  }

  lemma {:induction false} AllPiecesStart(irs: seq<Instr>)
    ensures NoParamFirst(AllPieces(irs))
  {
    if irs != [] {
      AllPiecesStart(irs[1..]);
    }
  }

  lemma {:induction false} LeadingParamsOf(ps: seq<nat>, rest: seq<Option<Piece>>)
    requires NoParamFirst(rest)
    ensures LeadingParams(seq(|ps|, k requires 0 <= k < |ps| => Some(Param(ps[k]))) + rest) == (ps, |ps|)
  {
    var pp := seq(|ps|, k requires 0 <= k < |ps| => Some(Param(ps[k])));
    if ps != [] {
      var pp' := seq(|ps| - 1, k requires 0 <= k < |ps| - 1 => Some(Param(ps[1..][k])));
      assert (pp + rest)[1..] == pp' + rest;
      LeadingParamsOf(ps[1..], rest);
      assert [ps[0]] + ps[1..] == ps;
    } else {
      assert pp + rest == rest;
    }
  }

  lemma {:induction false} LeadingArgsOf(args: seq<Opr>, tail: seq<Option<Piece>>)
    requires tail != [] && tail[0].Some? && !tail[0].value.Arg?
    ensures LeadingArgs(seq(|args|, k requires 0 <= k < |args| => Some(Arg(args[|args| - 1 - k]))) + tail) == (args, |args|)
  {
    var ap := seq(|args|, k requires 0 <= k < |args| => Some(Arg(args[|args| - 1 - k])));
    if args != [] {
      var n := |args|;
      var init := args[..n - 1];
      var ap' := seq(|init|, k requires 0 <= k < |init| => Some(Arg(init[|init| - 1 - k])));
      assert (ap + tail)[1..] == ap' + tail;
      LeadingArgsOf(init, tail);
      assert init + [args[n - 1]] == args;
    } else {
      assert ap + tail == tail;
    }
  }

  /** The pieces of a list assemble back into the list as the text keeps it. */
  lemma {:induction false} AssembleAll(irs: seq<Instr>)
    ensures Assemble(AllPieces(irs)) == Some(Erase(irs))
  {
    if irs != [] {
      var x := irs[0];
      AssembleAll(irs[1..]);
      AllPiecesStart(irs[1..]);
      assert Erase(irs) == (if x.Nop? then [] else [Kept(x)]) + Erase(irs[1..]);
      if x.Nop? {
        assert Pieces(x) == [];
        assert AllPieces(irs) == AllPieces(irs[1..]);
        assert Erase(irs) == Erase(irs[1..]);
      } else {
        AssembleOne(x, AllPieces(irs[1..]));
      }
    }
  }

  /** One instruction's pieces, followed by the rest, assemble into it followed by the rest. */
  lemma AssembleOne(x: Instr, rest: seq<Option<Piece>>)
    requires !x.Nop? && NoParamFirst(rest)
    ensures Assemble(Pieces(x) + rest) == Prepend(Kept(x), Assemble(rest))
  {
    if x.Func? {
      AssembleFunc(x.name, x.params, rest);
    } else if x.Call? {
      AssembleCall(x.ret, x.func, x.args, rest);
    } else {
      var ps := Pieces(x) + rest;
      assert Pieces(x) == [Some(Whole(Kept(x)))];
      assert ps[1..] == rest;
    }
  }

  lemma AssembleFunc(f: string, params: seq<nat>, rest: seq<Option<Piece>>)
    requires NoParamFirst(rest)
    ensures Assemble(Pieces(Func(f, params)) + rest) == Prepend(Func(f, params), Assemble(rest))
  {
    var pp := seq(|params|, k requires 0 <= k < |params| => Some(Param(params[k])));
    assert Pieces(Func(f, params)) == [Some(Header(f))] + pp;
    AssembleHeader(f, params, pp, rest, Pieces(Func(f, params)) + rest);
  }

  /** A header, its parameters and then what follows, assembled. */
  lemma AssembleHeader(f: string, params: seq<nat>, pp: seq<Option<Piece>>, rest: seq<Option<Piece>>,
                       ps: seq<Option<Piece>>)
    requires NoParamFirst(rest)
    requires pp == seq(|params|, k requires 0 <= k < |params| => Some(Param(params[k])))
    requires ps == [Some(Header(f))] + pp + rest
    ensures Assemble(ps) == Prepend(Func(f, params), Assemble(rest))
  {
    LeadingParamsOf(params, rest);
    assert ps[1..] == pp + rest;
    assert ps[1 + |params|..] == rest;
  }

  lemma AssembleCall(d: nat, f: string, args: seq<Opr>, rest: seq<Option<Piece>>)
    ensures Assemble(Pieces(Call(d, f, args)) + rest) == Prepend(Call(d, f, args), Assemble(rest))
  {
    var ap := seq(|args|, k requires 0 <= k < |args| => Some(Arg(args[|args| - 1 - k])));
    var ps := ap + ([Some(CallTo(d, f))] + rest);
    assert Pieces(Call(d, f, args)) + rest == ps;
    if args == [] {
      assert ps == [Some(CallTo(d, f))] + rest;
      assert ps[1..] == rest;
    } else {
      LeadingArgsOf(args, [Some(CallTo(d, f))] + rest);
      assert ps[|args|] == Some(CallTo(d, f));
      assert ps[|args| + 1..] == rest;
    }
  }

  /**
   * Dumping a list and reading the text back gives the list without its nops and with
   * zero jump identities, as long as no function name contains a space or a line break.
   */
  lemma DumpRoundTrip(irs: seq<Instr>)
    requires NamesOk(irs)
    ensures ParseListing(Text(ListingLines(irs))) == Some(Erase(irs))
  {
    ListingReadsBack(irs);
    SplitLinesText(ListingLines(irs));
    AssembleAll(irs);
  }

  /** The instructions of the reachable graphs, one graph after the other. */
  function ReachableCode(fs: seq<(bool, seq<Instr>)>): seq<Instr>
  {
    if fs == [] then []
    else ReachableCode(fs[..|fs| - 1]) + (if fs[|fs| - 1].0 then fs[|fs| - 1].1 else [])
  }

  lemma ListingAppend(a: seq<Instr>, b: seq<Instr>)
    ensures ListingLines(a + b) == ListingLines(a) + ListingLines(b)
  {
    var la := seq(|a|, i requires 0 <= i < |a| => InstrLines(a[i]));
    var lb := seq(|b|, i requires 0 <= i < |b| => InstrLines(b[i]));
    assert seq(|a + b|, i requires 0 <= i < |a + b| => InstrLines((a + b)[i])) == la + lb;
    FlattenAppend(la, lb);
  }

  /** The whole dump is the listing of the reachable code. */
  lemma {:induction false} DumpIsListing(fs: seq<(bool, seq<Instr>)>)
    ensures DumpText(fs) == Text(ListingLines(ReachableCode(fs)))
  {
    if fs != [] {
      var init := fs[..|fs| - 1];
      var last := if fs[|fs| - 1].0 then fs[|fs| - 1].1 else [];
      DumpIsListing(init);
      ListingAppend(ReachableCode(init), last);
      TextAppend(ListingLines(ReachableCode(init)), ListingLines(last));
      assert last == [] ==> ListingLines(last) == [];
    }
  }

  /** Reading the whole dump back gives the reachable code, nops and jump identities erased. */
  lemma DumpTextRoundTrip(fs: seq<(bool, seq<Instr>)>)
    requires NamesOk(ReachableCode(fs))
    ensures ParseListing(DumpText(fs)) == Some(Erase(ReachableCode(fs)))
  {
    DumpIsListing(fs);
    DumpRoundTrip(ReachableCode(fs));
  }
}
