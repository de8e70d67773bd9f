/**
 * The syntax-tree printer (`ast_print`): every node prints a heading line
 * `<Name> (<line>)`, then, two spaces deeper, its children and its tokens in
 * order; the indentation is a counter that each handler raises before its
 * children and lowers after them.
 */
module AstPrinter {
  import opened Base
  import opened IrTypes
  import opened Ast

  /* ------------------------------------------------------------------ */
  /* Lines                                                               */
  /* ------------------------------------------------------------------ */

  function Spaces(k: nat): (s: string)
    ensures |s| == k && forall i | 0 <= i < k :: s[i] == ' '
  {
    if k == 0 then "" else " " + Spaces(k - 1)
  }

  /** `PRINT_INDEX` followed by the word: the word at depth d. */
  function Line(d: nat, w: string): string
  {
    Spaces(d) + w
  }

  /** A printed word is not empty and does not begin with a space. */
  predicate WordOk(w: string)
  {
    |w| > 0 && w[0] != ' '
  }

  /** How deep a line is: its leading spaces. */
  function Depth(l: string): (d: nat)
    ensures d <= |l|
  {
    if |l| > 0 && l[0] == ' ' then 1 + Depth(l[1..]) else 0
  }

  /** What a line says once its indentation is removed. */
  function Body(l: string): string
  {
    l[Depth(l)..]
  }

  /** The indentation and the word of a line can be read back from it. */
  lemma {:induction false} LineDecodes(d: nat, w: string)
    requires WordOk(w)
    ensures Depth(Line(d, w)) == d && Body(Line(d, w)) == w
  {
    if d > 0 {
      assert Line(d, w)[1..] == Line(d - 1, w);
      LineDecodes(d - 1, w);
    }
  }

  /* ------------------------------------------------------------------ */
  /* What each handler prints                                            */
  /* ------------------------------------------------------------------ */

  /** The spellings the printer picks by enumeration index. */
  const TypeNames: seq<string> := ["int", "float"]
  const Op2Names: seq<string> := ["ASSIGNOP", "AND", "OR", "RELOP", "PLUS", "MINUS", "STAR", "DIV"]
  const Op1Names: seq<string> := ["MINUS", "NOT"]

  function TypeIndex(t: BaseType): (i: nat)
    ensures i < |TypeNames|
  {
    match t
    case IntType => 0
    case FloatType => 1
  }

  function Op2Index(op: Op2): (i: nat)
    ensures i < |Op2Names|
  {
    match op
    case AssignOp => 0
    case AndOp => 1
    case OrOp => 2
    case RelOp => 3
    case PlusOp => 4
    case MinusOp => 5
    case StarOp => 6
    case DivOp => 7
  }

  function Op1Index(op: Op1): (i: nat)
    ensures i < |Op1Names|
  {
    match op
    case NegOp => 0
    case NotOp => 1
  }

  /** `%u`: the 32-bit pattern of an `int` read as unsigned. */
  function Unsigned(x: int): (u: nat)
    ensures u < TWO32
    ensures 0 <= x < TWO32 ==> u == x
    ensures -TWO32 <= x < 0 ==> u == x + TWO32
  {
    x % TWO32
  }

  /** A step of a handler: visit a child, or print a word. */
  datatype Part = Sub(c: Node) | Put(w: string)

  /** The name each handler prints in its heading line. */
  function Name(n: Node): (s: string)
    ensures n != Nil ==> WordOk(s) && '(' !in s
  {
    match n
    case Nil => ""
    case Program(_, _) => "Program"
    case ExtDefList(_, _, _) => "ExtDefList"
    case ExtDefVar(_, _, _) => "ExtDef"
    case ExtDefNone(_, _) => "ExtDef"
    case ExtDefFun(_, _, _, _) => "ExtDef"
    case ExtDecList(_, _, _) => "ExtDecList"
    case SpecType(_, _) => "Specifier"
    case SpecStruct(_, _) => "Specifier"
    case StructDef(_, _, _) => "StructSpecifier"
    case StructTag(_, _) => "StructSpecifier"
    case OptTag(_, _) => "OptTag"
    case Tag(_, _) => "Tag"
    case VarDecId(_, _, _) => "VarDec"
    case VarDecArray(_, _, _) => "VarDec"
    case FunDec(_, _, _) => "FunDec"
    case VarList(_, _, _) => "VarList"
    case ParamDec(_, _, _) => "ParamDec"
    case CompSt(_, _, _) => "CompSt"
    case StmtList(_, _, _) => "StmtList"
    case StmtExp(_, _) => "Stmt"
    case StmtComp(_, _) => "Stmt"
    case StmtRet(_, _) => "Stmt"
    case StmtIf(_, _, _) => "Stmt"
    case StmtIfElse(_, _, _, _) => "Stmt"
    case StmtWhile(_, _, _) => "Stmt"
    case DefList(_, _, _) => "DefList"
    case Def(_, _, _) => "Def"
    case DecList(_, _, _) => "DecList"
    case Dec(_, _, _) => "Dec"
    case Exp2(_, _, _, _, _) => "Exp"
    case ExpPara(_, _) => "Exp"
    case Exp1(_, _, _) => "Exp"
    case ExpCall(_, _, _) => "Exp"
    case ExpArray(_, _, _) => "Exp"
    case ExpDot(_, _, _) => "Exp"
    case ExpId(_, _, _) => "Exp"
    case ExpInt(_, _) => "Exp"
    case ExpFloat(_, _) => "Exp"
    case Args(_, _, _) => "Args"
  }

  /** The steps of a node and what they promise: children are smaller, words are words. */
  ghost predicate PartsOk(n: Node, ps: seq<Part>)
  {
    forall i | 0 <= i < |ps| :: (ps[i].Sub? ==> ps[i].c < n) && (ps[i].Put? ==> WordOk(ps[i].w))
  }

  /**
   * What a handler does under its heading, in order, one indentation step deeper:
   * visit a child, or print a word on a line of its own.
   */
  function Parts(n: Node): (ps: seq<Part>)
    ensures PartsOk(n, ps)
  {
    if n.Program? || n.ExtDefList? || n.ExtDefVar? || n.ExtDefNone? || n.ExtDefFun? || n.ExtDecList? || n.SpecType? || n.SpecStruct? || n.StructDef? || n.StructTag? || n.OptTag? || n.Tag? || n.VarDecId? then DeclParts(n)
    else if n.VarDecArray? || n.FunDec? || n.VarList? || n.ParamDec? || n.CompSt? || n.StmtList? || n.StmtExp? || n.StmtComp? || n.StmtRet? || n.StmtIf? || n.StmtIfElse? || n.StmtWhile? || n.DefList? then BodyParts(n)
    else ExpParts(n)
  }

  function DeclParts(n: Node): (ps: seq<Part>)
    ensures PartsOk(n, ps)
  {
    match n
    case Program(_, _) => [Sub(n.extDefs)]
    case ExtDefList(_, _, _) => [Sub(n.extDef), Sub(n.rest)]
    case ExtDefVar(_, _, _) => [Sub(n.spec), Sub(n.decs), Put("SEMI")]
    case ExtDefNone(_, _) => [Sub(n.spec), Put("SEMI")]
    case ExtDefFun(_, _, _, _) => [Sub(n.spec), Sub(n.funDec), Sub(n.body)]
    case ExtDecList(_, _, _) => [Sub(n.varDec)] + (if n.rest != Nil then [Put("COMMA"), Sub(n.rest)] else [])
    case SpecType(_, _) => [Put("TYPE: " + TypeNames[TypeIndex(n.ty)])]
    case SpecStruct(_, _) => [Sub(n.structSpec)]
    case StructDef(_, _, _) => [Put("STRUCT"), Sub(n.optTag), Put("LC"), Sub(n.defs), Put("RC")]
    case StructTag(_, _) => [Put("STRUCT"), Sub(n.tag)]
    case OptTag(_, _) => [Put("ID: " + n.id)]
    case Tag(_, _) => [Put("ID: " + n.id)]
    case VarDecId(_, _, _) => [Put("ID: " + n.id)]
    case _ => []
  }

  function BodyParts(n: Node): (ps: seq<Part>)
    ensures PartsOk(n, ps)
  {
    match n
    case VarDecArray(_, _, _) => [Sub(n.varDec), Put("LB"), Put("INT: " + IntToString(n.ival)), Put("RB")]
    case FunDec(_, _, _) => [Put("ID: " + n.id), Put("LP"), Sub(n.params), Put("RP")]
    case VarList(_, _, _) => [Sub(n.paramDec)] + (if n.rest != Nil then [Put("COMMA"), Sub(n.rest)] else [])
    case ParamDec(_, _, _) => [Sub(n.spec), Sub(n.varDec)]
    case CompSt(_, _, _) => [Put("LC"), Sub(n.defs), Sub(n.stmts), Put("RC")]
    case StmtList(_, _, _) => [Sub(n.stmt), Sub(n.rest)]
    case StmtExp(_, _) => [Sub(n.exp), Put("SEMI")]
    case StmtComp(_, _) => [Sub(n.compSt)]
    case StmtRet(_, _) => [Put("RETURN"), Sub(n.exp), Put("SEMI")]
    case StmtIf(_, _, _) => [Put("IF"), Put("LP"), Sub(n.exp), Put("RP"), Sub(n.stmt)]
    case StmtIfElse(_, _, _, _) => [Put("IF"), Put("LP"), Sub(n.exp), Put("RP"), Sub(n.ifSt), Put("ELSE"), Sub(n.elseSt)]
    case StmtWhile(_, _, _) => [Put("WHILE"), Put("LP"), Sub(n.exp), Put("RP"), Sub(n.stmt)]
    case DefList(_, _, _) => [Sub(n.def), Sub(n.rest)]
    case _ => []
  }

  function ExpParts(n: Node): (ps: seq<Part>)
    ensures PartsOk(n, ps)
  {
    match n
    case Def(_, _, _) => [Sub(n.spec), Sub(n.decs), Put("SEMI")]
    case DecList(_, _, _) => [Sub(n.dec)] + (if n.rest != Nil then [Put("COMMA"), Sub(n.rest)] else [])
    case Dec(_, _, _) => [Sub(n.varDec)] + (if n.init != Nil then [Put("ASSIGNOP"), Sub(n.init)] else [])
    case Exp2(_, _, _, _, _) => [Sub(n.lexp), Put(Op2Names[Op2Index(n.op)]), Sub(n.rexp)]
    case ExpPara(_, _) => [Put("LP"), Sub(n.exp), Put("RP")]
    case Exp1(_, _, _) => [Put(Op1Names[Op1Index(n.op1)]), Sub(n.exp)]
    case ExpCall(_, _, _) => [Put("ID: " + n.id), Put("LP"), Sub(n.args), Put("RP")]
    case ExpArray(_, _, _) => [Sub(n.arr), Put("LB"), Sub(n.idx), Put("RB")]
    case ExpDot(_, _, _) => [Sub(n.exp), Put("DOT"), Put("ID: " + n.id)]
    case ExpId(_, _, _) => [Put("ID: " + n.id)]
    case ExpInt(_, _) => [Put("INT: " + NatToString(Unsigned(n.ival)))]
    case ExpFloat(_, _) => [Put("FLOAT: " + n.fval)]
    case Args(_, _, _) => [Sub(n.exp)] + (if n.rest != Nil then [Put("COMMA"), Sub(n.rest)] else [])
    case _ => []
  }

  /** `PUT_NAME`: the heading of a node. */
  function Header(n: Node): string
    requires n != Nil
  {
    Name(n) + " (" + IntToString(n.line) + ")"
  }

  /** Everything a visit prints when the indentation is k on entry. */
  function Lines(n: Node, k: nat): seq<string>
    decreases n, 1
  {
    if n == Nil then [] else [Line(k, Header(n))] + PartLines(n, Parts(n), k + 2)
  }

  /** What a run of a handler's steps prints at depth d. */
  function PartLines(n: Node, ps: seq<Part>, d: nat): seq<string>
    requires forall i | 0 <= i < |ps| :: ps[i].Sub? ==> ps[i].c < n
    decreases n, 0, |ps|
  {
    if ps == [] then []
    else (match ps[0] case Sub(c) => Lines(c, d) case Put(w) => [Line(d, w)]) + PartLines(n, ps[1..], d)
  }

  /* ------------------------------------------------------------------ */
  /* Each handler's output, spelled out                                  */
  /* ------------------------------------------------------------------ */

  lemma Assoc(a: seq<string>, b: seq<string>, c: seq<string>)
    ensures a + (b + c) == a + b + c
  {
  }

  lemma AppendNil(a: seq<string>, b: seq<string>)
    requires b == []
    ensures a + b == a
  {
  }

  lemma ProgramLines(n: Node, k: nat, pre: seq<string>)
    requires n.Program?
    ensures pre + Lines(n, k) == pre + [Line(k, Header(n))] + Lines(n.extDefs, k + 2)
  {
    var ps := Parts(n);
    var d := k + 2;
    assert ps[0..] == ps;
    Assoc(pre, [Line(k, Header(n))], PartLines(n, ps, d));
    assert PartLines(n, ps[0..], d) == Lines(n.extDefs, d) + PartLines(n, ps[1..], d);
    Assoc(pre + [Line(k, Header(n))], Lines(n.extDefs, d), PartLines(n, ps[1..], d));
    AppendNil(pre + [Line(k, Header(n))] + Lines(n.extDefs, d), PartLines(n, ps[1..], d));
  }

  lemma ExtDefListLines(n: Node, k: nat, pre: seq<string>)
    requires n.ExtDefList?
    ensures pre + Lines(n, k) == pre + [Line(k, Header(n))] + Lines(n.extDef, k + 2) + Lines(n.rest, k + 2)
  {
    var ps := Parts(n);
    var d := k + 2;
    assert ps[0..] == ps;
    Assoc(pre, [Line(k, Header(n))], PartLines(n, ps, d));
    assert PartLines(n, ps[0..], d) == Lines(n.extDef, d) + PartLines(n, ps[1..], d);
    Assoc(pre + [Line(k, Header(n))], Lines(n.extDef, d), PartLines(n, ps[1..], d));
    assert PartLines(n, ps[1..], d) == Lines(n.rest, d) + PartLines(n, ps[2..], d);
    Assoc(pre + [Line(k, Header(n))] + Lines(n.extDef, d), Lines(n.rest, d), PartLines(n, ps[2..], d));
    AppendNil(pre + [Line(k, Header(n))] + Lines(n.extDef, d) + Lines(n.rest, d), PartLines(n, ps[2..], d));
  }

  lemma ExtDefVarLines(n: Node, k: nat, pre: seq<string>)
    requires n.ExtDefVar?
    ensures pre + Lines(n, k) == pre + [Line(k, Header(n))] + Lines(n.spec, k + 2) + Lines(n.decs, k + 2) + [Line(k + 2, "SEMI")]
  {
    var ps := Parts(n);
    var d := k + 2;
    assert ps[0..] == ps;
    Assoc(pre, [Line(k, Header(n))], PartLines(n, ps, d));
    assert PartLines(n, ps[0..], d) == Lines(n.spec, d) + PartLines(n, ps[1..], d);
    Assoc(pre + [Line(k, Header(n))], Lines(n.spec, d), PartLines(n, ps[1..], d));
    assert PartLines(n, ps[1..], d) == Lines(n.decs, d) + PartLines(n, ps[2..], d);
    Assoc(pre + [Line(k, Header(n))] + Lines(n.spec, d), Lines(n.decs, d), PartLines(n, ps[2..], d));
    assert PartLines(n, ps[2..], d) == [Line(d, "SEMI")] + PartLines(n, ps[3..], d);
    Assoc(pre + [Line(k, Header(n))] + Lines(n.spec, d) + Lines(n.decs, d), [Line(d, "SEMI")], PartLines(n, ps[3..], d));
    AppendNil(pre + [Line(k, Header(n))] + Lines(n.spec, d) + Lines(n.decs, d) + [Line(d, "SEMI")], PartLines(n, ps[3..], d));
  }

  lemma ExtDefNoneLines(n: Node, k: nat, pre: seq<string>)
    requires n.ExtDefNone?
    ensures pre + Lines(n, k) == pre + [Line(k, Header(n))] + Lines(n.spec, k + 2) + [Line(k + 2, "SEMI")]
  {
    var ps := Parts(n);
    var d := k + 2;
    assert ps[0..] == ps;
    Assoc(pre, [Line(k, Header(n))], PartLines(n, ps, d));
    assert PartLines(n, ps[0..], d) == Lines(n.spec, d) + PartLines(n, ps[1..], d);
    Assoc(pre + [Line(k, Header(n))], Lines(n.spec, d), PartLines(n, ps[1..], d));
    assert PartLines(n, ps[1..], d) == [Line(d, "SEMI")] + PartLines(n, ps[2..], d);
    Assoc(pre + [Line(k, Header(n))] + Lines(n.spec, d), [Line(d, "SEMI")], PartLines(n, ps[2..], d));
    AppendNil(pre + [Line(k, Header(n))] + Lines(n.spec, d) + [Line(d, "SEMI")], PartLines(n, ps[2..], d));
  }

  lemma ExtDefFunLines(n: Node, k: nat, pre: seq<string>)
    requires n.ExtDefFun?
    ensures pre + Lines(n, k) == pre + [Line(k, Header(n))] + Lines(n.spec, k + 2) + Lines(n.funDec, k + 2) + Lines(n.body, k + 2)
  {
    var ps := Parts(n);
    var d := k + 2;
    assert ps[0..] == ps;
    Assoc(pre, [Line(k, Header(n))], PartLines(n, ps, d));
    assert PartLines(n, ps[0..], d) == Lines(n.spec, d) + PartLines(n, ps[1..], d);
    Assoc(pre + [Line(k, Header(n))], Lines(n.spec, d), PartLines(n, ps[1..], d));
    assert PartLines(n, ps[1..], d) == Lines(n.funDec, d) + PartLines(n, ps[2..], d);
    Assoc(pre + [Line(k, Header(n))] + Lines(n.spec, d), Lines(n.funDec, d), PartLines(n, ps[2..], d));
    assert PartLines(n, ps[2..], d) == Lines(n.body, d) + PartLines(n, ps[3..], d);
    Assoc(pre + [Line(k, Header(n))] + Lines(n.spec, d) + Lines(n.funDec, d), Lines(n.body, d), PartLines(n, ps[3..], d));
    AppendNil(pre + [Line(k, Header(n))] + Lines(n.spec, d) + Lines(n.funDec, d) + Lines(n.body, d), PartLines(n, ps[3..], d));
  }

  lemma ExtDecListLines(n: Node, k: nat, pre: seq<string>)
    requires n.ExtDecList?
    ensures n.rest != Nil ==> pre + Lines(n, k) == pre + [Line(k, Header(n))] + Lines(n.varDec, k + 2) + [Line(k + 2, "COMMA")] + Lines(n.rest, k + 2)
    ensures n.rest == Nil ==> pre + Lines(n, k) == pre + [Line(k, Header(n))] + Lines(n.varDec, k + 2)
  {
    var ps := Parts(n);
    var d := k + 2;
    assert ps[0..] == ps;
    Assoc(pre, [Line(k, Header(n))], PartLines(n, ps, d));
    assert PartLines(n, ps[0..], d) == Lines(n.varDec, d) + PartLines(n, ps[1..], d);
    Assoc(pre + [Line(k, Header(n))], Lines(n.varDec, d), PartLines(n, ps[1..], d));
    if n.rest != Nil {
      assert PartLines(n, ps[1..], d) == [Line(d, "COMMA")] + PartLines(n, ps[2..], d);
      Assoc(pre + [Line(k, Header(n))] + Lines(n.varDec, d), [Line(d, "COMMA")], PartLines(n, ps[2..], d));
      assert PartLines(n, ps[2..], d) == Lines(n.rest, d) + PartLines(n, ps[3..], d);
      Assoc(pre + [Line(k, Header(n))] + Lines(n.varDec, d) + [Line(d, "COMMA")], Lines(n.rest, d), PartLines(n, ps[3..], d));
      AppendNil(pre + [Line(k, Header(n))] + Lines(n.varDec, d) + [Line(d, "COMMA")] + Lines(n.rest, d), PartLines(n, ps[3..], d));
    } else {
      AppendNil(pre + [Line(k, Header(n))] + Lines(n.varDec, d), PartLines(n, ps[1..], d));
    }
  }

  lemma SpecTypeLines(n: Node, k: nat, pre: seq<string>)
    requires n.SpecType?
    ensures pre + Lines(n, k) == pre + [Line(k, Header(n))] + [Line(k + 2, "TYPE: " + TypeNames[TypeIndex(n.ty)])]
  {
    var ps := Parts(n);
    var d := k + 2;
    assert ps[0..] == ps;
    Assoc(pre, [Line(k, Header(n))], PartLines(n, ps, d));
    assert PartLines(n, ps[0..], d) == [Line(d, "TYPE: " + TypeNames[TypeIndex(n.ty)])] + PartLines(n, ps[1..], d);
    Assoc(pre + [Line(k, Header(n))], [Line(d, "TYPE: " + TypeNames[TypeIndex(n.ty)])], PartLines(n, ps[1..], d));
    AppendNil(pre + [Line(k, Header(n))] + [Line(d, "TYPE: " + TypeNames[TypeIndex(n.ty)])], PartLines(n, ps[1..], d));
  }

  lemma SpecStructLines(n: Node, k: nat, pre: seq<string>)
    requires n.SpecStruct?
    ensures pre + Lines(n, k) == pre + [Line(k, Header(n))] + Lines(n.structSpec, k + 2)
  {
    var ps := Parts(n);
    var d := k + 2;
    assert ps[0..] == ps;
    Assoc(pre, [Line(k, Header(n))], PartLines(n, ps, d));
    assert PartLines(n, ps[0..], d) == Lines(n.structSpec, d) + PartLines(n, ps[1..], d);
    Assoc(pre + [Line(k, Header(n))], Lines(n.structSpec, d), PartLines(n, ps[1..], d));
    AppendNil(pre + [Line(k, Header(n))] + Lines(n.structSpec, d), PartLines(n, ps[1..], d));
  }

  lemma StructDefLines(n: Node, k: nat, pre: seq<string>)
    requires n.StructDef?
    ensures pre + Lines(n, k) == pre + [Line(k, Header(n))] + [Line(k + 2, "STRUCT")] + Lines(n.optTag, k + 2) + [Line(k + 2, "LC")] + Lines(n.defs, k + 2) + [Line(k + 2, "RC")]
  {
    var ps := Parts(n);
    var d := k + 2;
    assert ps[0..] == ps;
    Assoc(pre, [Line(k, Header(n))], PartLines(n, ps, d));
    assert PartLines(n, ps[0..], d) == [Line(d, "STRUCT")] + PartLines(n, ps[1..], d);
    Assoc(pre + [Line(k, Header(n))], [Line(d, "STRUCT")], PartLines(n, ps[1..], d));
    assert PartLines(n, ps[1..], d) == Lines(n.optTag, d) + PartLines(n, ps[2..], d);
    Assoc(pre + [Line(k, Header(n))] + [Line(d, "STRUCT")], Lines(n.optTag, d), PartLines(n, ps[2..], d));
    assert PartLines(n, ps[2..], d) == [Line(d, "LC")] + PartLines(n, ps[3..], d);
    Assoc(pre + [Line(k, Header(n))] + [Line(d, "STRUCT")] + Lines(n.optTag, d), [Line(d, "LC")], PartLines(n, ps[3..], d));
    assert PartLines(n, ps[3..], d) == Lines(n.defs, d) + PartLines(n, ps[4..], d);
    Assoc(pre + [Line(k, Header(n))] + [Line(d, "STRUCT")] + Lines(n.optTag, d) + [Line(d, "LC")], Lines(n.defs, d), PartLines(n, ps[4..], d));
    assert PartLines(n, ps[4..], d) == [Line(d, "RC")] + PartLines(n, ps[5..], d);
    Assoc(pre + [Line(k, Header(n))] + [Line(d, "STRUCT")] + Lines(n.optTag, d) + [Line(d, "LC")] + Lines(n.defs, d), [Line(d, "RC")], PartLines(n, ps[5..], d));
    AppendNil(pre + [Line(k, Header(n))] + [Line(d, "STRUCT")] + Lines(n.optTag, d) + [Line(d, "LC")] + Lines(n.defs, d) + [Line(d, "RC")], PartLines(n, ps[5..], d));
  }

  lemma StructTagLines(n: Node, k: nat, pre: seq<string>)
    requires n.StructTag?
    ensures pre + Lines(n, k) == pre + [Line(k, Header(n))] + [Line(k + 2, "STRUCT")] + Lines(n.tag, k + 2)
  {
    var ps := Parts(n);
    var d := k + 2;
    assert ps[0..] == ps;
    Assoc(pre, [Line(k, Header(n))], PartLines(n, ps, d));
    assert PartLines(n, ps[0..], d) == [Line(d, "STRUCT")] + PartLines(n, ps[1..], d);
    Assoc(pre + [Line(k, Header(n))], [Line(d, "STRUCT")], PartLines(n, ps[1..], d));
    assert PartLines(n, ps[1..], d) == Lines(n.tag, d) + PartLines(n, ps[2..], d);
    Assoc(pre + [Line(k, Header(n))] + [Line(d, "STRUCT")], Lines(n.tag, d), PartLines(n, ps[2..], d));
    AppendNil(pre + [Line(k, Header(n))] + [Line(d, "STRUCT")] + Lines(n.tag, d), PartLines(n, ps[2..], d));
  }

  lemma OptTagLines(n: Node, k: nat, pre: seq<string>)
    requires n.OptTag?
    ensures pre + Lines(n, k) == pre + [Line(k, Header(n))] + [Line(k + 2, "ID: " + n.id)]
  {
    var ps := Parts(n);
    var d := k + 2;
    assert ps[0..] == ps;
    Assoc(pre, [Line(k, Header(n))], PartLines(n, ps, d));
    assert PartLines(n, ps[0..], d) == [Line(d, "ID: " + n.id)] + PartLines(n, ps[1..], d);
    Assoc(pre + [Line(k, Header(n))], [Line(d, "ID: " + n.id)], PartLines(n, ps[1..], d));
    AppendNil(pre + [Line(k, Header(n))] + [Line(d, "ID: " + n.id)], PartLines(n, ps[1..], d));
  }

  lemma TagLines(n: Node, k: nat, pre: seq<string>)
    requires n.Tag?
    ensures pre + Lines(n, k) == pre + [Line(k, Header(n))] + [Line(k + 2, "ID: " + n.id)]
  {
    var ps := Parts(n);
    var d := k + 2;
    assert ps[0..] == ps;
    Assoc(pre, [Line(k, Header(n))], PartLines(n, ps, d));
    assert PartLines(n, ps[0..], d) == [Line(d, "ID: " + n.id)] + PartLines(n, ps[1..], d);
    Assoc(pre + [Line(k, Header(n))], [Line(d, "ID: " + n.id)], PartLines(n, ps[1..], d));
    AppendNil(pre + [Line(k, Header(n))] + [Line(d, "ID: " + n.id)], PartLines(n, ps[1..], d));
  }

  lemma VarDecIdLines(n: Node, k: nat, pre: seq<string>)
    requires n.VarDecId?
    ensures pre + Lines(n, k) == pre + [Line(k, Header(n))] + [Line(k + 2, "ID: " + n.id)]
  {
    var ps := Parts(n);
    var d := k + 2;
    assert ps[0..] == ps;
    Assoc(pre, [Line(k, Header(n))], PartLines(n, ps, d));
    assert PartLines(n, ps[0..], d) == [Line(d, "ID: " + n.id)] + PartLines(n, ps[1..], d);
    Assoc(pre + [Line(k, Header(n))], [Line(d, "ID: " + n.id)], PartLines(n, ps[1..], d));
    AppendNil(pre + [Line(k, Header(n))] + [Line(d, "ID: " + n.id)], PartLines(n, ps[1..], d));
  }

  lemma VarDecArrayLines(n: Node, k: nat, pre: seq<string>)
    requires n.VarDecArray?
    ensures pre + Lines(n, k) == pre + [Line(k, Header(n))] + Lines(n.varDec, k + 2) + [Line(k + 2, "LB")] + [Line(k + 2, "INT: " + IntToString(n.ival))] + [Line(k + 2, "RB")]
  {
    var ps := Parts(n);
    var d := k + 2;
    assert ps[0..] == ps;
    Assoc(pre, [Line(k, Header(n))], PartLines(n, ps, d));
    assert PartLines(n, ps[0..], d) == Lines(n.varDec, d) + PartLines(n, ps[1..], d);
    Assoc(pre + [Line(k, Header(n))], Lines(n.varDec, d), PartLines(n, ps[1..], d));
    assert PartLines(n, ps[1..], d) == [Line(d, "LB")] + PartLines(n, ps[2..], d);
    Assoc(pre + [Line(k, Header(n))] + Lines(n.varDec, d), [Line(d, "LB")], PartLines(n, ps[2..], d));
    assert PartLines(n, ps[2..], d) == [Line(d, "INT: " + IntToString(n.ival))] + PartLines(n, ps[3..], d);
    Assoc(pre + [Line(k, Header(n))] + Lines(n.varDec, d) + [Line(d, "LB")], [Line(d, "INT: " + IntToString(n.ival))], PartLines(n, ps[3..], d));
    assert PartLines(n, ps[3..], d) == [Line(d, "RB")] + PartLines(n, ps[4..], d);
    Assoc(pre + [Line(k, Header(n))] + Lines(n.varDec, d) + [Line(d, "LB")] + [Line(d, "INT: " + IntToString(n.ival))], [Line(d, "RB")], PartLines(n, ps[4..], d));
    AppendNil(pre + [Line(k, Header(n))] + Lines(n.varDec, d) + [Line(d, "LB")] + [Line(d, "INT: " + IntToString(n.ival))] + [Line(d, "RB")], PartLines(n, ps[4..], d));
  }

  lemma FunDecLines(n: Node, k: nat, pre: seq<string>)
    requires n.FunDec?
    ensures pre + Lines(n, k) == pre + [Line(k, Header(n))] + [Line(k + 2, "ID: " + n.id)] + [Line(k + 2, "LP")] + Lines(n.params, k + 2) + [Line(k + 2, "RP")]
  {
    var ps := Parts(n);
    var d := k + 2;
    assert ps[0..] == ps;
    Assoc(pre, [Line(k, Header(n))], PartLines(n, ps, d));
    assert PartLines(n, ps[0..], d) == [Line(d, "ID: " + n.id)] + PartLines(n, ps[1..], d);
    Assoc(pre + [Line(k, Header(n))], [Line(d, "ID: " + n.id)], PartLines(n, ps[1..], d));
    assert PartLines(n, ps[1..], d) == [Line(d, "LP")] + PartLines(n, ps[2..], d);
    Assoc(pre + [Line(k, Header(n))] + [Line(d, "ID: " + n.id)], [Line(d, "LP")], PartLines(n, ps[2..], d));
    assert PartLines(n, ps[2..], d) == Lines(n.params, d) + PartLines(n, ps[3..], d);
    Assoc(pre + [Line(k, Header(n))] + [Line(d, "ID: " + n.id)] + [Line(d, "LP")], Lines(n.params, d), PartLines(n, ps[3..], d));
    assert PartLines(n, ps[3..], d) == [Line(d, "RP")] + PartLines(n, ps[4..], d);
    Assoc(pre + [Line(k, Header(n))] + [Line(d, "ID: " + n.id)] + [Line(d, "LP")] + Lines(n.params, d), [Line(d, "RP")], PartLines(n, ps[4..], d));
    AppendNil(pre + [Line(k, Header(n))] + [Line(d, "ID: " + n.id)] + [Line(d, "LP")] + Lines(n.params, d) + [Line(d, "RP")], PartLines(n, ps[4..], d));
  }

  lemma VarListLines(n: Node, k: nat, pre: seq<string>)
    requires n.VarList?
    ensures n.rest != Nil ==> pre + Lines(n, k) == pre + [Line(k, Header(n))] + Lines(n.paramDec, k + 2) + [Line(k + 2, "COMMA")] + Lines(n.rest, k + 2)
    ensures n.rest == Nil ==> pre + Lines(n, k) == pre + [Line(k, Header(n))] + Lines(n.paramDec, k + 2)
  {
    var ps := Parts(n);
    var d := k + 2;
    assert ps[0..] == ps;
    Assoc(pre, [Line(k, Header(n))], PartLines(n, ps, d));
    assert PartLines(n, ps[0..], d) == Lines(n.paramDec, d) + PartLines(n, ps[1..], d);
    Assoc(pre + [Line(k, Header(n))], Lines(n.paramDec, d), PartLines(n, ps[1..], d));
    if n.rest != Nil {
      assert PartLines(n, ps[1..], d) == [Line(d, "COMMA")] + PartLines(n, ps[2..], d);
      Assoc(pre + [Line(k, Header(n))] + Lines(n.paramDec, d), [Line(d, "COMMA")], PartLines(n, ps[2..], d));
      assert PartLines(n, ps[2..], d) == Lines(n.rest, d) + PartLines(n, ps[3..], d);
      Assoc(pre + [Line(k, Header(n))] + Lines(n.paramDec, d) + [Line(d, "COMMA")], Lines(n.rest, d), PartLines(n, ps[3..], d));
      AppendNil(pre + [Line(k, Header(n))] + Lines(n.paramDec, d) + [Line(d, "COMMA")] + Lines(n.rest, d), PartLines(n, ps[3..], d));
    } else {
      AppendNil(pre + [Line(k, Header(n))] + Lines(n.paramDec, d), PartLines(n, ps[1..], d));
    }
  }

  lemma ParamDecLines(n: Node, k: nat, pre: seq<string>)
    requires n.ParamDec?
    ensures pre + Lines(n, k) == pre + [Line(k, Header(n))] + Lines(n.spec, k + 2) + Lines(n.varDec, k + 2)
  {
    var ps := Parts(n);
    var d := k + 2;
    assert ps[0..] == ps;
    Assoc(pre, [Line(k, Header(n))], PartLines(n, ps, d));
    assert PartLines(n, ps[0..], d) == Lines(n.spec, d) + PartLines(n, ps[1..], d);
    Assoc(pre + [Line(k, Header(n))], Lines(n.spec, d), PartLines(n, ps[1..], d));
    assert PartLines(n, ps[1..], d) == Lines(n.varDec, d) + PartLines(n, ps[2..], d);
    Assoc(pre + [Line(k, Header(n))] + Lines(n.spec, d), Lines(n.varDec, d), PartLines(n, ps[2..], d));
    AppendNil(pre + [Line(k, Header(n))] + Lines(n.spec, d) + Lines(n.varDec, d), PartLines(n, ps[2..], d));
  }

  lemma CompStLines(n: Node, k: nat, pre: seq<string>)
    requires n.CompSt?
    ensures pre + Lines(n, k) == pre + [Line(k, Header(n))] + [Line(k + 2, "LC")] + Lines(n.defs, k + 2) + Lines(n.stmts, k + 2) + [Line(k + 2, "RC")]
  {
    var ps := Parts(n);
    var d := k + 2;
    assert ps[0..] == ps;
    Assoc(pre, [Line(k, Header(n))], PartLines(n, ps, d));
    assert PartLines(n, ps[0..], d) == [Line(d, "LC")] + PartLines(n, ps[1..], d);
    Assoc(pre + [Line(k, Header(n))], [Line(d, "LC")], PartLines(n, ps[1..], d));
    assert PartLines(n, ps[1..], d) == Lines(n.defs, d) + PartLines(n, ps[2..], d);
    Assoc(pre + [Line(k, Header(n))] + [Line(d, "LC")], Lines(n.defs, d), PartLines(n, ps[2..], d));
    assert PartLines(n, ps[2..], d) == Lines(n.stmts, d) + PartLines(n, ps[3..], d);
    Assoc(pre + [Line(k, Header(n))] + [Line(d, "LC")] + Lines(n.defs, d), Lines(n.stmts, d), PartLines(n, ps[3..], d));
    assert PartLines(n, ps[3..], d) == [Line(d, "RC")] + PartLines(n, ps[4..], d);
    Assoc(pre + [Line(k, Header(n))] + [Line(d, "LC")] + Lines(n.defs, d) + Lines(n.stmts, d), [Line(d, "RC")], PartLines(n, ps[4..], d));
    AppendNil(pre + [Line(k, Header(n))] + [Line(d, "LC")] + Lines(n.defs, d) + Lines(n.stmts, d) + [Line(d, "RC")], PartLines(n, ps[4..], d));
  }

  lemma StmtListLines(n: Node, k: nat, pre: seq<string>)
    requires n.StmtList?
    ensures pre + Lines(n, k) == pre + [Line(k, Header(n))] + Lines(n.stmt, k + 2) + Lines(n.rest, k + 2)
  {
    var ps := Parts(n);
    var d := k + 2;
    assert ps[0..] == ps;
    Assoc(pre, [Line(k, Header(n))], PartLines(n, ps, d));
    assert PartLines(n, ps[0..], d) == Lines(n.stmt, d) + PartLines(n, ps[1..], d);
    Assoc(pre + [Line(k, Header(n))], Lines(n.stmt, d), PartLines(n, ps[1..], d));
    assert PartLines(n, ps[1..], d) == Lines(n.rest, d) + PartLines(n, ps[2..], d);
    Assoc(pre + [Line(k, Header(n))] + Lines(n.stmt, d), Lines(n.rest, d), PartLines(n, ps[2..], d));
    AppendNil(pre + [Line(k, Header(n))] + Lines(n.stmt, d) + Lines(n.rest, d), PartLines(n, ps[2..], d));
  }

  lemma StmtExpLines(n: Node, k: nat, pre: seq<string>)
    requires n.StmtExp?
    ensures pre + Lines(n, k) == pre + [Line(k, Header(n))] + Lines(n.exp, k + 2) + [Line(k + 2, "SEMI")]
  {
    var ps := Parts(n);
    var d := k + 2;
    assert ps[0..] == ps;
    Assoc(pre, [Line(k, Header(n))], PartLines(n, ps, d));
    assert PartLines(n, ps[0..], d) == Lines(n.exp, d) + PartLines(n, ps[1..], d);
    Assoc(pre + [Line(k, Header(n))], Lines(n.exp, d), PartLines(n, ps[1..], d));
    assert PartLines(n, ps[1..], d) == [Line(d, "SEMI")] + PartLines(n, ps[2..], d);
    Assoc(pre + [Line(k, Header(n))] + Lines(n.exp, d), [Line(d, "SEMI")], PartLines(n, ps[2..], d));
    AppendNil(pre + [Line(k, Header(n))] + Lines(n.exp, d) + [Line(d, "SEMI")], PartLines(n, ps[2..], d));
  }

  lemma StmtCompLines(n: Node, k: nat, pre: seq<string>)
    requires n.StmtComp?
    ensures pre + Lines(n, k) == pre + [Line(k, Header(n))] + Lines(n.compSt, k + 2)
  {
    var ps := Parts(n);
    var d := k + 2;
    assert ps[0..] == ps;
    Assoc(pre, [Line(k, Header(n))], PartLines(n, ps, d));
    assert PartLines(n, ps[0..], d) == Lines(n.compSt, d) + PartLines(n, ps[1..], d);
    Assoc(pre + [Line(k, Header(n))], Lines(n.compSt, d), PartLines(n, ps[1..], d));
    AppendNil(pre + [Line(k, Header(n))] + Lines(n.compSt, d), PartLines(n, ps[1..], d));
  }

  lemma StmtRetLines(n: Node, k: nat, pre: seq<string>)
    requires n.StmtRet?
    ensures pre + Lines(n, k) == pre + [Line(k, Header(n))] + [Line(k + 2, "RETURN")] + Lines(n.exp, k + 2) + [Line(k + 2, "SEMI")]
  {
    var ps := Parts(n);
    var d := k + 2;
    assert ps[0..] == ps;
    Assoc(pre, [Line(k, Header(n))], PartLines(n, ps, d));
    assert PartLines(n, ps[0..], d) == [Line(d, "RETURN")] + PartLines(n, ps[1..], d);
    Assoc(pre + [Line(k, Header(n))], [Line(d, "RETURN")], PartLines(n, ps[1..], d));
    assert PartLines(n, ps[1..], d) == Lines(n.exp, d) + PartLines(n, ps[2..], d);
    Assoc(pre + [Line(k, Header(n))] + [Line(d, "RETURN")], Lines(n.exp, d), PartLines(n, ps[2..], d));
    assert PartLines(n, ps[2..], d) == [Line(d, "SEMI")] + PartLines(n, ps[3..], d);
    Assoc(pre + [Line(k, Header(n))] + [Line(d, "RETURN")] + Lines(n.exp, d), [Line(d, "SEMI")], PartLines(n, ps[3..], d));
    AppendNil(pre + [Line(k, Header(n))] + [Line(d, "RETURN")] + Lines(n.exp, d) + [Line(d, "SEMI")], PartLines(n, ps[3..], d));
  }

  lemma StmtIfLines(n: Node, k: nat, pre: seq<string>)
    requires n.StmtIf?
    ensures pre + Lines(n, k) == pre + [Line(k, Header(n))] + [Line(k + 2, "IF")] + [Line(k + 2, "LP")] + Lines(n.exp, k + 2) + [Line(k + 2, "RP")] + Lines(n.stmt, k + 2)
  {
    var ps := Parts(n);
    var d := k + 2;
    assert ps[0..] == ps;
    Assoc(pre, [Line(k, Header(n))], PartLines(n, ps, d));
    assert PartLines(n, ps[0..], d) == [Line(d, "IF")] + PartLines(n, ps[1..], d);
    Assoc(pre + [Line(k, Header(n))], [Line(d, "IF")], PartLines(n, ps[1..], d));
    assert PartLines(n, ps[1..], d) == [Line(d, "LP")] + PartLines(n, ps[2..], d);
    Assoc(pre + [Line(k, Header(n))] + [Line(d, "IF")], [Line(d, "LP")], PartLines(n, ps[2..], d));
    assert PartLines(n, ps[2..], d) == Lines(n.exp, d) + PartLines(n, ps[3..], d);
    Assoc(pre + [Line(k, Header(n))] + [Line(d, "IF")] + [Line(d, "LP")], Lines(n.exp, d), PartLines(n, ps[3..], d));
    assert PartLines(n, ps[3..], d) == [Line(d, "RP")] + PartLines(n, ps[4..], d);
    Assoc(pre + [Line(k, Header(n))] + [Line(d, "IF")] + [Line(d, "LP")] + Lines(n.exp, d), [Line(d, "RP")], PartLines(n, ps[4..], d));
    assert PartLines(n, ps[4..], d) == Lines(n.stmt, d) + PartLines(n, ps[5..], d);
    Assoc(pre + [Line(k, Header(n))] + [Line(d, "IF")] + [Line(d, "LP")] + Lines(n.exp, d) + [Line(d, "RP")], Lines(n.stmt, d), PartLines(n, ps[5..], d));
    AppendNil(pre + [Line(k, Header(n))] + [Line(d, "IF")] + [Line(d, "LP")] + Lines(n.exp, d) + [Line(d, "RP")] + Lines(n.stmt, d), PartLines(n, ps[5..], d));
  }

  lemma StmtIfElseLines(n: Node, k: nat, pre: seq<string>)
    requires n.StmtIfElse?
    ensures pre + Lines(n, k) == pre + [Line(k, Header(n))] + [Line(k + 2, "IF")] + [Line(k + 2, "LP")] + Lines(n.exp, k + 2) + [Line(k + 2, "RP")] + Lines(n.ifSt, k + 2) + [Line(k + 2, "ELSE")] + Lines(n.elseSt, k + 2)
  {
    var ps := Parts(n);
    var d := k + 2;
    assert ps[0..] == ps;
    Assoc(pre, [Line(k, Header(n))], PartLines(n, ps, d));
    assert PartLines(n, ps[0..], d) == [Line(d, "IF")] + PartLines(n, ps[1..], d);
    Assoc(pre + [Line(k, Header(n))], [Line(d, "IF")], PartLines(n, ps[1..], d));
    assert PartLines(n, ps[1..], d) == [Line(d, "LP")] + PartLines(n, ps[2..], d);
    Assoc(pre + [Line(k, Header(n))] + [Line(d, "IF")], [Line(d, "LP")], PartLines(n, ps[2..], d));
    assert PartLines(n, ps[2..], d) == Lines(n.exp, d) + PartLines(n, ps[3..], d);
    Assoc(pre + [Line(k, Header(n))] + [Line(d, "IF")] + [Line(d, "LP")], Lines(n.exp, d), PartLines(n, ps[3..], d));
    StmtIfElseTail(n, d, pre + [Line(k, Header(n))] + [Line(d, "IF")] + [Line(d, "LP")] + Lines(n.exp, d));
  }

  /** The second half of an if-else node's steps: the branches and ELSE. */
  lemma StmtIfElseTail(n: Node, d: nat, pre: seq<string>)
    requires n.StmtIfElse?
    ensures pre + PartLines(n, Parts(n)[3..], d) == pre + [Line(d, "RP")] + Lines(n.ifSt, d) + [Line(d, "ELSE")] + Lines(n.elseSt, d)
  {
    var ps := Parts(n);
    assert PartLines(n, ps[3..], d) == [Line(d, "RP")] + PartLines(n, ps[4..], d);
    Assoc(pre, [Line(d, "RP")], PartLines(n, ps[4..], d));
    assert PartLines(n, ps[4..], d) == Lines(n.ifSt, d) + PartLines(n, ps[5..], d);
    Assoc(pre + [Line(d, "RP")], Lines(n.ifSt, d), PartLines(n, ps[5..], d));
    assert PartLines(n, ps[5..], d) == [Line(d, "ELSE")] + PartLines(n, ps[6..], d);
    Assoc(pre + [Line(d, "RP")] + Lines(n.ifSt, d), [Line(d, "ELSE")], PartLines(n, ps[6..], d));
    assert PartLines(n, ps[6..], d) == Lines(n.elseSt, d) + PartLines(n, ps[7..], d);
    Assoc(pre + [Line(d, "RP")] + Lines(n.ifSt, d) + [Line(d, "ELSE")], Lines(n.elseSt, d), PartLines(n, ps[7..], d));
    AppendNil(pre + [Line(d, "RP")] + Lines(n.ifSt, d) + [Line(d, "ELSE")] + Lines(n.elseSt, d), PartLines(n, ps[7..], d));
  }

  lemma StmtWhileLines(n: Node, k: nat, pre: seq<string>)
    requires n.StmtWhile?
    ensures pre + Lines(n, k) == pre + [Line(k, Header(n))] + [Line(k + 2, "WHILE")] + [Line(k + 2, "LP")] + Lines(n.exp, k + 2) + [Line(k + 2, "RP")] + Lines(n.stmt, k + 2)
  {
    var ps := Parts(n);
    var d := k + 2;
    assert ps[0..] == ps;
    Assoc(pre, [Line(k, Header(n))], PartLines(n, ps, d));
    assert PartLines(n, ps[0..], d) == [Line(d, "WHILE")] + PartLines(n, ps[1..], d);
    Assoc(pre + [Line(k, Header(n))], [Line(d, "WHILE")], PartLines(n, ps[1..], d));
    assert PartLines(n, ps[1..], d) == [Line(d, "LP")] + PartLines(n, ps[2..], d);
    Assoc(pre + [Line(k, Header(n))] + [Line(d, "WHILE")], [Line(d, "LP")], PartLines(n, ps[2..], d));
    assert PartLines(n, ps[2..], d) == Lines(n.exp, d) + PartLines(n, ps[3..], d);
    Assoc(pre + [Line(k, Header(n))] + [Line(d, "WHILE")] + [Line(d, "LP")], Lines(n.exp, d), PartLines(n, ps[3..], d));
    assert PartLines(n, ps[3..], d) == [Line(d, "RP")] + PartLines(n, ps[4..], d);
    Assoc(pre + [Line(k, Header(n))] + [Line(d, "WHILE")] + [Line(d, "LP")] + Lines(n.exp, d), [Line(d, "RP")], PartLines(n, ps[4..], d));
    assert PartLines(n, ps[4..], d) == Lines(n.stmt, d) + PartLines(n, ps[5..], d);
    Assoc(pre + [Line(k, Header(n))] + [Line(d, "WHILE")] + [Line(d, "LP")] + Lines(n.exp, d) + [Line(d, "RP")], Lines(n.stmt, d), PartLines(n, ps[5..], d));
    AppendNil(pre + [Line(k, Header(n))] + [Line(d, "WHILE")] + [Line(d, "LP")] + Lines(n.exp, d) + [Line(d, "RP")] + Lines(n.stmt, d), PartLines(n, ps[5..], d));
  }

  lemma DefListLines(n: Node, k: nat, pre: seq<string>)
    requires n.DefList?
    ensures pre + Lines(n, k) == pre + [Line(k, Header(n))] + Lines(n.def, k + 2) + Lines(n.rest, k + 2)
  {
    var ps := Parts(n);
    var d := k + 2;
    assert ps[0..] == ps;
    Assoc(pre, [Line(k, Header(n))], PartLines(n, ps, d));
    assert PartLines(n, ps[0..], d) == Lines(n.def, d) + PartLines(n, ps[1..], d);
    Assoc(pre + [Line(k, Header(n))], Lines(n.def, d), PartLines(n, ps[1..], d));
    assert PartLines(n, ps[1..], d) == Lines(n.rest, d) + PartLines(n, ps[2..], d);
    Assoc(pre + [Line(k, Header(n))] + Lines(n.def, d), Lines(n.rest, d), PartLines(n, ps[2..], d));
    AppendNil(pre + [Line(k, Header(n))] + Lines(n.def, d) + Lines(n.rest, d), PartLines(n, ps[2..], d));
  }

  lemma DefLines(n: Node, k: nat, pre: seq<string>)
    requires n.Def?
    ensures pre + Lines(n, k) == pre + [Line(k, Header(n))] + Lines(n.spec, k + 2) + Lines(n.decs, k + 2) + [Line(k + 2, "SEMI")]
  {
    var ps := Parts(n);
    var d := k + 2;
    assert ps[0..] == ps;
    Assoc(pre, [Line(k, Header(n))], PartLines(n, ps, d));
    assert PartLines(n, ps[0..], d) == Lines(n.spec, d) + PartLines(n, ps[1..], d);
    Assoc(pre + [Line(k, Header(n))], Lines(n.spec, d), PartLines(n, ps[1..], d));
    assert PartLines(n, ps[1..], d) == Lines(n.decs, d) + PartLines(n, ps[2..], d);
    Assoc(pre + [Line(k, Header(n))] + Lines(n.spec, d), Lines(n.decs, d), PartLines(n, ps[2..], d));
    assert PartLines(n, ps[2..], d) == [Line(d, "SEMI")] + PartLines(n, ps[3..], d);
    Assoc(pre + [Line(k, Header(n))] + Lines(n.spec, d) + Lines(n.decs, d), [Line(d, "SEMI")], PartLines(n, ps[3..], d));
    AppendNil(pre + [Line(k, Header(n))] + Lines(n.spec, d) + Lines(n.decs, d) + [Line(d, "SEMI")], PartLines(n, ps[3..], d));
  }

  lemma DecListLines(n: Node, k: nat, pre: seq<string>)
    requires n.DecList?
    ensures n.rest != Nil ==> pre + Lines(n, k) == pre + [Line(k, Header(n))] + Lines(n.dec, k + 2) + [Line(k + 2, "COMMA")] + Lines(n.rest, k + 2)
    ensures n.rest == Nil ==> pre + Lines(n, k) == pre + [Line(k, Header(n))] + Lines(n.dec, k + 2)
  {
    var ps := Parts(n);
    var d := k + 2;
    assert ps[0..] == ps;
    Assoc(pre, [Line(k, Header(n))], PartLines(n, ps, d));
    assert PartLines(n, ps[0..], d) == Lines(n.dec, d) + PartLines(n, ps[1..], d);
    Assoc(pre + [Line(k, Header(n))], Lines(n.dec, d), PartLines(n, ps[1..], d));
    if n.rest != Nil {
      assert PartLines(n, ps[1..], d) == [Line(d, "COMMA")] + PartLines(n, ps[2..], d);
      Assoc(pre + [Line(k, Header(n))] + Lines(n.dec, d), [Line(d, "COMMA")], PartLines(n, ps[2..], d));
      assert PartLines(n, ps[2..], d) == Lines(n.rest, d) + PartLines(n, ps[3..], d);
      Assoc(pre + [Line(k, Header(n))] + Lines(n.dec, d) + [Line(d, "COMMA")], Lines(n.rest, d), PartLines(n, ps[3..], d));
      AppendNil(pre + [Line(k, Header(n))] + Lines(n.dec, d) + [Line(d, "COMMA")] + Lines(n.rest, d), PartLines(n, ps[3..], d));
    } else {
      AppendNil(pre + [Line(k, Header(n))] + Lines(n.dec, d), PartLines(n, ps[1..], d));
    }
  }

  lemma DecLines(n: Node, k: nat, pre: seq<string>)
    requires n.Dec?
    ensures n.init != Nil ==> pre + Lines(n, k) == pre + [Line(k, Header(n))] + Lines(n.varDec, k + 2) + [Line(k + 2, "ASSIGNOP")] + Lines(n.init, k + 2)
    ensures n.init == Nil ==> pre + Lines(n, k) == pre + [Line(k, Header(n))] + Lines(n.varDec, k + 2)
  {
    var ps := Parts(n);
    var d := k + 2;
    assert ps[0..] == ps;
    Assoc(pre, [Line(k, Header(n))], PartLines(n, ps, d));
    assert PartLines(n, ps[0..], d) == Lines(n.varDec, d) + PartLines(n, ps[1..], d);
    Assoc(pre + [Line(k, Header(n))], Lines(n.varDec, d), PartLines(n, ps[1..], d));
    if n.init != Nil {
      assert PartLines(n, ps[1..], d) == [Line(d, "ASSIGNOP")] + PartLines(n, ps[2..], d);
      Assoc(pre + [Line(k, Header(n))] + Lines(n.varDec, d), [Line(d, "ASSIGNOP")], PartLines(n, ps[2..], d));
      assert PartLines(n, ps[2..], d) == Lines(n.init, d) + PartLines(n, ps[3..], d);
      Assoc(pre + [Line(k, Header(n))] + Lines(n.varDec, d) + [Line(d, "ASSIGNOP")], Lines(n.init, d), PartLines(n, ps[3..], d));
      AppendNil(pre + [Line(k, Header(n))] + Lines(n.varDec, d) + [Line(d, "ASSIGNOP")] + Lines(n.init, d), PartLines(n, ps[3..], d));
    } else {
      AppendNil(pre + [Line(k, Header(n))] + Lines(n.varDec, d), PartLines(n, ps[1..], d));
    }
  }

  lemma Exp2Lines(n: Node, k: nat, pre: seq<string>)
    requires n.Exp2?
    ensures pre + Lines(n, k) == pre + [Line(k, Header(n))] + Lines(n.lexp, k + 2) + [Line(k + 2, Op2Names[Op2Index(n.op)])] + Lines(n.rexp, k + 2)
  {
    var ps := Parts(n);
    var d := k + 2;
    assert ps[0..] == ps;
    Assoc(pre, [Line(k, Header(n))], PartLines(n, ps, d));
    assert PartLines(n, ps[0..], d) == Lines(n.lexp, d) + PartLines(n, ps[1..], d);
    Assoc(pre + [Line(k, Header(n))], Lines(n.lexp, d), PartLines(n, ps[1..], d));
    assert PartLines(n, ps[1..], d) == [Line(d, Op2Names[Op2Index(n.op)])] + PartLines(n, ps[2..], d);
    Assoc(pre + [Line(k, Header(n))] + Lines(n.lexp, d), [Line(d, Op2Names[Op2Index(n.op)])], PartLines(n, ps[2..], d));
    assert PartLines(n, ps[2..], d) == Lines(n.rexp, d) + PartLines(n, ps[3..], d);
    Assoc(pre + [Line(k, Header(n))] + Lines(n.lexp, d) + [Line(d, Op2Names[Op2Index(n.op)])], Lines(n.rexp, d), PartLines(n, ps[3..], d));
    AppendNil(pre + [Line(k, Header(n))] + Lines(n.lexp, d) + [Line(d, Op2Names[Op2Index(n.op)])] + Lines(n.rexp, d), PartLines(n, ps[3..], d));
  }

  lemma ExpParaLines(n: Node, k: nat, pre: seq<string>)
    requires n.ExpPara?
    ensures pre + Lines(n, k) == pre + [Line(k, Header(n))] + [Line(k + 2, "LP")] + Lines(n.exp, k + 2) + [Line(k + 2, "RP")]
  {
    var ps := Parts(n);
    var d := k + 2;
    assert ps[0..] == ps;
    Assoc(pre, [Line(k, Header(n))], PartLines(n, ps, d));
    assert PartLines(n, ps[0..], d) == [Line(d, "LP")] + PartLines(n, ps[1..], d);
    Assoc(pre + [Line(k, Header(n))], [Line(d, "LP")], PartLines(n, ps[1..], d));
    assert PartLines(n, ps[1..], d) == Lines(n.exp, d) + PartLines(n, ps[2..], d);
    Assoc(pre + [Line(k, Header(n))] + [Line(d, "LP")], Lines(n.exp, d), PartLines(n, ps[2..], d));
    assert PartLines(n, ps[2..], d) == [Line(d, "RP")] + PartLines(n, ps[3..], d);
    Assoc(pre + [Line(k, Header(n))] + [Line(d, "LP")] + Lines(n.exp, d), [Line(d, "RP")], PartLines(n, ps[3..], d));
    AppendNil(pre + [Line(k, Header(n))] + [Line(d, "LP")] + Lines(n.exp, d) + [Line(d, "RP")], PartLines(n, ps[3..], d));
  }

  lemma Exp1Lines(n: Node, k: nat, pre: seq<string>)
    requires n.Exp1?
    ensures pre + Lines(n, k) == pre + [Line(k, Header(n))] + [Line(k + 2, Op1Names[Op1Index(n.op1)])] + Lines(n.exp, k + 2)
  {
    var ps := Parts(n);
    var d := k + 2;
    assert ps[0..] == ps;
    Assoc(pre, [Line(k, Header(n))], PartLines(n, ps, d));
    assert PartLines(n, ps[0..], d) == [Line(d, Op1Names[Op1Index(n.op1)])] + PartLines(n, ps[1..], d);
    Assoc(pre + [Line(k, Header(n))], [Line(d, Op1Names[Op1Index(n.op1)])], PartLines(n, ps[1..], d));
    assert PartLines(n, ps[1..], d) == Lines(n.exp, d) + PartLines(n, ps[2..], d);
    Assoc(pre + [Line(k, Header(n))] + [Line(d, Op1Names[Op1Index(n.op1)])], Lines(n.exp, d), PartLines(n, ps[2..], d));
    AppendNil(pre + [Line(k, Header(n))] + [Line(d, Op1Names[Op1Index(n.op1)])] + Lines(n.exp, d), PartLines(n, ps[2..], d));
  }

  lemma ExpCallLines(n: Node, k: nat, pre: seq<string>)
    requires n.ExpCall?
    ensures pre + Lines(n, k) == pre + [Line(k, Header(n))] + [Line(k + 2, "ID: " + n.id)] + [Line(k + 2, "LP")] + Lines(n.args, k + 2) + [Line(k + 2, "RP")]
  {
    var ps := Parts(n);
    var d := k + 2;
    assert ps[0..] == ps;
    Assoc(pre, [Line(k, Header(n))], PartLines(n, ps, d));
    assert PartLines(n, ps[0..], d) == [Line(d, "ID: " + n.id)] + PartLines(n, ps[1..], d);
    Assoc(pre + [Line(k, Header(n))], [Line(d, "ID: " + n.id)], PartLines(n, ps[1..], d));
    assert PartLines(n, ps[1..], d) == [Line(d, "LP")] + PartLines(n, ps[2..], d);
    Assoc(pre + [Line(k, Header(n))] + [Line(d, "ID: " + n.id)], [Line(d, "LP")], PartLines(n, ps[2..], d));
    assert PartLines(n, ps[2..], d) == Lines(n.args, d) + PartLines(n, ps[3..], d);
    Assoc(pre + [Line(k, Header(n))] + [Line(d, "ID: " + n.id)] + [Line(d, "LP")], Lines(n.args, d), PartLines(n, ps[3..], d));
    assert PartLines(n, ps[3..], d) == [Line(d, "RP")] + PartLines(n, ps[4..], d);
    Assoc(pre + [Line(k, Header(n))] + [Line(d, "ID: " + n.id)] + [Line(d, "LP")] + Lines(n.args, d), [Line(d, "RP")], PartLines(n, ps[4..], d));
    AppendNil(pre + [Line(k, Header(n))] + [Line(d, "ID: " + n.id)] + [Line(d, "LP")] + Lines(n.args, d) + [Line(d, "RP")], PartLines(n, ps[4..], d));
  }

  lemma ExpArrayLines(n: Node, k: nat, pre: seq<string>)
    requires n.ExpArray?
    ensures pre + Lines(n, k) == pre + [Line(k, Header(n))] + Lines(n.arr, k + 2) + [Line(k + 2, "LB")] + Lines(n.idx, k + 2) + [Line(k + 2, "RB")]
  {
    var ps := Parts(n);
    var d := k + 2;
    assert ps[0..] == ps;
    Assoc(pre, [Line(k, Header(n))], PartLines(n, ps, d));
    assert PartLines(n, ps[0..], d) == Lines(n.arr, d) + PartLines(n, ps[1..], d);
    Assoc(pre + [Line(k, Header(n))], Lines(n.arr, d), PartLines(n, ps[1..], d));
    assert PartLines(n, ps[1..], d) == [Line(d, "LB")] + PartLines(n, ps[2..], d);
    Assoc(pre + [Line(k, Header(n))] + Lines(n.arr, d), [Line(d, "LB")], PartLines(n, ps[2..], d));
    assert PartLines(n, ps[2..], d) == Lines(n.idx, d) + PartLines(n, ps[3..], d);
    Assoc(pre + [Line(k, Header(n))] + Lines(n.arr, d) + [Line(d, "LB")], Lines(n.idx, d), PartLines(n, ps[3..], d));
    assert PartLines(n, ps[3..], d) == [Line(d, "RB")] + PartLines(n, ps[4..], d);
    Assoc(pre + [Line(k, Header(n))] + Lines(n.arr, d) + [Line(d, "LB")] + Lines(n.idx, d), [Line(d, "RB")], PartLines(n, ps[4..], d));
    AppendNil(pre + [Line(k, Header(n))] + Lines(n.arr, d) + [Line(d, "LB")] + Lines(n.idx, d) + [Line(d, "RB")], PartLines(n, ps[4..], d));
  }

  lemma ExpDotLines(n: Node, k: nat, pre: seq<string>)
    requires n.ExpDot?
    ensures pre + Lines(n, k) == pre + [Line(k, Header(n))] + Lines(n.exp, k + 2) + [Line(k + 2, "DOT")] + [Line(k + 2, "ID: " + n.id)]
  {
    var ps := Parts(n);
    var d := k + 2;
    assert ps[0..] == ps;
    Assoc(pre, [Line(k, Header(n))], PartLines(n, ps, d));
    assert PartLines(n, ps[0..], d) == Lines(n.exp, d) + PartLines(n, ps[1..], d);
    Assoc(pre + [Line(k, Header(n))], Lines(n.exp, d), PartLines(n, ps[1..], d));
    assert PartLines(n, ps[1..], d) == [Line(d, "DOT")] + PartLines(n, ps[2..], d);
    Assoc(pre + [Line(k, Header(n))] + Lines(n.exp, d), [Line(d, "DOT")], PartLines(n, ps[2..], d));
    assert PartLines(n, ps[2..], d) == [Line(d, "ID: " + n.id)] + PartLines(n, ps[3..], d);
    Assoc(pre + [Line(k, Header(n))] + Lines(n.exp, d) + [Line(d, "DOT")], [Line(d, "ID: " + n.id)], PartLines(n, ps[3..], d));
    AppendNil(pre + [Line(k, Header(n))] + Lines(n.exp, d) + [Line(d, "DOT")] + [Line(d, "ID: " + n.id)], PartLines(n, ps[3..], d));
  }

  lemma ExpIdLines(n: Node, k: nat, pre: seq<string>)
    requires n.ExpId?
    ensures pre + Lines(n, k) == pre + [Line(k, Header(n))] + [Line(k + 2, "ID: " + n.id)]
  {
    var ps := Parts(n);
    var d := k + 2;
    assert ps[0..] == ps;
    Assoc(pre, [Line(k, Header(n))], PartLines(n, ps, d));
    assert PartLines(n, ps[0..], d) == [Line(d, "ID: " + n.id)] + PartLines(n, ps[1..], d);
    Assoc(pre + [Line(k, Header(n))], [Line(d, "ID: " + n.id)], PartLines(n, ps[1..], d));
    AppendNil(pre + [Line(k, Header(n))] + [Line(d, "ID: " + n.id)], PartLines(n, ps[1..], d));
  }

  lemma ExpIntLines(n: Node, k: nat, pre: seq<string>)
    requires n.ExpInt?
    ensures pre + Lines(n, k) == pre + [Line(k, Header(n))] + [Line(k + 2, "INT: " + NatToString(Unsigned(n.ival)))]
  {
    var ps := Parts(n);
    var d := k + 2;
    assert ps[0..] == ps;
    Assoc(pre, [Line(k, Header(n))], PartLines(n, ps, d));
    assert PartLines(n, ps[0..], d) == [Line(d, "INT: " + NatToString(Unsigned(n.ival)))] + PartLines(n, ps[1..], d);
    Assoc(pre + [Line(k, Header(n))], [Line(d, "INT: " + NatToString(Unsigned(n.ival)))], PartLines(n, ps[1..], d));
    AppendNil(pre + [Line(k, Header(n))] + [Line(d, "INT: " + NatToString(Unsigned(n.ival)))], PartLines(n, ps[1..], d));
  }

  lemma ExpFloatLines(n: Node, k: nat, pre: seq<string>)
    requires n.ExpFloat?
    ensures pre + Lines(n, k) == pre + [Line(k, Header(n))] + [Line(k + 2, "FLOAT: " + n.fval)]
  {
    var ps := Parts(n);
    var d := k + 2;
    assert ps[0..] == ps;
    Assoc(pre, [Line(k, Header(n))], PartLines(n, ps, d));
    assert PartLines(n, ps[0..], d) == [Line(d, "FLOAT: " + n.fval)] + PartLines(n, ps[1..], d);
    Assoc(pre + [Line(k, Header(n))], [Line(d, "FLOAT: " + n.fval)], PartLines(n, ps[1..], d));
    AppendNil(pre + [Line(k, Header(n))] + [Line(d, "FLOAT: " + n.fval)], PartLines(n, ps[1..], d));
  }

  lemma ArgsLines(n: Node, k: nat, pre: seq<string>)
    requires n.Args?
    ensures n.rest != Nil ==> pre + Lines(n, k) == pre + [Line(k, Header(n))] + Lines(n.exp, k + 2) + [Line(k + 2, "COMMA")] + Lines(n.rest, k + 2)
    ensures n.rest == Nil ==> pre + Lines(n, k) == pre + [Line(k, Header(n))] + Lines(n.exp, k + 2)
  {
    var ps := Parts(n);
    var d := k + 2;
    assert ps[0..] == ps;
    Assoc(pre, [Line(k, Header(n))], PartLines(n, ps, d));
    assert PartLines(n, ps[0..], d) == Lines(n.exp, d) + PartLines(n, ps[1..], d);
    Assoc(pre + [Line(k, Header(n))], Lines(n.exp, d), PartLines(n, ps[1..], d));
    if n.rest != Nil {
      assert PartLines(n, ps[1..], d) == [Line(d, "COMMA")] + PartLines(n, ps[2..], d);
      Assoc(pre + [Line(k, Header(n))] + Lines(n.exp, d), [Line(d, "COMMA")], PartLines(n, ps[2..], d));
      assert PartLines(n, ps[2..], d) == Lines(n.rest, d) + PartLines(n, ps[3..], d);
      Assoc(pre + [Line(k, Header(n))] + Lines(n.exp, d) + [Line(d, "COMMA")], Lines(n.rest, d), PartLines(n, ps[3..], d));
      AppendNil(pre + [Line(k, Header(n))] + Lines(n.exp, d) + [Line(d, "COMMA")] + Lines(n.rest, d), PartLines(n, ps[3..], d));
    } else {
      AppendNil(pre + [Line(k, Header(n))] + Lines(n.exp, d), PartLines(n, ps[1..], d));
    }
  }

  /* ------------------------------------------------------------------ */
  /* The printer                                                         */
  /* ------------------------------------------------------------------ */

  class Printer {
    /** The indentation, in spaces. */
    var index: nat
    /** The lines written so far. */
    var out: seq<string>

    constructor ()
      ensures index == 0 && out == []
    {
      index := 0;
      out := [];
    }

    /** `PRINT_INDEX` then the word and a line break. */
    method PutLine(w: string)
      modifies this
      ensures index == old(index) && out == old(out) + [Line(index, w)]
    {
      var line := "";
      for i := 0 to index
        invariant line == Spaces(i)
      {
        line := line + " ";
      }
      out := out + [line + w];
    }

    /** `ast_visit`: nothing for a null child, otherwise the handler of the node's kind. */
    method Visit(n: Node)
      modifies this
      decreases n, 1
      ensures index == old(index) && out == old(out) + Lines(n, old(index))
    {
      match n
      case Nil =>
      case Program(_, _) => PrintProgram(n);
      case ExtDefList(_, _, _) => PrintExtDefList(n);
      case ExtDefVar(_, _, _) => PrintExtDefVar(n);
      case ExtDefNone(_, _) => PrintExtDefNone(n);
      case ExtDefFun(_, _, _, _) => PrintExtDefFun(n);
      case ExtDecList(_, _, _) => PrintExtDecList(n);
      case SpecType(_, _) => PrintSpecType(n);
      case SpecStruct(_, _) => PrintSpecStruct(n);
      case StructDef(_, _, _) => PrintStructDef(n);
      case StructTag(_, _) => PrintStructTag(n);
      case OptTag(_, _) => PrintOptTag(n);
      case Tag(_, _) => PrintTag(n);
      case VarDecId(_, _, _) => PrintVarDecId(n);
      case VarDecArray(_, _, _) => PrintVarDecArray(n);
      case FunDec(_, _, _) => PrintFunDec(n);
      case VarList(_, _, _) => PrintVarList(n);
      case ParamDec(_, _, _) => PrintParamDec(n);
      case CompSt(_, _, _) => PrintCompSt(n);
      case StmtList(_, _, _) => PrintStmtList(n);
      case StmtExp(_, _) => PrintStmtExp(n);
      case StmtComp(_, _) => PrintStmtComp(n);
      case StmtRet(_, _) => PrintStmtRet(n);
      case StmtIf(_, _, _) => PrintStmtIf(n);
      case StmtIfElse(_, _, _, _) => PrintStmtIfElse(n);
      case StmtWhile(_, _, _) => PrintStmtWhile(n);
      case DefList(_, _, _) => PrintDefList(n);
      case Def(_, _, _) => PrintDef(n);
      case DecList(_, _, _) => PrintDecList(n);
      case Dec(_, _, _) => PrintDec(n);
      case Exp2(_, _, _, _, _) => PrintExp2(n);
      case ExpPara(_, _) => PrintExpPara(n);
      case Exp1(_, _, _) => PrintExp1(n);
      case ExpCall(_, _, _) => PrintExpCall(n);
      case ExpArray(_, _, _) => PrintExpArray(n);
      case ExpDot(_, _, _) => PrintExpDot(n);
      case ExpId(_, _, _) => PrintExpId(n);
      case ExpInt(_, _) => PrintExpInt(n);
      case ExpFloat(_, _) => PrintExpFloat(n);
      case Args(_, _, _) => PrintArgs(n);
    }

    method PrintProgram(n: Node)
      requires n.Program?
      modifies this
      decreases n, 0
      ensures index == old(index) && out == old(out) + Lines(n, old(index))
    {
      ProgramLines(n, index, out);
      PutLine(Header(n));
      index := index + 2;
      Visit(n.extDefs);
      index := index - 2;
    }

    method PrintExtDefList(n: Node)
      requires n.ExtDefList?
      modifies this
      decreases n, 0
      ensures index == old(index) && out == old(out) + Lines(n, old(index))
    {
      ExtDefListLines(n, index, out);
      PutLine(Header(n));
      index := index + 2;
      Visit(n.extDef);
      Visit(n.rest);
      index := index - 2;
    }

    method PrintExtDefVar(n: Node)
      requires n.ExtDefVar?
      modifies this
      decreases n, 0
      ensures index == old(index) && out == old(out) + Lines(n, old(index))
    {
      ExtDefVarLines(n, index, out);
      PutLine(Header(n));
      index := index + 2;
      Visit(n.spec);
      Visit(n.decs);
      PutLine("SEMI");
      index := index - 2;
    }

    method PrintExtDefNone(n: Node)
      requires n.ExtDefNone?
      modifies this
      decreases n, 0
      ensures index == old(index) && out == old(out) + Lines(n, old(index))
    {
      ExtDefNoneLines(n, index, out);
      PutLine(Header(n));
      index := index + 2;
      Visit(n.spec);
      PutLine("SEMI");
      index := index - 2;
    }

    method PrintExtDefFun(n: Node)
      requires n.ExtDefFun?
      modifies this
      decreases n, 0
      ensures index == old(index) && out == old(out) + Lines(n, old(index))
    {
      ExtDefFunLines(n, index, out);
      PutLine(Header(n));
      index := index + 2;
      Visit(n.spec);
      Visit(n.funDec);
      Visit(n.body);
      index := index - 2;
    }

    method PrintExtDecList(n: Node)
      requires n.ExtDecList?
      modifies this
      decreases n, 0
      ensures index == old(index) && out == old(out) + Lines(n, old(index))
    {
      ExtDecListLines(n, index, out);
      PutLine(Header(n));
      index := index + 2;
      Visit(n.varDec);
      if n.rest != Nil {
        PutLine("COMMA");
        Visit(n.rest);
      }
      index := index - 2;
    }

    method PrintSpecType(n: Node)
      requires n.SpecType?
      modifies this
      decreases n, 0
      ensures index == old(index) && out == old(out) + Lines(n, old(index))
    {
      SpecTypeLines(n, index, out);
      PutLine(Header(n));
      index := index + 2;
      PutLine("TYPE: " + TypeNames[TypeIndex(n.ty)]);
      index := index - 2;
    }

    method PrintSpecStruct(n: Node)
      requires n.SpecStruct?
      modifies this
      decreases n, 0
      ensures index == old(index) && out == old(out) + Lines(n, old(index))
    {
      SpecStructLines(n, index, out);
      PutLine(Header(n));
      index := index + 2;
      Visit(n.structSpec);
      index := index - 2;
    }

    method PrintStructDef(n: Node)
      requires n.StructDef?
      modifies this
      decreases n, 0
      ensures index == old(index) && out == old(out) + Lines(n, old(index))
    {
      StructDefLines(n, index, out);
      PutLine(Header(n));
      index := index + 2;
      PutLine("STRUCT");
      Visit(n.optTag);
      PutLine("LC");
      Visit(n.defs);
      PutLine("RC");
      index := index - 2;
    }

    method PrintStructTag(n: Node)
      requires n.StructTag?
      modifies this
      decreases n, 0
      ensures index == old(index) && out == old(out) + Lines(n, old(index))
    {
      StructTagLines(n, index, out);
      PutLine(Header(n));
      index := index + 2;
      PutLine("STRUCT");
      Visit(n.tag);
      index := index - 2;
    }

    method PrintOptTag(n: Node)
      requires n.OptTag?
      modifies this
      decreases n, 0
      ensures index == old(index) && out == old(out) + Lines(n, old(index))
    {
      OptTagLines(n, index, out);
      PutLine(Header(n));
      index := index + 2;
      PutLine("ID: " + n.id);
      index := index - 2;
    }

    method PrintTag(n: Node)
      requires n.Tag?
      modifies this
      decreases n, 0
      ensures index == old(index) && out == old(out) + Lines(n, old(index))
    {
      TagLines(n, index, out);
      PutLine(Header(n));
      index := index + 2;
      PutLine("ID: " + n.id);
      index := index - 2;
    }

    method PrintVarDecId(n: Node)
      requires n.VarDecId?
      modifies this
      decreases n, 0
      ensures index == old(index) && out == old(out) + Lines(n, old(index))
    {
      VarDecIdLines(n, index, out);
      PutLine(Header(n));
      index := index + 2;
      PutLine("ID: " + n.id);
      index := index - 2;
    }

    method PrintVarDecArray(n: Node)
      requires n.VarDecArray?
      modifies this
      decreases n, 0
      ensures index == old(index) && out == old(out) + Lines(n, old(index))
    {
      VarDecArrayLines(n, index, out);
      PutLine(Header(n));
      index := index + 2;
      Visit(n.varDec);
      PutLine("LB");
      PutLine("INT: " + IntToString(n.ival));
      PutLine("RB");
      index := index - 2;
    }

    method PrintFunDec(n: Node)
      requires n.FunDec?
      modifies this
      decreases n, 0
      ensures index == old(index) && out == old(out) + Lines(n, old(index))
    {
      FunDecLines(n, index, out);
      PutLine(Header(n));
      index := index + 2;
      PutLine("ID: " + n.id);
      PutLine("LP");
      Visit(n.params);
      PutLine("RP");
      index := index - 2;
    }

    method PrintVarList(n: Node)
      requires n.VarList?
      modifies this
      decreases n, 0
      ensures index == old(index) && out == old(out) + Lines(n, old(index))
    {
      VarListLines(n, index, out);
      PutLine(Header(n));
      index := index + 2;
      Visit(n.paramDec);
      if n.rest != Nil {
        PutLine("COMMA");
        Visit(n.rest);
      }
      index := index - 2;
    }

    method PrintParamDec(n: Node)
      requires n.ParamDec?
      modifies this
      decreases n, 0
      ensures index == old(index) && out == old(out) + Lines(n, old(index))
    {
      ParamDecLines(n, index, out);
      PutLine(Header(n));
      index := index + 2;
      Visit(n.spec);
      Visit(n.varDec);
      index := index - 2;
    }

    method PrintCompSt(n: Node)
      requires n.CompSt?
      modifies this
      decreases n, 0
      ensures index == old(index) && out == old(out) + Lines(n, old(index))
    {
      CompStLines(n, index, out);
      PutLine(Header(n));
      index := index + 2;
      PutLine("LC");
      Visit(n.defs);
      Visit(n.stmts);
      PutLine("RC");
      index := index - 2;
    }

    method PrintStmtList(n: Node)
      requires n.StmtList?
      modifies this
      decreases n, 0
      ensures index == old(index) && out == old(out) + Lines(n, old(index))
    {
      StmtListLines(n, index, out);
      PutLine(Header(n));
      index := index + 2;
      Visit(n.stmt);
      Visit(n.rest);
      index := index - 2;
    }

    method PrintStmtExp(n: Node)
      requires n.StmtExp?
      modifies this
      decreases n, 0
      ensures index == old(index) && out == old(out) + Lines(n, old(index))
    {
      StmtExpLines(n, index, out);
      PutLine(Header(n));
      index := index + 2;
      Visit(n.exp);
      PutLine("SEMI");
      index := index - 2;
    }

    method PrintStmtComp(n: Node)
      requires n.StmtComp?
      modifies this
      decreases n, 0
      ensures index == old(index) && out == old(out) + Lines(n, old(index))
    {
      StmtCompLines(n, index, out);
      PutLine(Header(n));
      index := index + 2;
      Visit(n.compSt);
      index := index - 2;
    }

    method PrintStmtRet(n: Node)
      requires n.StmtRet?
      modifies this
      decreases n, 0
      ensures index == old(index) && out == old(out) + Lines(n, old(index))
    {
      StmtRetLines(n, index, out);
      PutLine(Header(n));
      index := index + 2;
      PutLine("RETURN");
      Visit(n.exp);
      PutLine("SEMI");
      index := index - 2;
    }

    method PrintStmtIf(n: Node)
      requires n.StmtIf?
      modifies this
      decreases n, 0
      ensures index == old(index) && out == old(out) + Lines(n, old(index))
    {
      StmtIfLines(n, index, out);
      PutLine(Header(n));
      index := index + 2;
      PutLine("IF");
      PutLine("LP");
      Visit(n.exp);
      PutLine("RP");
      Visit(n.stmt);
      index := index - 2;
    }

    method PrintStmtIfElse(n: Node)
      requires n.StmtIfElse?
      modifies this
      decreases n, 0
      ensures index == old(index) && out == old(out) + Lines(n, old(index))
    {
      StmtIfElseLines(n, index, out);
      PutLine(Header(n));
      index := index + 2;
      PutLine("IF");
      PutLine("LP");
      Visit(n.exp);
      PutLine("RP");
      Visit(n.ifSt);
      PutLine("ELSE");
      Visit(n.elseSt);
      index := index - 2;
    }

    method PrintStmtWhile(n: Node)
      requires n.StmtWhile?
      modifies this
      decreases n, 0
      ensures index == old(index) && out == old(out) + Lines(n, old(index))
    {
      StmtWhileLines(n, index, out);
      PutLine(Header(n));
      index := index + 2;
      PutLine("WHILE");
      PutLine("LP");
      Visit(n.exp);
      PutLine("RP");
      Visit(n.stmt);
      index := index - 2;
    }

    method PrintDefList(n: Node)
      requires n.DefList?
      modifies this
      decreases n, 0
      ensures index == old(index) && out == old(out) + Lines(n, old(index))
    {
      DefListLines(n, index, out);
      PutLine(Header(n));
      index := index + 2;
      Visit(n.def);
      Visit(n.rest);
      index := index - 2;
    }

    method PrintDef(n: Node)
      requires n.Def?
      modifies this
      decreases n, 0
      ensures index == old(index) && out == old(out) + Lines(n, old(index))
    {
      DefLines(n, index, out);
      PutLine(Header(n));
      index := index + 2;
      Visit(n.spec);
      Visit(n.decs);
      PutLine("SEMI");
      index := index - 2;
    }

    method PrintDecList(n: Node)
      requires n.DecList?
      modifies this
      decreases n, 0
      ensures index == old(index) && out == old(out) + Lines(n, old(index))
    {
      DecListLines(n, index, out);
      PutLine(Header(n));
      index := index + 2;
      Visit(n.dec);
      if n.rest != Nil {
        PutLine("COMMA");
        Visit(n.rest);
      }
      index := index - 2;
    }

    method PrintDec(n: Node)
      requires n.Dec?
      modifies this
      decreases n, 0
      ensures index == old(index) && out == old(out) + Lines(n, old(index))
    {
      DecLines(n, index, out);
      PutLine(Header(n));
      index := index + 2;
      Visit(n.varDec);
      if n.init != Nil {
        PutLine("ASSIGNOP");
        Visit(n.init);
      }
      index := index - 2;
    }

    method PrintExp2(n: Node)
      requires n.Exp2?
      modifies this
      decreases n, 0
      ensures index == old(index) && out == old(out) + Lines(n, old(index))
    {
      Exp2Lines(n, index, out);
      PutLine(Header(n));
      index := index + 2;
      Visit(n.lexp);
      PutLine(Op2Names[Op2Index(n.op)]);
      Visit(n.rexp);
      index := index - 2;
    }

    method PrintExpPara(n: Node)
      requires n.ExpPara?
      modifies this
      decreases n, 0
      ensures index == old(index) && out == old(out) + Lines(n, old(index))
    {
      ExpParaLines(n, index, out);
      PutLine(Header(n));
      index := index + 2;
      PutLine("LP");
      Visit(n.exp);
      PutLine("RP");
      index := index - 2;
    }

    method PrintExp1(n: Node)
      requires n.Exp1?
      modifies this
      decreases n, 0
      ensures index == old(index) && out == old(out) + Lines(n, old(index))
    {
      Exp1Lines(n, index, out);
      PutLine(Header(n));
      index := index + 2;
      PutLine(Op1Names[Op1Index(n.op1)]);
      Visit(n.exp);
      index := index - 2;
    }

    method PrintExpCall(n: Node)
      requires n.ExpCall?
      modifies this
      decreases n, 0
      ensures index == old(index) && out == old(out) + Lines(n, old(index))
    {
      ExpCallLines(n, index, out);
      PutLine(Header(n));
      index := index + 2;
      PutLine("ID: " + n.id);
      PutLine("LP");
      Visit(n.args);
      PutLine("RP");
      index := index - 2;
    }

    method PrintExpArray(n: Node)
      requires n.ExpArray?
      modifies this
      decreases n, 0
      ensures index == old(index) && out == old(out) + Lines(n, old(index))
    {
      ExpArrayLines(n, index, out);
      PutLine(Header(n));
      index := index + 2;
      Visit(n.arr);
      PutLine("LB");
      Visit(n.idx);
      PutLine("RB");
      index := index - 2;
    }

    method PrintExpDot(n: Node)
      requires n.ExpDot?
      modifies this
      decreases n, 0
      ensures index == old(index) && out == old(out) + Lines(n, old(index))
    {
      ExpDotLines(n, index, out);
      PutLine(Header(n));
      index := index + 2;
      Visit(n.exp);
      PutLine("DOT");
      PutLine("ID: " + n.id);
      index := index - 2;
    }

    method PrintExpId(n: Node)
      requires n.ExpId?
      modifies this
      decreases n, 0
      ensures index == old(index) && out == old(out) + Lines(n, old(index))
    {
      ExpIdLines(n, index, out);
      PutLine(Header(n));
      index := index + 2;
      PutLine("ID: " + n.id);
      index := index - 2;
    }

    method PrintExpInt(n: Node)
      requires n.ExpInt?
      modifies this
      decreases n, 0
      ensures index == old(index) && out == old(out) + Lines(n, old(index))
    {
      ExpIntLines(n, index, out);
      PutLine(Header(n));
      index := index + 2;
      PutLine("INT: " + NatToString(Unsigned(n.ival)));
      index := index - 2;
    }

    method PrintExpFloat(n: Node)
      requires n.ExpFloat?
      modifies this
      decreases n, 0
      ensures index == old(index) && out == old(out) + Lines(n, old(index))
    {
      ExpFloatLines(n, index, out);
      PutLine(Header(n));
      index := index + 2;
      PutLine("FLOAT: " + n.fval);
      index := index - 2;
    }

    method PrintArgs(n: Node)
      requires n.Args?
      modifies this
      decreases n, 0
      ensures index == old(index) && out == old(out) + Lines(n, old(index))
    {
      ArgsLines(n, index, out);
      PutLine(Header(n));
      index := index + 2;
      Visit(n.exp);
      if n.rest != Nil {
        PutLine("COMMA");
        Visit(n.rest);
      }
      index := index - 2;
    }
  }

  /* ------------------------------------------------------------------ */
  /* The shape of the output                                             */
  /* ------------------------------------------------------------------ */

  /** Every line is at least d deep and carries a word. */
  predicate Under(ls: seq<string>, d: nat)
  {
    forall i | 0 <= i < |ls| :: Depth(ls[i]) >= d && WordOk(Body(ls[i]))
  }

  lemma UnderAppend(a: seq<string>, b: seq<string>, d: nat)
    requires Under(a, d) && Under(b, d)
    ensures Under(a + b, d)
  {
  }

  lemma HeaderOk(n: Node)
    requires n != Nil
    ensures WordOk(Header(n)) && '(' in Header(n)
  {
    assert Header(n)[|Name(n)| + 1] == '(';
  }

  /**
   * A visit at indentation k prints the node's heading at depth k and everything
   * else at least two spaces deeper; every line is its indentation and a word.
   */
  lemma {:induction false} Nested(n: Node, k: nat)
    ensures Under(Lines(n, k), k)
    ensures n != Nil ==> |Lines(n, k)| > 0 && Lines(n, k)[0] == Line(k, Header(n)) && Under(Lines(n, k)[1..], k + 2)
    decreases n, 1
  {
    if n != Nil {
      HeaderOk(n);
      LineDecodes(k, Header(n));
      PartsNested(n, Parts(n), k + 2);
      assert Lines(n, k)[1..] == PartLines(n, Parts(n), k + 2);
    }
  }

  lemma {:induction false} PartsNested(n: Node, ps: seq<Part>, d: nat)
    requires PartsOk(n, ps)
    ensures Under(PartLines(n, ps, d), d)
    decreases n, 0, |ps|
  {
    if ps != [] {
      PartsNested(n, ps[1..], d);
      match ps[0]
      case Sub(c) =>
        Nested(c, d);
        UnderAppend(Lines(c, d), PartLines(n, ps[1..], d), d);
      case Put(w) =>
        LineDecodes(d, w);
        UnderAppend([Line(d, w)], PartLines(n, ps[1..], d), d);
    }
  }

  /** The words of the lines at depth exactly d, in order. */
  function AtDepth(ls: seq<string>, d: nat): seq<string>
  {
    if ls == [] then []
    else (if Depth(ls[0]) == d then [Body(ls[0])] else []) + AtDepth(ls[1..], d)
  }

  lemma {:induction false} AtDepthAppend(a: seq<string>, b: seq<string>, d: nat)
    ensures AtDepth(a + b, d) == AtDepth(a, d) + AtDepth(b, d)
  {
    if a != [] {
      assert (a + b)[1..] == a[1..] + b;
      AtDepthAppend(a[1..], b, d);
    } else {
      assert a + b == b;
    }
  }

  lemma {:induction false} AtDepthNone(ls: seq<string>, d: nat, e: nat)
    requires Under(ls, e) && d < e
    ensures AtDepth(ls, d) == []
  {
    if ls != [] {
      AtDepthNone(ls[1..], d, e);
    }
  }

  /** What a handler's steps show directly under it: each child's heading and each word. */
  function Outline(ps: seq<Part>): seq<string>
  {
    if ps == [] then []
    else
      (match ps[0]
       case Sub(c) => if c == Nil then [] else [Header(c)]
       case Put(w) => [w]) + Outline(ps[1..])
  }

  /** What a visit at depth d shows at depth d: the node's heading, if it has one. */
  lemma VisitLevel(c: Node, d: nat)
    ensures AtDepth(Lines(c, d), d) == (if c == Nil then [] else [Header(c)])
  {
    Nested(c, d);
    if c != Nil {
      var ls := Lines(c, d);
      HeaderOk(c);
      LineDecodes(d, Header(c));
      assert ls == [ls[0]] + ls[1..];
      AtDepthAppend([ls[0]], ls[1..], d);
      AtDepthNone(ls[1..], d, d + 2);
    }
  }

  lemma {:induction false} PartsLevel(n: Node, ps: seq<Part>, d: nat)
    requires PartsOk(n, ps)
    ensures AtDepth(PartLines(n, ps, d), d) == Outline(ps)
    decreases |ps|
  {
    if ps != [] {
      PartsLevel(n, ps[1..], d);
      match ps[0]
      case Sub(c) =>
        VisitLevel(c, d);
        AtDepthAppend(Lines(c, d), PartLines(n, ps[1..], d), d);
      case Put(w) =>
        LineDecodes(d, w);
        AtDepthAppend([Line(d, w)], PartLines(n, ps[1..], d), d);
    }
  }

  /**
   * Under a node's heading, one step deeper, the printer shows exactly the node's
   * steps in order: the heading of each child that is present, and each word.
   */
  lemma Level(n: Node, k: nat)
    requires n != Nil
    ensures AtDepth(Lines(n, k), k) == [Header(n)]
    ensures AtDepth(Lines(n, k), k + 2) == Outline(Parts(n))
  {
    var rest := PartLines(n, Parts(n), k + 2);
    HeaderOk(n);
    LineDecodes(k, Header(n));
    AtDepthAppend([Line(k, Header(n))], rest, k);
    AtDepthAppend([Line(k, Header(n))], rest, k + 2);
    PartsNested(n, Parts(n), k + 2);
    AtDepthNone(rest, k, k + 2);
    PartsLevel(n, Parts(n), k + 2);
  }

  lemma {:induction false} OutlineAppend(a: seq<Part>, b: seq<Part>)
    ensures Outline(a + b) == Outline(a) + Outline(b)
  {
    if a != [] {
      assert (a + b)[1..] == a[1..] + b;
      OutlineAppend(a[1..], b);
    } else {
      assert a + b == b;
    }
  }

  /**
   * The shape shared by the lists and by a declaration: a first child, then, only when
   * the tail is present, a word and the tail. The word shows under the node exactly
   * when the tail is present.
   */
  lemma WordIffTail(n: Node, k: nat, first: Node, w: string, tail: Node)
    requires n != Nil && '(' !in w
    requires Parts(n) == [Sub(first)] + (if tail != Nil then [Put(w), Sub(tail)] else [])
    ensures w in AtDepth(Lines(n, k), k + 2) <==> tail != Nil
  {
    Level(n, k);
    if tail != Nil {
      WordShown(first, w, tail);
    } else {
      assert Parts(n) == [Sub(first)];
      WordAbsent(first, w);
    }
  }

  lemma WordShown(first: Node, w: string, tail: Node)
    requires tail != Nil
    ensures w in Outline([Sub(first)] + [Put(w), Sub(tail)])
  {
    OutlineAppend([Sub(first)], [Put(w), Sub(tail)]);
    var o := Outline([Sub(first)]);
    assert Outline([Put(w), Sub(tail)])[0] == w;
    assert (o + Outline([Put(w), Sub(tail)]))[|o|] == w;
  }

  lemma WordAbsent(first: Node, w: string)
    requires '(' !in w
    ensures w !in Outline([Sub(first)])
  {
    if first != Nil {
      HeaderOk(first);
      assert Outline([Sub(first)]) == [Header(first)];
    } else {
      assert Outline([Sub(first)]) == [];
    }
  }

  /** A list node prints COMMA under it exactly when the list goes on. */
  lemma CommaIffTail(n: Node, k: nat)
    requires n.ExtDecList? || n.VarList? || n.DecList? || n.Args?
    ensures "COMMA" in AtDepth(Lines(n, k), k + 2) <==> n.rest != Nil
  {
    if n.ExtDecList? {
      WordIffTail(n, k, n.varDec, "COMMA", n.rest);
    } else if n.VarList? {
      WordIffTail(n, k, n.paramDec, "COMMA", n.rest);
    } else if n.DecList? {
      WordIffTail(n, k, n.dec, "COMMA", n.rest);
    } else {
      WordIffTail(n, k, n.exp, "COMMA", n.rest);
    }
  }

  /** A declaration prints ASSIGNOP under it exactly when it has an initialiser. */
  lemma AssignIffInit(n: Node, k: nat)
    requires n.Dec?
    ensures "ASSIGNOP" in AtDepth(Lines(n, k), k + 2) <==> n.init != Nil
  {
    WordIffTail(n, k, n.varDec, "ASSIGNOP", n.init);
  }

  /** `ast_print`: the printer starts at indentation 0 and visits the root. */
  method AstPrint(root: Node) returns (lines: seq<string>)
    ensures lines == Lines(root, 0)
  {
    var p := new Printer();
    p.Visit(root);
    lines := p.out;
  }
}
