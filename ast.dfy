/**
 * The syntax tree the parser builds (ast.h): one constructor per node kind, each with
 * the line it starts on. A child the grammar leaves out (an empty list tail, a missing
 * initialiser, a function without parameters) is `Nil`, the null pointer the visitors skip.
 * A declared or used identifier also carries `sym`, the variable the semantic analysis
 * attached to it (`scratch`), as a position in the table of variables.
 */
module Ast {
  import opened IrTypes

  /** The two basic types a `TYPE` token names. */
  datatype BaseType = IntType | FloatType

  /** The binary operators, in the order of their enumeration. */
  datatype Op2 = AssignOp | AndOp | OrOp | RelOp | PlusOp | MinusOp | StarOp | DivOp

  /** The unary operators, in the order of their enumeration. */
  datatype Op1 = NegOp | NotOp

  datatype Node =
    | Nil
    | Program(line: int, extDefs: Node)
    | ExtDefList(line: int, extDef: Node, rest: Node)
    | ExtDefVar(line: int, spec: Node, decs: Node)
    | ExtDefNone(line: int, spec: Node)
    | ExtDefFun(line: int, spec: Node, funDec: Node, body: Node)
    | ExtDecList(line: int, varDec: Node, rest: Node)
    | SpecType(line: int, ty: BaseType)
    | SpecStruct(line: int, structSpec: Node)
    | StructDef(line: int, optTag: Node, defs: Node)
    | StructTag(line: int, tag: Node)
    | OptTag(line: int, id: string)
    | Tag(line: int, id: string)
    | VarDecId(line: int, id: string, sym: nat)
    | VarDecArray(line: int, varDec: Node, ival: int)
    | FunDec(line: int, id: string, params: Node)
    | VarList(line: int, paramDec: Node, rest: Node)
    | ParamDec(line: int, spec: Node, varDec: Node)
    | CompSt(line: int, defs: Node, stmts: Node)
    | StmtList(line: int, stmt: Node, rest: Node)
    | StmtExp(line: int, exp: Node)
    | StmtComp(line: int, compSt: Node)
    | StmtRet(line: int, exp: Node)
    | StmtIf(line: int, exp: Node, stmt: Node)
    | StmtIfElse(line: int, exp: Node, ifSt: Node, elseSt: Node)
    | StmtWhile(line: int, exp: Node, stmt: Node)
    | DefList(line: int, def: Node, rest: Node)
    | Def(line: int, spec: Node, decs: Node)
    | DecList(line: int, dec: Node, rest: Node)
    | Dec(line: int, varDec: Node, init: Node)
    | Exp2(line: int, lexp: Node, rexp: Node, op: Op2, relop: Relop)
    | ExpPara(line: int, exp: Node)
    | Exp1(line: int, exp: Node, op1: Op1)
    | ExpCall(line: int, id: string, args: Node)
    | ExpArray(line: int, arr: Node, idx: Node)
    | ExpDot(line: int, exp: Node, id: string)
    | ExpId(line: int, id: string, sym: nat)
    | ExpInt(line: int, ival: int)
    | ExpFloat(line: int, fval: string)
    | Args(line: int, exp: Node, rest: Node)
}
