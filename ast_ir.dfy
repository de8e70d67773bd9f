/**
 * Lowering of the syntax tree to three-address code (ast_ir.c). A visitor walks the
 * tree; an expression is lowered either for its value (it returns an operand) or as a
 * condition (it jumps to a true or a false label and returns nothing). Every
 * instruction goes through `add_ir` into the graph of the function being lowered, and
 * the variable and label counters are shared with the rest of the program.
 *
 * The specification is a set of functions on a value `St` that mirrors the program
 * being built; the class `Lowerer` below does the same work step by step in its own
 * fields (the finished graphs kept as `Code` values, not as an `IrProgram.Program`) and
 * is proved to end in the state the functions describe.
 */
module AstIr {
  import opened Base
  import opened IrTypes
  import opened Ast
  import Sem = Semantics
  import IrProgram

  /* ------------------------------------------------------------------ */
  /* What the lowering reads and builds                                  */
  /* ------------------------------------------------------------------ */

  /** A field of a struct, where the semantic analysis laid it out. */
  datatype Field = Field(name: string, offset: int, ty: Sem.Type)

  /** What the lowering reads from the semantic analysis: the type of each annotated
      variable (indexed by `sym`), and the fields of each struct definition, most
      recently added first. */
  datatype Ctx = Ctx(syms: seq<Sem.Type>, fields: map<Sem.StructDef, seq<Field>>)

  /** An operand with the type the lowering gives it; an immediate carries none. */
  datatype TOpr = TVar(id: nat, ty: Sem.Type) | TImm(val: int)

  /** The operand an instruction holds. */
  function Plain(o: TOpr): (r: Opr)
    ensures r.Var? <==> o.TVar?
    ensures o.TVar? ==> r.id == o.id
    ensures o.TImm? ==> r.val == o.val
  {
    match o
    case TVar(v, _) => Var(v)
    case TImm(k) => Imm(k)
  }

  /** The code of one graph and its bookkeeping: the fields of `IrProgram.Cfg` that
      `add_ir` changes. */
  datatype Code = Code(irs: seq<Instr>, labels: map<nat, IrProgram.LabelRec>, nextJid: nat, exprMap: map<Expr, nat>)

  /**
   * The state while a function body is lowered: the code of its graph, the two
   * counters, the id given to each annotated variable (`var->id`, -1 until its
   * declaration is lowered), and whether every assertion of the lowering held so far.
   */
  datatype St = St(cur: Code, varNum: nat, labelNum: nat, ids: seq<int>, ok: bool)

  /** An operand together with the state after computing it. */
  datatype Out = Out(opr: TOpr, st: St)

  /** The same state, after an assertion of the lowering failed. */
  function Fail(st: St): (r: St)
    ensures !r.ok && r.cur == st.cur && r.varNum == st.varNum && r.labelNum == st.labelNum && r.ids == st.ids
  {
    st.(ok := false)
  }

  /**
   * What lowering any part of the tree does to the state: code is only appended,
   * labels are only added, the counters never go back, and the table of ids keeps its
   * length.
   */
  predicate Grows(a: St, b: St)
  {
    && |a.ids| == |b.ids| && a.varNum <= b.varNum && a.labelNum <= b.labelNum
    && a.cur.nextJid <= b.cur.nextJid && a.cur.irs <= b.cur.irs
    && a.cur.labels.Keys <= b.cur.labels.Keys
  }

  /* ------------------------------------------------------------------ */
  /* The program operations the lowering uses                            */
  /* ------------------------------------------------------------------ */

  /**
   * `add_ir`: an arithmetic is split into its temporary (the one already holding an
   * equal expression, or a fresh one) and a move; a jump gets the next identity and is
   * recorded on its label; anything else is appended as it is.
   */
  function Emit(st: St, x: Instr): (r: St)
    requires x.IsJump() ==> x.target in st.cur.labels
    ensures Grows(st, r)
    ensures x.Label? ==> r == st.(cur := st.cur.(irs := st.cur.irs + [x]))
    ensures r.ok == st.ok
  {
    if x.Arth? then
      var e := Canon(Expr(x.opr1, x.opr2, x.op));
      var hit := e in st.cur.exprMap;
      var t := if hit then st.cur.exprMap[e] else st.varNum;
      st.(cur := st.cur.(irs := st.cur.irs + [Arth(t, x.opr1, x.opr2, x.op), Mov(x.lhs, Var(t))],
                         exprMap := st.cur.exprMap[e := t]),
          varNum := if hit then st.varNum else st.varNum + 1)
    else if x.IsJump() then
      st.(cur := st.cur.(irs := st.cur.irs + [x.(jid := st.cur.nextJid)],
                         labels := IrProgram.Register(st.cur.labels, x.target, st.cur.nextJid),
                         nextJid := st.cur.nextJid + 1))
    else st.(cur := st.cur.(irs := st.cur.irs + [x]))
  }

  /** `gen_temp_var`: the next variable id. */
  function NewVar(st: St): (r: (nat, St))
    ensures r.0 == st.varNum && Grows(st, r.1) && r.1 == st.(varNum := st.varNum + 1)
  {
    (st.varNum, st.(varNum := st.varNum + 1))
  }

  /** `gen_label`: the next label number, known to the graph with no references. */
  function NewLabel(st: St): (r: (nat, St))
    ensures r.0 == st.labelNum && r.0 in r.1.cur.labels && r.1.labelNum == st.labelNum + 1
    ensures Grows(st, r.1) && r.1.cur.irs == st.cur.irs && r.1.ok == st.ok && r.1.ids == st.ids
  {
    (st.labelNum, st.(labelNum := st.labelNum + 1,
                      cur := st.cur.(labels := st.cur.labels[st.labelNum := IrProgram.LabelRec(0, [])])))
  }

  /* ------------------------------------------------------------------ */
  /* Types the lowering inspects                                         */
  /* ------------------------------------------------------------------ */

  /** A reference to an `int` (what `iropr2atom` loads through). */
  predicate RefToInt(t: Sem.Type) { t.Ref? && t.ref.Int? }

  /** The binary operators lowered to an arithmetic instruction, and which one. */
  predicate IsArith(op: Op2) { op == PlusOp || op == MinusOp || op == StarOp || op == DivOp }

  function ArithOf(op: Op2): ArithOp
    requires IsArith(op)
  {
    match op
    case PlusOp => Plus
    case MinusOp => Minus
    case StarOp => Star
    case DivOp => Div
  }

  /** The expressions that are conditions by nature: `&&`, `||`, a comparison and `!`. */
  predicate IsCond(n: Node)
  {
    (n.Exp2? && (n.op == AndOp || n.op == OrOp || n.op == RelOp)) || (n.Exp1? && n.op1 == NotOp)
  }

  /** The field of that name most recently added to a struct. */
  function FindField(fs: seq<Field>, name: string): (r: Option<Field>)
    ensures r.Some? ==> r.value in fs && r.value.name == name
    ensures r.None? ==> forall i | 0 <= i < |fs| :: fs[i].name != name
  {
    if fs == [] then None
    else if fs[0].name == name then Some(fs[0])
    else FindField(fs[1..], name)
  }

  /* ------------------------------------------------------------------ */
  /* Expressions                                                         */
  /* ------------------------------------------------------------------ */

  /** `iropr2atom`: a variable holding a reference to an `int` is loaded into a fresh
      temporary; every other operand is used as it is. */
  function Atom(o: TOpr, st: St): (r: Out)
    ensures Grows(st, r.st)
  {
    if o.TVar? && RefToInt(o.ty) then
      var (a, st1) := NewVar(st);
      Out(TVar(a, o.ty.ref), Emit(st1, Load(a, o.id)))
    else Out(o, st)
  }

  /** An expression lowered for its value (the visitor with `branch == 0`). */
  function V(n: Node, ctx: Ctx, st: St): (r: Out)
    ensures Grows(st, r.st)
    decreases n, if IsCond(n) then 4 else 2
  {
    if n.Exp2? then
      if n.op == AssignOp then MovV(n, ctx, st)
      else if IsArith(n.op) then ArthV(n, ctx, st)
      else V2B(n, ctx, st)
    else if n.ExpPara? then V(n.exp, ctx, st)
    else if n.Exp1? then (if n.op1 == NegOp then MinusV(n, ctx, st) else V2B(n, ctx, st))
    else if n.ExpCall? then CallV(n, ctx, st)
    else if n.ExpArray? then ArrayV(n, ctx, st)
    else if n.ExpDot? then DotV(n, ctx, st)
    else if n.ExpId? then IdV(n, ctx, st)
    else if n.ExpInt? then Out(TImm(n.ival), st)
    else Out(TImm(0), Fail(st))
  }

  /** An expression lowered as a condition jumping to `t` when it holds and to `f`
      otherwise (the visitor with `branch == 1`). */
  function B(n: Node, t: nat, f: nat, ctx: Ctx, st: St): (r: St)
    requires t in st.cur.labels && f in st.cur.labels
    ensures Grows(st, r)
    decreases n, if IsCond(n) then 1 else 5
  {
    if n.Exp2? then
      if n.op == AndOp then AndB(n, t, f, ctx, st)
      else if n.op == OrOp then OrB(n, t, f, ctx, st)
      else if n.op == RelOp then RelopB(n, t, f, ctx, st)
      else B2V(n, t, f, ctx, st)
    else if n.ExpPara? then B(n.exp, t, f, ctx, st)
    else if n.Exp1? then (if n.op1 == NotOp then NotB(n, t, f, ctx, st) else B2V(n, t, f, ctx, st))
    else if n.ExpCall? || n.ExpArray? || n.ExpDot? || n.ExpId? || n.ExpInt? then B2V(n, t, f, ctx, st)
    else Fail(st)
  }

  /** `ast_ir_exp_v2b`: a condition used as a value sets a fresh temporary to 1 at its
      true label and to 0 at its false label. */
  function V2B(n: Node, ctx: Ctx, st: St): (r: Out)
    ensures Grows(st, r.st)
    requires IsCond(n)
    decreases n, 3
  {
    var (tl, st1) := NewLabel(st);
    var (fl, st2) := NewLabel(st1);
    var (el, st3) := NewLabel(st2);
    var (x, st4) := NewVar(st3);
    Out(TVar(x, Sem.Int), Materialize(x, tl, fl, el, B(n, tl, fl, ctx, st4)))
  }

  /** The end of `ast_ir_exp_v2b`: `x` is set to 1 at the true label and jumps to the
      end, and is set to 0 at the false label. */
  function Materialize(x: nat, tl: nat, fl: nat, el: nat, st: St): (r: St)
    requires el in st.cur.labels
    ensures Grows(st, r)
  {
    var st1 := Emit(Emit(Emit(st, Label(tl)), Mov(x, Imm(1))), Goto(el, 0));
    Emit(Emit(Emit(st1, Label(fl)), Mov(x, Imm(0))), Label(el))
  }

  /** `ast_ir_exp_b2v`: a value used as a condition jumps to `t` when it is not zero. */
  function B2V(n: Node, t: nat, f: nat, ctx: Ctx, st: St): (r: St)
    requires t in st.cur.labels && f in st.cur.labels
    ensures Grows(st, r)
    requires !IsCond(n)
    decreases n, 4
  {
    var v := V(n, ctx, st);
    var a := Atom(v.opr, v.st);
    Emit(Emit(a.st, Branch(Plain(a.opr), Imm(0), NEQ, t, 0)), Goto(f, 0))
  }

  /** `ast_ir_exp__mov_v`: an assignment stores through a reference to an `int`, copies
      a struct or array word by word, or moves into an `int` variable. */
  function MovV(n: Node, ctx: Ctx, st: St): (r: Out)
    ensures Grows(st, r.st)
    requires n.Exp2?
    decreases n, 1
  {
    var l := V(n.lexp, ctx, st);
    var v := V(n.rexp, ctx, l.st);
    var a := Atom(v.opr, v.st);
    var lhs := l.opr;
    if lhs.TVar? && lhs.ty.Ref? then
      if lhs.ty.ref.Int? then Out(lhs, Emit(a.st, Store(lhs.id, Plain(a.opr))))
      else if a.opr.TVar? then Out(lhs, CopyRef(lhs, a.opr, a.st))
      else Out(lhs, Fail(a.st))
    else if lhs.TVar? && lhs.ty.Int? then Out(lhs, Emit(a.st, Mov(lhs.id, Plain(a.opr))))
    else Out(lhs, Fail(a.st))
  }

  /** `ast_ir_exp__2oparth_v`: both operands, then their arithmetic into a fresh temporary. */
  function ArthV(n: Node, ctx: Ctx, st: St): (r: Out)
    ensures Grows(st, r.st)
    requires n.Exp2? && IsArith(n.op)
    decreases n, 1
  {
    var l := V(n.lexp, ctx, st);
    var la := Atom(l.opr, l.st);
    var r := V(n.rexp, ctx, la.st);
    var ra := Atom(r.opr, r.st);
    var (res, st1) := NewVar(ra.st);
    Out(TVar(res, Sem.Int), Emit(st1, Arth(res, Plain(la.opr), Plain(ra.opr), ArithOf(n.op))))
  }

  /** `ast_ir_exp__minus_v`: negation is `0 - e` into a fresh temporary. */
  function MinusV(n: Node, ctx: Ctx, st: St): (r: Out)
    ensures Grows(st, r.st)
    requires n.Exp1?
    decreases n, 1
  {
    var e := V(n.exp, ctx, st);
    var a := Atom(e.opr, e.st);
    var (res, st1) := NewVar(a.st);
    Out(TVar(res, Sem.Int), Emit(st1, Arth(res, Imm(0), Plain(a.opr), Minus)))
  }

  /** `ast_ir_exp__call` for a value: the arguments (last one first), then `read`,
      `write` of the first argument, or a call into a fresh temporary. */
  function CallV(n: Node, ctx: Ctx, st: St): (r: Out)
    ensures Grows(st, r.st)
    requires n.ExpCall?
    decreases n, 1
  {
    var (args, st1) := ArgsV(n.args, ctx, st);
    if n.id == "read" then
      var (res, st2) := NewVar(st1);
      Out(TVar(res, Sem.Int), Emit(st2, Read(res)))
    else if n.id == "write" then
      if args == [] then Out(TImm(0), Fail(st1))
      else Out(TImm(0), Emit(st1, Write(args[0])))
    else
      var (res, st2) := NewVar(st1);
      Out(TVar(res, Sem.Int), Emit(st2, Call(res, n.id, args)))
  }

  /** `ast_ir_args`: the rest of the list first, then this argument in front of it. */
  function ArgsV(n: Node, ctx: Ctx, st: St): (r: (seq<Opr>, St))
    ensures Grows(st, r.1)
    decreases n, 0
  {
    if n.Nil? then ([], st)
    else if n.Args? then
      var (tail, st1) := ArgsV(n.rest, ctx, st);
      var v := V(n.exp, ctx, st1);
      var a := Atom(v.opr, v.st);
      ([Plain(a.opr)] + tail, a.st)
    else ([], Fail(st))
  }

  /** `ast_ir_exp__array`: the element's address is the base plus index times element
      size, typed as a reference to the element. */
  function ArrayV(n: Node, ctx: Ctx, st: St): (r: Out)
    ensures Grows(st, r.st)
    requires n.ExpArray?
    decreases n, 1
  {
    var arr := V(n.arr, ctx, st);
    var i := V(n.idx, ctx, arr.st);
    var idx := Atom(i.opr, i.st);
    var a := arr.opr;
    if a.TVar? && a.ty.Ref? && a.ty.ref.Array? then
      var elem := a.ty.ref.elem;
      var (off, st1) := NewVar(idx.st);
      var (res, st2) := NewVar(st1);
      var st3 := Emit(st2, Arth(off, Plain(idx.opr), Imm(Sem.Size(elem)), Star));
      Out(TVar(res, Sem.Ref(4, elem)), Emit(st3, Arth(res, Var(a.id), Var(off), Plus)))
    else Out(TImm(0), Fail(idx.st))
  }

  /** `ast_ir_exp__dot`: the field's address is the base plus the field's offset, typed as
      a reference to the field. */
  function DotV(n: Node, ctx: Ctx, st: St): (r: Out)
    ensures Grows(st, r.st)
    requires n.ExpDot?
    decreases n, 1
  {
    var s := V(n.exp, ctx, st);
    var a := s.opr;
    if a.TVar? && a.ty.Ref? && a.ty.ref.Struct? then
      var fs := if a.ty.ref.def in ctx.fields then ctx.fields[a.ty.ref.def] else [];
      match FindField(fs, n.id)
      case None => Out(TImm(0), Fail(s.st))
      case Some(fd) =>
        if fd.offset < 0 then Out(TImm(0), Fail(s.st))
        else
          var (res, st1) := NewVar(s.st);
          Out(TVar(res, Sem.Ref(4, fd.ty)), Emit(st1, Arth(res, Var(a.id), Imm(fd.offset), Plus)))
    else Out(TImm(0), Fail(s.st))
  }

  /** `ast_ir_exp__id`: the variable under its id; an array or a struct stands for its
      address, typed as a reference. */
  function IdV(n: Node, ctx: Ctx, st: St): (r: Out)
    ensures Grows(st, r.st)
    requires n.ExpId?
  {
    if n.sym < |st.ids| && n.sym < |ctx.syms| && st.ids[n.sym] >= 0 then
      var id := st.ids[n.sym];
      var ty := ctx.syms[n.sym];
      if ty.Array? || ty.Struct? then Out(TVar(id, Sem.Ref(4, ty)), st)
      else if ty.Int? then Out(TVar(id, ty), st)
      else Out(TImm(0), Fail(st))
    else Out(TImm(0), Fail(st))
  }

  /** `ast_ir_exp__and_b`: the left side jumps to a fresh label when it holds, where the
      right side decides. */
  function AndB(n: Node, t: nat, f: nat, ctx: Ctx, st: St): (r: St)
    requires t in st.cur.labels && f in st.cur.labels
    ensures Grows(st, r)
    requires n.Exp2?
    decreases n, 0
  {
    var (l, st1) := NewLabel(st);
    var st2 := B(n.lexp, l, f, ctx, st1);
    B(n.rexp, t, f, ctx, Emit(st2, Label(l)))
  }

  /** `ast_ir_exp__or_b`: the left side jumps to a fresh label when it fails, where the
      right side decides. */
  function OrB(n: Node, t: nat, f: nat, ctx: Ctx, st: St): (r: St)
    requires t in st.cur.labels && f in st.cur.labels
    ensures Grows(st, r)
    requires n.Exp2?
    decreases n, 0
  {
    var (l, st1) := NewLabel(st);
    var st2 := B(n.lexp, t, l, ctx, st1);
    B(n.rexp, t, f, ctx, Emit(st2, Label(l)))
  }

  /** `ast_ir_exp__relop_b`: one conditional jump to `t`, then a jump to `f`. */
  function RelopB(n: Node, t: nat, f: nat, ctx: Ctx, st: St): (r: St)
    requires t in st.cur.labels && f in st.cur.labels
    ensures Grows(st, r)
    requires n.Exp2?
    decreases n, 0
  {
    var l := V(n.lexp, ctx, st);
    var la := Atom(l.opr, l.st);
    var r := V(n.rexp, ctx, la.st);
    var ra := Atom(r.opr, r.st);
    Emit(Emit(ra.st, Branch(Plain(la.opr), Plain(ra.opr), n.relop, t, 0)), Goto(f, 0))
  }

  /** `ast_ir_exp__not_b`: jumps to `t` when the operand is zero. */
  function NotB(n: Node, t: nat, f: nat, ctx: Ctx, st: St): (r: St)
    requires t in st.cur.labels && f in st.cur.labels
    ensures Grows(st, r)
    requires n.Exp1?
    decreases n, 0
  {
    var v := V(n.exp, ctx, st);
    var a := Atom(v.opr, v.st);
    Emit(Emit(a.st, Branch(Plain(a.opr), Imm(0), EQ, t, 0)), Goto(f, 0))
  }

  /* ------------------------------------------------------------------ */
  /* Copying through references                                          */
  /* ------------------------------------------------------------------ */

  /** The number of 4-byte steps that cover `size` bytes. */
  function Steps(size: int): (k: nat)
    ensures 4 * k >= size && (k > 0 ==> 4 * (k - 1) < size)
  {
    if size <= 0 then 0 else (size + 3) / 4
  }

  /** The rounds of the loop of `copy_ref` from byte offset `off` on: one per offset
      below `size`, the offset going up by 4. */
  function Rounds(off: int, size: int): nat
    decreases size - off
  {
    if off < size then 1 + Rounds(off + 4, size) else 0
  }

  /** The loop of `copy_ref`, entered at word j, runs the steps that remain: from word 0
      it runs exactly Steps(size) of them. */
  lemma {:induction false} RoundsFrom(j: nat, size: int)
    ensures Rounds(4 * j, size) == if Steps(size) > j then Steps(size) - j else 0
    decreases size - 4 * j
  {
    if 4 * j < size {
      RoundsFrom(j + 1, size);
    }
  }

  /** At position `p` of `c`, one word is copied from `off` bytes past `r` to `off` bytes
      past `l`: the source address (through its expression temporary), the load into
      the next temporary, the destination address, and the store of the loaded word. */
  predicate CopyAt(c: seq<Instr>, p: nat, l: nat, r: nat, off: int)
  {
    && p + 6 <= |c| && c[p + 1].Mov?
    && HalfAt(c, p, r, off, c[p + 1].lhs, Load(c[p + 1].lhs + 1, c[p + 1].lhs))
    && HalfAt(c, p + 3, l, off, c[p + 1].lhs + 2, Store(c[p + 1].lhs + 2, Var(c[p + 1].lhs + 1)))
  }

  /** At position `p` of `c`: the address `off` bytes past `base` through an expression
      temporary, moved into `a`, then `x`. */
  predicate HalfAt(c: seq<Instr>, p: nat, base: nat, off: int, a: nat, x: Instr)
  {
    && p + 3 <= |c|
    && c[p].Arth? && c[p].opr1 == Var(base) && c[p].opr2 == Imm(off) && c[p].op == Plus
    && c[p + 1] == Mov(a, Var(c[p].lhs))
    && c[p + 2] == x
  }

  /** A prefix of the code keeps what it shows. */
  lemma CopyAtPrefix(c: seq<Instr>, d: seq<Instr>, p: nat, l: nat, r: nat, off: int)
    requires |c| <= |d| && d[..|c|] == c && CopyAt(c, p, l, r, off)
    ensures CopyAt(d, p, l, r, off)
  {
    assert forall i | p <= i < p + 6 :: d[i] == c[i];
  }

  /** `d` is `c` followed by the six instructions that copy the word at `off`. */
  predicate StepAppended(c: seq<Instr>, d: seq<Instr>, l: nat, r: nat, off: int)
  {
    |d| == |c| + 6 && d[..|c|] == c && CopyAt(d, |c|, l, r, off)
  }

  /** From position `p` on, `c` holds exactly the k steps that copy the words at offsets
      0, 4, ..., 4 (k - 1), in that order: the last six instructions copy word k - 1, and
      the code before them holds the first k - 1 steps (CopiedEach reads it step by step). */
  predicate CopiedAt(c: seq<Instr>, p: nat, l: nat, r: nat, k: nat)
    decreases k
  {
    |c| == p + 6 * k &&
    (k > 0 ==> CopiedAt(c[..|c| - 6], p, l, r, k - 1) && CopyAt(c, |c| - 6, l, r, 4 * (k - 1)))
  }

  /** One more step at the end. */
  lemma CopiedMore(c: seq<Instr>, d: seq<Instr>, p: nat, l: nat, r: nat, k: nat)
    requires CopiedAt(c, p, l, r, k) && StepAppended(c, d, l, r, 4 * k)
    ensures CopiedAt(d, p, l, r, k + 1)
  {
    assert d[..|d| - 6] == c;
  }

  /** Step j of k copies the word at offset 4 j, from position p + 6 j on. */
  lemma {:induction false} CopiedEach(c: seq<Instr>, p: nat, l: nat, r: nat, k: nat, j: nat)
    requires CopiedAt(c, p, l, r, k) && j < k
    ensures CopyAt(c, p + 6 * j, l, r, 4 * j)
    decreases k
  {
    if j < k - 1 {
      var front := c[..|c| - 6];
      CopiedEach(front, p, l, r, k - 1, j);
      CopyAtPrefix(front, c, p + 6 * j, l, r, 4 * j);
    }
  }

  /** One step of `copy_ref` at byte offset `off`: three fresh temporaries `a`, `a + 1`,
      `a + 2`, then its two halves. */
  function CopyStep(l: nat, r: nat, off: int, st: St): St
  {
    CopyStore(l, st.varNum, off, CopyLoad(r, st.varNum, off, st.(varNum := st.varNum + 3)))
  }

  /** A step is its two halves, one after the other. */
  lemma StepHalves(l: nat, r: nat, off: int, st: St)
    ensures CopyStep(l, r, off, st) ==
            CopyStore(l, st.varNum, off, CopyLoad(r, st.varNum, off, st.(varNum := st.varNum + 3)))
  {
  }

  /** The two halves, one after the other, make a step. */
  lemma StepJoin(c: seq<Instr>, m: seq<Instr>, d: seq<Instr>, l: nat, r: nat, off: int, a: nat)
    requires c <= m && |m| == |c| + 3 && HalfAt(m, |c|, r, off, a, Load(a + 1, a))
    requires m <= d && |d| == |m| + 3 && HalfAt(d, |m|, l, off, a + 2, Store(a + 2, Var(a + 1)))
    ensures StepAppended(c, d, l, r, off)
  {
    var p := |c|;
    assert forall i | p <= i < p + 3 :: d[i] == m[i];
  }

  /** After k steps, the two halves of the next one make k + 1 steps. */
  lemma CopiedOnto(c: seq<Instr>, m: seq<Instr>, d: seq<Instr>, p: nat, l: nat, r: nat, k: nat, a: nat)
    requires CopiedAt(c, p, l, r, k)
    requires c <= m && |m| == |c| + 3 && HalfAt(m, |c|, r, 4 * k, a, Load(a + 1, a))
    requires m <= d && |d| == |m| + 3 && HalfAt(d, |m|, l, 4 * k, a + 2, Store(a + 2, Var(a + 1)))
    ensures CopiedAt(d, p, l, r, k + 1)
  {
    StepJoin(c, m, d, l, r, 4 * k, a);
    CopiedMore(c, d, p, l, r, k);
  }

  /** The first half of a step: temporary `a + 1` is loaded from `off` bytes past `r`. */
  function CopyLoad(r: nat, a: nat, off: int, st: St): (s: St)
    ensures Grows(st, s) && |s.cur.irs| == |st.cur.irs| + 3
    ensures HalfAt(s.cur.irs, |st.cur.irs|, r, off, a, Load(a + 1, a))
  {
    Emit(Emit(st, Arth(a, Var(r), Imm(off), Plus)), Load(a + 1, a))
  }

  /** The second half of a step: temporary `a + 1` is stored `off` bytes past `l`. */
  function CopyStore(l: nat, a: nat, off: int, st: St): (s: St)
    ensures Grows(st, s) && |s.cur.irs| == |st.cur.irs| + 3
    ensures HalfAt(s.cur.irs, |st.cur.irs|, l, off, a + 2, Store(a + 2, Var(a + 1)))
  {
    Emit(Emit(st, Arth(a + 2, Var(l), Imm(off), Plus)), Store(a + 2, Var(a + 1)))
  }

  /** A step after the first k makes k + 1 steps. */
  lemma StepOnto(l: nat, r: nat, k: nat, p: nat, st: St, s1: St, s2: St)
    requires CopiedAt(st.cur.irs, p, l, r, k)
    requires s1 == CopyLoad(r, st.varNum, 4 * k, st.(varNum := st.varNum + 3))
    requires s2 == CopyStore(l, st.varNum, 4 * k, s1)
    ensures Grows(st, s2) && CopiedAt(s2.cur.irs, p, l, r, k + 1)
  {
    CopiedOnto(st.cur.irs, s1.cur.irs, s2.cur.irs, p, l, r, k, st.varNum);
  }

  /** The first k steps of `copy_ref`. */
  function CopyN(l: nat, r: nat, k: nat, st: St): (s: St)
    ensures Grows(st, s)
    ensures CopiedAt(s.cur.irs, |st.cur.irs|, l, r, k)
  {
    if k == 0 then st
    else
      var prev := CopyN(l, r, k - 1, st);
      var s1 := CopyLoad(r, prev.varNum, 4 * (k - 1), prev.(varNum := prev.varNum + 3));
      StepHalves(l, r, 4 * (k - 1), prev);
      StepOnto(l, r, k - 1, |st.cur.irs|, prev, s1, CopyStep(l, r, 4 * (k - 1), prev));
      CopyStep(l, r, 4 * (k - 1), prev)
  }

  /** One more step after the first k. */
  lemma CopyNMore(l: nat, r: nat, k: nat, st: St, prev: St, s: St)
    requires prev == CopyN(l, r, k, st) && s == CopyStep(l, r, 4 * k, prev)
    ensures s == CopyN(l, r, k + 1, st)
  {
  }

  /** `copy_ref`: both sides are references; as many words as the smaller referenced
      type holds are copied. */
  function CopyRef(lhs: TOpr, rhs: TOpr, st: St): (r: St)
    requires lhs.TVar? && rhs.TVar?
    ensures Grows(st, r)
    ensures lhs.ty.Ref? && rhs.ty.Ref? ==>
      CopiedAt(r.cur.irs, |st.cur.irs|, lhs.id, rhs.id, Steps(Min(Sem.Size(lhs.ty.ref), Sem.Size(rhs.ty.ref))))
    ensures !(lhs.ty.Ref? && rhs.ty.Ref?) ==> r == Fail(st)
  {
    if lhs.ty.Ref? && rhs.ty.Ref? then
      CopyN(lhs.id, rhs.id, Steps(Min(Sem.Size(lhs.ty.ref), Sem.Size(rhs.ty.ref))), st)
    else Fail(st)
  }

  /** The smaller of two sizes. */
  function Min(a: int, b: int): (m: int)
    ensures m <= a && m <= b && (m == a || m == b)
  {
    if a > b then b else a
  }



  /* ------------------------------------------------------------------ */
  /* Declarations and statements                                         */
  /* ------------------------------------------------------------------ */

  /** `ast_ir_var_dec__id` / `__array`: the declared variable, which gets the next id
      the first time its declaration is lowered. */
  function DeclVar(n: Node, st: St): (r: (Option<nat>, St))
    ensures r.1.cur == st.cur && r.1.labelNum == st.labelNum
    ensures Grows(st, r.1)
    ensures |r.1.ids| == |st.ids|
    ensures r.0.Some? ==> r.0.value < |st.ids| && r.1.ids[r.0.value] >= 0
    ensures r.0.Some? ==> r.1.ok == st.ok
  {
    if n.VarDecId? then
      if n.sym < |st.ids| then
        (Some(n.sym), if st.ids[n.sym] < 0 then st.(ids := st.ids[n.sym := st.varNum], varNum := st.varNum + 1) else st)
      else (None, Fail(st))
    else if n.VarDecArray? then DeclVar(n.varDec, st)
    else (None, Fail(st))
  }

  /** `ast_ir_param_dec`: the parameter's id. */
  function ParamV(n: Node, st: St): (r: (nat, St))
    ensures r.1.cur == st.cur && r.1.labelNum == st.labelNum
    ensures Grows(st, r.1)
  {
    if n.ParamDec? then
      var (d, st1) := DeclVar(n.varDec, st);
      if d.Some? && st1.ids[d.value] >= 0 then (st1.ids[d.value], st1) else (0, Fail(st1))
    else (0, Fail(st))
  }

  /** `ast_ir_var_list`: the parameters' ids in order. */
  function ParamsV(n: Node, st: St): (r: (seq<nat>, St))
    ensures r.1.cur == st.cur && r.1.labelNum == st.labelNum
    ensures Grows(st, r.1)
  {
    if n.Nil? then ([], st)
    else if n.VarList? then
      var (p, st1) := ParamV(n.paramDec, st);
      var (ps, st2) := ParamsV(n.rest, st1);
      ([p] + ps, st2)
    else ([], Fail(st))
  }

  /** `ast_ir_dec`: an array or struct gets a block of its size whose address the
      variable holds, and an initialiser is copied into it word by word; any other
      variable is moved its initialiser. */
  function DecS(n: Node, ctx: Ctx, st: St): (r: St)
    ensures Grows(st, r)
    requires n.Dec?
    decreases n, 1
  {
    var (d, st1) := DeclVar(n.varDec, st);
    if d.None? || d.value >= |ctx.syms| || st1.ids[d.value] < 0 then Fail(st1)
    else
      var id: nat := st1.ids[d.value];
      var ty := ctx.syms[d.value];
      if ty.Array? || ty.Struct? then BlockDecS(n, ctx, id, ty, st1)
      else if n.init == Nil then st1
      else
        var v := V(n.init, ctx, st1);
        var a := Atom(v.opr, v.st);
        Emit(a.st, Mov(id, Plain(a.opr)))
  }

  /** The array and struct case of `ast_ir_dec`: the block, its address in the variable
      `id`, then the initialiser's words copied in. */
  function BlockDecS(n: Node, ctx: Ctx, id: nat, ty: Sem.Type, st: St): (r: St)
    ensures Grows(st, r)
    requires n.Dec?
    decreases n, 0
  {
    var (m, st2) := NewVar(st);
    var st3 := Emit(Emit(st2, Alloc(m, Sem.Size(ty))), Addr(id, m));
    if n.init == Nil then st3
    else
      var v := V(n.init, ctx, st3);
      var a := Atom(v.opr, v.st);
      if a.opr.TVar? then CopyRef(TVar(id, Sem.Ref(4, ty)), a.opr, a.st) else Fail(a.st)
  }

  /** `ast_ir_stmt__ret`: the operand, then the return. */
  function RetS(n: Node, ctx: Ctx, st: St): (r: St)
    ensures Grows(st, r)
    requires n.StmtRet?
    decreases n, 0
  {
    var v := V(n.exp, ctx, st);
    var a := Atom(v.opr, v.st);
    Emit(a.st, Ret(Plain(a.opr)))
  }

  /** `ast_ir_stmt__if`: the condition, the true label, the body, the false label. */
  function IfS(n: Node, ctx: Ctx, st: St): (r: St)
    ensures Grows(st, r)
    requires n.StmtIf?
    decreases n, 0
  {
    var (tl, st1) := NewLabel(st);
    var (fl, st2) := NewLabel(st1);
    var st3 := B(n.exp, tl, fl, ctx, st2);
    var st4 := S(n.stmt, ctx, Emit(st3, Label(tl)));
    Emit(st4, Label(fl))
  }

  /** `ast_ir_stmt__ifelse`: the condition, the then branch ending in a jump to the end,
      the else branch, the end label. */
  function IfElseS(n: Node, ctx: Ctx, st: St): (r: St)
    requires n.StmtIfElse?
    ensures Grows(st, r)
    decreases n, 1
  {
    var (tl, st1) := NewLabel(st);
    var (fl, st2) := NewLabel(st1);
    var (el, st3) := NewLabel(st2);
    var st4 := B(n.exp, tl, fl, ctx, st3);
    ElseS(n, fl, el, ctx, S(n.ifSt, ctx, Emit(st4, Label(tl))))
  }

  /** The end of `ast_ir_stmt__ifelse`: the jump over the else branch, the false label,
      the else branch and the end label. */
  function ElseS(n: Node, fl: nat, el: nat, ctx: Ctx, st: St): (r: St)
    requires n.StmtIfElse? && el in st.cur.labels
    ensures Grows(st, r)
    decreases n, 0
  {
    var st1 := S(n.elseSt, ctx, Emit(Emit(st, Goto(el, 0)), Label(fl)));
    Emit(st1, Label(el))
  }

  /** `ast_ir_stmt__while`: the test, the body label, the body, the test again, the end
      label. */
  function WhileS(n: Node, ctx: Ctx, st: St): (r: St)
    ensures Grows(st, r)
    requires n.StmtWhile?
    decreases n, 0
  {
    var (bl, st1) := NewLabel(st);
    var (el, st2) := NewLabel(st1);
    var st3 := B(n.exp, bl, el, ctx, st2);
    var st4 := S(n.stmt, ctx, Emit(st3, Label(bl)));
    Emit(B(n.exp, bl, el, ctx, st4), Label(el))
  }

  /** The expressions, for the visitor of a statement. */
  predicate IsExp(n: Node)
  {
    n.Exp2? || n.ExpPara? || n.Exp1? || n.ExpCall? || n.ExpArray? || n.ExpDot? || n.ExpId? || n.ExpInt? || n.ExpFloat?
  }

  /** A node of a function body lowered by the visitor with `branch == 0`. Nodes that
      only occur outside function bodies have nothing to lower here. */
  function S(n: Node, ctx: Ctx, st: St): (r: St)
    ensures Grows(st, r)
    decreases n, 6
  {
    if n.CompSt? then S(n.stmts, ctx, S(n.defs, ctx, st))
    else if n.StmtList? then S(n.rest, ctx, S(n.stmt, ctx, st))
    else if n.DefList? then S(n.rest, ctx, S(n.def, ctx, st))
    else if n.DecList? then S(n.rest, ctx, S(n.dec, ctx, st))
    else if n.StmtExp? then V(n.exp, ctx, st).st
    else if n.StmtComp? then S(n.compSt, ctx, st)
    else if n.Def? then S(n.decs, ctx, st)
    else if n.StmtRet? then RetS(n, ctx, st)
    else if n.StmtIf? then IfS(n, ctx, st)
    else if n.StmtIfElse? then IfElseS(n, ctx, st)
    else if n.StmtWhile? then WhileS(n, ctx, st)
    else if n.Dec? then DecS(n, ctx, st)
    else if n.VarDecId? || n.VarDecArray? then DeclVar(n, st).1
    else if IsExp(n) then V(n, ctx, st).st
    else st
  }

  /* ------------------------------------------------------------------ */
  /* Functions and the whole program                                     */
  /* ------------------------------------------------------------------ */

  /** The graphs finished so far, whether one is being filled, and the state of that one. */
  datatype Prog = Prog(done: seq<Code>, open: bool, st: St)

  /** `add_cfg`: a new graph headed by the function, which the following code fills. */
  function Open(p: Prog, name: string, params: seq<nat>): (r: Prog)
  {
    Prog(if p.open then p.done + [p.st.cur] else p.done, true,
         p.st.(cur := Code([Func(name, params)], map[], 0, map[])))
  }

  /** `ast_ir_ext_def__fun` with `ast_ir_fun_dec`: the parameters, a new graph headed by
      the function, then its body. */
  function FunS(n: Node, ctx: Ctx, p: Prog): (r: Prog)
    requires n.ExtDefFun?
    ensures p.open ==> r.open
    ensures !r.open ==> r.st.cur == p.st.cur
  {
    if n.funDec.FunDec? then
      var (ps, st1) := ParamsV(n.funDec.params, p.st);
      var p1 := Open(p.(st := st1), n.funDec.id, ps);
      p1.(st := S(n.body, ctx, p1.st))
    else p.(st := Fail(p.st))
  }

  /** The top of the tree: only function definitions produce code. */
  function Top(n: Node, ctx: Ctx, p: Prog): (r: Prog)
    ensures p.open ==> r.open
    ensures !r.open ==> r.st.cur == p.st.cur
  {
    if n.Program? then Top(n.extDefs, ctx, p)
    else if n.ExtDefList? then Top(n.rest, ctx, Top(n.extDef, ctx, p))
    else if n.ExtDefFun? then FunS(n, ctx, p)
    else p
  }

  /** The state `ast_ir` starts from: no graphs, both counters at zero, no variable
      given an id yet. */
  function Start(ctx: Ctx): (p: Prog)
  {
    Prog([], false, St(Code([], map[], 0, map[]), 0, 0, seq(|ctx.syms|, _ => -1), true))
  }

  /** `ast_ir`: the code of every function, in order. */
  function Graphs(p: Prog): (gs: seq<Code>)
  {
    if p.open then p.done + [p.st.cur] else p.done
  }

  /* ------------------------------------------------------------------ */
  /* The lowering, step by step on the program                           */
  /* ------------------------------------------------------------------ */

  /**
   * The visitor of `ast_ir.c` with the program it builds (`ir.c`): the graphs finished so
   * far, the instruction list and bookkeeping of the graph being filled, the two
   * counters, the id given to each annotated variable, and whether every assertion of
   * the lowering held. Each method is one visitor function (or one helper) and ends in
   * the state its specification function computes.
   */
  class Lowerer {
    const ctx: Ctx
    var done: seq<Code>
    var open: bool
    var irs: seq<Instr>
    var labels: map<nat, IrProgram.LabelRec>
    var nextJid: nat
    var exprMap: map<Expr, nat>
    var varNum: nat
    var labelNum: nat
    var ids: seq<int>
    var ok: bool

    /** The state while a function body is lowered, as the specification sees it. */
    function Snap(): St
      reads this
    {
      St(Code(irs, labels, nextJid, exprMap), varNum, labelNum, ids, ok)
    }

    /** The whole program, as the specification sees it. */
    function Whole(): Prog
      reads this
    {
      Prog(done, open, Snap())
    }

    /** `init_ir_program`, with no variable given an id yet. */
    constructor (ctx: Ctx)
      ensures this.ctx == ctx && Whole() == Start(ctx)
    {
      this.ctx := ctx;
      done, open := [], false;
      irs, labels, nextJid, exprMap := [], map[], 0, map[];
      varNum, labelNum := 0, 0;
      ids := seq(|ctx.syms|, _ => -1);
      ok := true;
    }

    /** `add_ir` into the graph being filled: an arithmetic goes through its temporary,
        a jump takes the next identity and is recorded on its label. */
    method Add(x: Instr)
      requires x.IsJump() ==> x.target in labels
      modifies this
      ensures Snap() == Emit(old(Snap()), x) && Whole() == old(Whole()).(st := Snap())
    {
      if x.Arth? {
        var e := Canon(Expr(x.opr1, x.opr2, x.op));
        var t: nat;
        if e in exprMap {
          t := exprMap[e];
        } else {
          t := varNum;
          varNum := varNum + 1;
          exprMap := exprMap[e := t];
        }
        irs := irs + [Arth(t, x.opr1, x.opr2, x.op), Mov(x.lhs, Var(t))];
      } else if x.IsJump() {
        irs := irs + [x.(jid := nextJid)];
        labels := IrProgram.Register(labels, x.target, nextJid);
        nextJid := nextJid + 1;
      } else {
        irs := irs + [x];
      }
    }

    /** `gen_label`. */
    method NewLabelM() returns (l: nat)
      modifies this
      ensures (l, Snap()) == NewLabel(old(Snap())) && Whole() == old(Whole()).(st := Snap())
    {
      l := labelNum;
      labelNum := labelNum + 1;
      labels := labels[l := IrProgram.LabelRec(0, [])];
    }

    /** `gen_temp_var` / `new_var_id`. */
    method NewVarM() returns (v: nat)
      modifies this
      ensures (v, Snap()) == NewVar(old(Snap())) && Whole() == old(Whole()).(st := Snap())
    {
      v := varNum;
      varNum := varNum + 1;
    }

    /** `iropr2atom`. */
    method ToAtom(o: TOpr) returns (r: TOpr)
      modifies this
      ensures done == old(done) && open == old(open)
      ensures Out(r, Snap()) == Atom(o, old(Snap()))
    {
      if o.TVar? && RefToInt(o.ty) {
        var a := NewVarM();
        Add(Load(a, o.id));
        r := TVar(a, o.ty.ref);
      } else {
        r := o;
      }
    }

    /** The visitor with `branch == 0` on an expression. */
    method Value(n: Node) returns (o: TOpr)
      modifies this
      ensures done == old(done) && open == old(open)
      ensures Out(o, Snap()) == V(n, ctx, old(Snap()))
      decreases n, if IsCond(n) then 4 else 2
    {
      if n.Exp2? {
        if n.op == AssignOp {
          o := Assign(n);
        } else if IsArith(n.op) {
          o := Arith(n);
        } else {
          o := CondValue(n);
        }
      } else if n.ExpPara? {
        o := Value(n.exp);
      } else if n.Exp1? {
        if n.op1 == NegOp {
          o := Negate(n);
        } else {
          o := CondValue(n);
        }
      } else if n.ExpCall? {
        o := CallFun(n);
      } else if n.ExpArray? {
        o := Index(n);
      } else if n.ExpDot? {
        o := Member(n);
      } else if n.ExpId? {
        o := Ident(n);
      } else if n.ExpInt? {
        o := TImm(n.ival);
      } else {
        o := TImm(0);
        ok := false;
      }
    }

    /** The visitor with `branch == 1` on an expression, jumping to `t` or `f`. */
    method Cond(n: Node, t: nat, f: nat)
      requires t in labels && f in labels
      modifies this
      ensures done == old(done) && open == old(open)
      ensures Snap() == B(n, t, f, ctx, old(Snap()))
      decreases n, if IsCond(n) then 1 else 5
    {
      if n.Exp2? {
        if n.op == AndOp {
          And(n, t, f);
        } else if n.op == OrOp {
          Or(n, t, f);
        } else if n.op == RelOp {
          Compare(n, t, f);
        } else {
          ValueCond(n, t, f);
        }
      } else if n.ExpPara? {
        Cond(n.exp, t, f);
      } else if n.Exp1? {
        if n.op1 == NotOp {
          Not(n, t, f);
        } else {
          ValueCond(n, t, f);
        }
      } else if n.ExpCall? || n.ExpArray? || n.ExpDot? || n.ExpId? || n.ExpInt? {
        ValueCond(n, t, f);
      } else {
        ok := false;
      }
    }

    /** `ast_ir_exp_v2b`. */
    method CondValue(n: Node) returns (o: TOpr)
      requires IsCond(n)
      modifies this
      ensures done == old(done) && open == old(open)
      ensures Out(o, Snap()) == V2B(n, ctx, old(Snap()))
      decreases n, 3
    {
      var tl := NewLabelM();
      var fl := NewLabelM();
      var el := NewLabelM();
      var x := NewVarM();
      Cond(n, tl, fl);
      SetFlag(x, tl, fl, el);
      o := TVar(x, Sem.Int);
    }

    /** The end of `ast_ir_exp_v2b`. */
    method SetFlag(x: nat, tl: nat, fl: nat, el: nat)
      requires el in labels
      modifies this
      ensures done == old(done) && open == old(open)
      ensures Snap() == Materialize(x, tl, fl, el, old(Snap()))
    {
      Add(Label(tl));
      Add(Mov(x, Imm(1)));
      Add(Goto(el, 0));
      Add(Label(fl));
      Add(Mov(x, Imm(0)));
      Add(Label(el));
    }

    /** `ast_ir_exp_b2v`. */
    method ValueCond(n: Node, t: nat, f: nat)
      requires !IsCond(n) && t in labels && f in labels
      modifies this
      ensures done == old(done) && open == old(open)
      ensures Snap() == B2V(n, t, f, ctx, old(Snap()))
      decreases n, 4
    {
      var v := Value(n);
      var a := ToAtom(v);
      Add(Branch(Plain(a), Imm(0), NEQ, t, 0));
      Add(Goto(f, 0));
    }

    /** `ast_ir_exp__mov_v`. */
    method Assign(n: Node) returns (o: TOpr)
      requires n.Exp2?
      modifies this
      ensures done == old(done) && open == old(open)
      ensures Out(o, Snap()) == MovV(n, ctx, old(Snap()))
      decreases n, 1
    {
      var lhs := Value(n.lexp);
      var v := Value(n.rexp);
      var a := ToAtom(v);
      o := lhs;
      if lhs.TVar? && lhs.ty.Ref? {
        if lhs.ty.ref.Int? {
          Add(Store(lhs.id, Plain(a)));
        } else if a.TVar? {
          Copy(lhs, a);
        } else {
          ok := false;
        }
      } else if lhs.TVar? && lhs.ty.Int? {
        Add(Mov(lhs.id, Plain(a)));
      } else {
        ok := false;
      }
    }

    /** `ast_ir_exp__2oparth_v`. */
    method Arith(n: Node) returns (o: TOpr)
      requires n.Exp2? && IsArith(n.op)
      modifies this
      ensures done == old(done) && open == old(open)
      ensures Out(o, Snap()) == ArthV(n, ctx, old(Snap()))
      decreases n, 1
    {
      var l := Value(n.lexp);
      var la := ToAtom(l);
      var r := Value(n.rexp);
      var ra := ToAtom(r);
      var res := NewVarM();
      Add(Arth(res, Plain(la), Plain(ra), ArithOf(n.op)));
      o := TVar(res, Sem.Int);
    }

    /** `ast_ir_exp__minus_v`. */
    method Negate(n: Node) returns (o: TOpr)
      requires n.Exp1?
      modifies this
      ensures done == old(done) && open == old(open)
      ensures Out(o, Snap()) == MinusV(n, ctx, old(Snap()))
      decreases n, 1
    {
      var e := Value(n.exp);
      var a := ToAtom(e);
      var res := NewVarM();
      Add(Arth(res, Imm(0), Plain(a), Minus));
      o := TVar(res, Sem.Int);
    }

    /** `ast_ir_exp__call` with `branch == 0`. */
    method CallFun(n: Node) returns (o: TOpr)
      requires n.ExpCall?
      modifies this
      ensures done == old(done) && open == old(open)
      ensures Out(o, Snap()) == CallV(n, ctx, old(Snap()))
      decreases n, 1
    {
      var args := Arguments(n.args);
      if n.id == "read" {
        var res := NewVarM();
        Add(Read(res));
        o := TVar(res, Sem.Int);
      } else if n.id == "write" {
        o := TImm(0);
        if args == [] {
          ok := false;
        } else {
          Add(Write(args[0]));
        }
      } else {
        var res := NewVarM();
        Add(Call(res, n.id, args));
        o := TVar(res, Sem.Int);
      }
    }

    /** `ast_ir_args`. */
    method Arguments(n: Node) returns (args: seq<Opr>)
      modifies this
      ensures done == old(done) && open == old(open)
      ensures (args, Snap()) == ArgsV(n, ctx, old(Snap()))
      decreases n, 0
    {
      if n.Nil? {
        args := [];
      } else if n.Args? {
        var tail := Arguments(n.rest);
        var v := Value(n.exp);
        var a := ToAtom(v);
        args := [Plain(a)] + tail;
      } else {
        args := [];
        ok := false;
      }
    }

    /** `ast_ir_exp__array` with `branch == 0`. */
    method Index(n: Node) returns (o: TOpr)
      requires n.ExpArray?
      modifies this
      ensures done == old(done) && open == old(open)
      ensures Out(o, Snap()) == ArrayV(n, ctx, old(Snap()))
      decreases n, 1
    {
      var arr := Value(n.arr);
      var i := Value(n.idx);
      var idx := ToAtom(i);
      if arr.TVar? && arr.ty.Ref? && arr.ty.ref.Array? {
        var elem := arr.ty.ref.elem;
        var off := NewVarM();
        var res := NewVarM();
        Add(Arth(off, Plain(idx), Imm(Sem.Size(elem)), Star));
        Add(Arth(res, Var(arr.id), Var(off), Plus));
        o := TVar(res, Sem.Ref(4, elem));
      } else {
        o := TImm(0);
        ok := false;
      }
    }

    /** `ast_ir_exp__dot` with `branch == 0`. */
    method Member(n: Node) returns (o: TOpr)
      requires n.ExpDot?
      modifies this
      ensures done == old(done) && open == old(open)
      ensures Out(o, Snap()) == DotV(n, ctx, old(Snap()))
      decreases n, 1
    {
      var s := Value(n.exp);
      o := TImm(0);
      if s.TVar? && s.ty.Ref? && s.ty.ref.Struct? {
        var fs := if s.ty.ref.def in ctx.fields then ctx.fields[s.ty.ref.def] else [];
        var fd := FindField(fs, n.id);
        if fd.None? || fd.value.offset < 0 {
          ok := false;
        } else {
          var res := NewVarM();
          Add(Arth(res, Var(s.id), Imm(fd.value.offset), Plus));
          o := TVar(res, Sem.Ref(4, fd.value.ty));
        }
      } else {
        ok := false;
      }
    }

    /** `ast_ir_exp__id` with `branch == 0`. */
    method Ident(n: Node) returns (o: TOpr)
      requires n.ExpId?
      modifies this
      ensures done == old(done) && open == old(open)
      ensures Out(o, Snap()) == IdV(n, ctx, old(Snap()))
    {
      o := TImm(0);
      if n.sym < |ids| && n.sym < |ctx.syms| && ids[n.sym] >= 0 {
        var id: nat := ids[n.sym];
        var ty := ctx.syms[n.sym];
        if ty.Array? || ty.Struct? {
          o := TVar(id, Sem.Ref(4, ty));
        } else if ty.Int? {
          o := TVar(id, ty);
        } else {
          ok := false;
        }
      } else {
        ok := false;
      }
    }

    /** `ast_ir_exp__and_b`. */
    method And(n: Node, t: nat, f: nat)
      requires n.Exp2? && t in labels && f in labels
      modifies this
      ensures done == old(done) && open == old(open)
      ensures Snap() == AndB(n, t, f, ctx, old(Snap()))
      decreases n, 0
    {
      var l := NewLabelM();
      Cond(n.lexp, l, f);
      Add(Label(l));
      Cond(n.rexp, t, f);
    }

    /** `ast_ir_exp__or_b`. */
    method Or(n: Node, t: nat, f: nat)
      requires n.Exp2? && t in labels && f in labels
      modifies this
      ensures done == old(done) && open == old(open)
      ensures Snap() == OrB(n, t, f, ctx, old(Snap()))
      decreases n, 0
    {
      var l := NewLabelM();
      Cond(n.lexp, t, l);
      Add(Label(l));
      Cond(n.rexp, t, f);
    }

    /** `ast_ir_exp__relop_b`. */
    method Compare(n: Node, t: nat, f: nat)
      requires n.Exp2? && t in labels && f in labels
      modifies this
      ensures done == old(done) && open == old(open)
      ensures Snap() == RelopB(n, t, f, ctx, old(Snap()))
      decreases n, 0
    {
      var l := Value(n.lexp);
      var la := ToAtom(l);
      var r := Value(n.rexp);
      var ra := ToAtom(r);
      Add(Branch(Plain(la), Plain(ra), n.relop, t, 0));
      Add(Goto(f, 0));
    }

    /** `ast_ir_exp__not_b`. */
    method Not(n: Node, t: nat, f: nat)
      requires n.Exp1? && t in labels && f in labels
      modifies this
      ensures done == old(done) && open == old(open)
      ensures Snap() == NotB(n, t, f, ctx, old(Snap()))
      decreases n, 0
    {
      var v := Value(n.exp);
      var a := ToAtom(v);
      Add(Branch(Plain(a), Imm(0), EQ, t, 0));
      Add(Goto(f, 0));
    }

    /** The step after the first k, at offset 4k. */
    method CopyNext(l: nat, r: nat, off: int, ghost k: nat, ghost st0: St)
      requires off == 4 * k && Snap() == CopyN(l, r, k, st0)
      modifies this
      ensures done == old(done) && open == old(open)
      ensures Snap() == CopyN(l, r, k + 1, st0)
    {
      ghost var prev := Snap();
      CopyWord(l, r, off);
      CopyNMore(l, r, k, st0, prev, Snap());
    }

    /** One step of the loop of `copy_ref`. */
    method CopyWord(l: nat, r: nat, off: int)
      modifies this
      ensures done == old(done) && open == old(open)
      ensures Snap() == CopyStep(l, r, off, old(Snap()))
    {
      ghost var st0 := Snap();
      var mrhs := NewVarM();
      var tmp := NewVarM();
      var mlhs := NewVarM();
      assert mrhs == st0.varNum && Snap() == st0.(varNum := st0.varNum + 3);
      LoadWord(r, mrhs, off);
      StoreWord(l, mrhs, off);
      StepHalves(l, r, off, st0);
    }

    /** The load of a step of `copy_ref`, through temporary `a`. */
    method LoadWord(r: nat, a: nat, off: int)
      modifies this
      ensures done == old(done) && open == old(open)
      ensures Snap() == CopyLoad(r, a, off, old(Snap()))
    {
      Add(Arth(a, Var(r), Imm(off), Plus));
      Add(Load(a + 1, a));
    }

    /** The store of a step of `copy_ref`, through temporary `a + 2`. */
    method StoreWord(l: nat, a: nat, off: int)
      modifies this
      ensures done == old(done) && open == old(open)
      ensures Snap() == CopyStore(l, a, off, old(Snap()))
    {
      Add(Arth(a + 2, Var(l), Imm(off), Plus));
      Add(Store(a + 2, Var(a + 1)));
    }

    /** `copy_ref`: a word at a time, while the offset is below the smaller size. */
    method Copy(lhs: TOpr, rhs: TOpr)
      requires lhs.TVar? && rhs.TVar?
      modifies this
      ensures done == old(done) && open == old(open)
      ensures Snap() == CopyRef(lhs, rhs, old(Snap()))
    {
      if !(lhs.ty.Ref? && rhs.ty.Ref?) {
        ok := false;
        return;
      }
      var size := Min(Sem.Size(lhs.ty.ref), Sem.Size(rhs.ty.ref));
      CopyWords(lhs.id, rhs.id, size);
    }

    /** The loop of `copy_ref`: a word at a time while the offset is below `size`,
        counted here in words (Steps gives their number). */
    method CopyWords(l: nat, r: nat, size: int)
      modifies this
      ensures done == old(done) && open == old(open)
      ensures Snap() == CopyN(l, r, Steps(size), old(Snap()))
    {
      ghost var st0 := Snap();
      var n := Steps(size);
      var k := 0;
      while k < n
        invariant k <= n && done == old(done) && open == old(open)
        invariant Snap() == CopyN(l, r, k, st0)
      {
        CopyNext(l, r, 4 * k, k, st0);
        k := k + 1;
      }
    }

    /** `ast_ir_var_dec__id` / `__array`: the declared variable's position. */
    method VarDec(n: Node) returns (d: Option<nat>)
      modifies this
      ensures done == old(done) && open == old(open)
      ensures (d, Snap()) == DeclVar(n, old(Snap()))
    {
      if n.VarDecId? {
        if n.sym < |ids| {
          if ids[n.sym] < 0 {
            var v := NewVarM();
            ids := ids[n.sym := v];
          }
          d := Some(n.sym);
        } else {
          d := None;
          ok := false;
        }
      } else if n.VarDecArray? {
        d := VarDec(n.varDec);
      } else {
        d := None;
        ok := false;
      }
    }

    /** `ast_ir_param_dec`: the parameter's id. */
    method Param(n: Node) returns (p: nat)
      modifies this
      ensures done == old(done) && open == old(open)
      ensures (p, Snap()) == ParamV(n, old(Snap()))
    {
      p := 0;
      if n.ParamDec? {
        var d := VarDec(n.varDec);
        if d.Some? && ids[d.value] >= 0 {
          p := ids[d.value];
        } else {
          ok := false;
        }
      } else {
        ok := false;
      }
    }

    /** `ast_ir_var_list`. */
    method Params(n: Node) returns (ps: seq<nat>)
      modifies this
      ensures done == old(done) && open == old(open)
      ensures (ps, Snap()) == ParamsV(n, old(Snap()))
    {
      if n.Nil? {
        ps := [];
      } else if n.VarList? {
        var p := Param(n.paramDec);
        var tail := Params(n.rest);
        ps := [p] + tail;
      } else {
        ps := [];
        ok := false;
      }
    }

    /** `ast_ir_dec`. */
    method Declare(n: Node)
      requires n.Dec?
      modifies this
      ensures done == old(done) && open == old(open)
      ensures Snap() == DecS(n, ctx, old(Snap()))
      decreases n, 1
    {
      var d := VarDec(n.varDec);
      if d.None? || d.value >= |ctx.syms| || ids[d.value] < 0 {
        ok := false;
        return;
      }
      var id: nat := ids[d.value];
      var ty := ctx.syms[d.value];
      if ty.Array? || ty.Struct? {
        DeclareBlock(n, id, ty);
      } else if n.init != Nil {
        var v := Value(n.init);
        var a := ToAtom(v);
        Add(Mov(id, Plain(a)));
      }
    }

    /** The array and struct case of `ast_ir_dec`. */
    method DeclareBlock(n: Node, id: nat, ty: Sem.Type)
      requires n.Dec?
      modifies this
      ensures done == old(done) && open == old(open)
      ensures Snap() == BlockDecS(n, ctx, id, ty, old(Snap()))
      decreases n, 0
    {
      var m := NewVarM();
      Add(Alloc(m, Sem.Size(ty)));
      Add(Addr(id, m));
      if n.init != Nil {
        var v := Value(n.init);
        var a := ToAtom(v);
        if a.TVar? {
          Copy(TVar(id, Sem.Ref(4, ty)), a);
        } else {
          ok := false;
        }
      }
    }

    /** `ast_ir_stmt__ret`. */
    method Return(n: Node)
      requires n.StmtRet?
      modifies this
      ensures done == old(done) && open == old(open)
      ensures Snap() == RetS(n, ctx, old(Snap()))
      decreases n, 0
    {
      var v := Value(n.exp);
      var a := ToAtom(v);
      Add(Ret(Plain(a)));
    }

    /** `ast_ir_stmt__if`. */
    method If(n: Node)
      requires n.StmtIf?
      modifies this
      ensures done == old(done) && open == old(open)
      ensures Snap() == IfS(n, ctx, old(Snap()))
      decreases n, 0
    {
      var tl := NewLabelM();
      var fl := NewLabelM();
      Cond(n.exp, tl, fl);
      Add(Label(tl));
      Stmt(n.stmt);
      Add(Label(fl));
    }

    /** `ast_ir_stmt__ifelse`. */
    method IfElse(n: Node)
      requires n.StmtIfElse?
      modifies this
      ensures done == old(done) && open == old(open)
      ensures Snap() == IfElseS(n, ctx, old(Snap()))
      decreases n, 1
    {
      var tl := NewLabelM();
      var fl := NewLabelM();
      var el := NewLabelM();
      Cond(n.exp, tl, fl);
      Add(Label(tl));
      Stmt(n.ifSt);
      Else(n, fl, el);
    }

    /** The end of `ast_ir_stmt__ifelse`. */
    method Else(n: Node, fl: nat, el: nat)
      requires n.StmtIfElse? && el in labels
      modifies this
      ensures done == old(done) && open == old(open)
      ensures Snap() == ElseS(n, fl, el, ctx, old(Snap()))
      decreases n, 0
    {
      Add(Goto(el, 0));
      Add(Label(fl));
      Stmt(n.elseSt);
      Add(Label(el));
    }

    /** `ast_ir_stmt__while`. */
    method While(n: Node)
      requires n.StmtWhile?
      modifies this
      ensures done == old(done) && open == old(open)
      ensures Snap() == WhileS(n, ctx, old(Snap()))
      decreases n, 0
    {
      var bl := NewLabelM();
      var el := NewLabelM();
      Cond(n.exp, bl, el);
      Add(Label(bl));
      Stmt(n.stmt);
      Cond(n.exp, bl, el);
      Add(Label(el));
    }

    /** The visitor with `branch == 0` on a node of a function body. */
    method Stmt(n: Node)
      modifies this
      ensures done == old(done) && open == old(open)
      ensures Snap() == S(n, ctx, old(Snap()))
      decreases n, 6
    {
      if n.CompSt? {
        Stmt(n.defs);
        Stmt(n.stmts);
      } else if n.StmtList? {
        Stmt(n.stmt);
        Stmt(n.rest);
      } else if n.DefList? {
        Stmt(n.def);
        Stmt(n.rest);
      } else if n.DecList? {
        Stmt(n.dec);
        Stmt(n.rest);
      } else if n.StmtExp? {
        var _ := Value(n.exp);
      } else if n.StmtComp? {
        Stmt(n.compSt);
      } else if n.Def? {
        Stmt(n.decs);
      } else if n.StmtRet? {
        Return(n);
      } else if n.StmtIf? {
        If(n);
      } else if n.StmtIfElse? {
        IfElse(n);
      } else if n.StmtWhile? {
        While(n);
      } else if n.Dec? {
        Declare(n);
      } else if n.VarDecId? || n.VarDecArray? {
        var _ := VarDec(n);
      } else if IsExp(n) {
        var _ := Value(n);
      }
    }

    /** `ast_ir_ext_def__fun` with `ast_ir_fun_dec`: `add_cfg`, then the body. */
    method Function(n: Node)
      requires n.ExtDefFun?
      modifies this
      ensures Whole() == FunS(n, ctx, old(Whole()))
    {
      if !n.funDec.FunDec? {
        ok := false;
        return;
      }
      var ps := Params(n.funDec.params);
      if open {
        done := done + [Code(irs, labels, nextJid, exprMap)];
      }
      open := true;
      irs, labels, nextJid, exprMap := [Func(n.funDec.id, ps)], map[], 0, map[];
      Stmt(n.body);
    }

    /** The visitor over the top of the tree. */
    method Walk(n: Node)
      modifies this
      ensures Whole() == Top(n, ctx, old(Whole()))
    {
      if n.Program? {
        Walk(n.extDefs);
      } else if n.ExtDefList? {
        Walk(n.extDef);
        Walk(n.rest);
      } else if n.ExtDefFun? {
        Function(n);
      }
    }
  }

  /** `ast_ir`: the program of the whole tree. */
  method Lower(ctx: Ctx, root: Node) returns (l: Lowerer)
    ensures l.ctx == ctx
    ensures l.Whole() == Top(root, ctx, Start(ctx))
  {
    l := new Lowerer(ctx);
    l.Walk(root);
  }
}
