/**
 * The allocator record of one function (`ir_mips_res_t`, ir_mips.c:8-216) as an object:
 * the register table and the slot table are arrays updated in place, as in the C code,
 * and every method is proved to perform the transition of the IrMips function of the
 * same name on the value State().
 */
module MipsResClass {
  import opened Base
  import opened IrTypes
  import M = Mips
  import I = IrMips
  import IrProgram

  class MipsRes {
    /** var_reg: the variable each register holds, -1 when free. */
    const varReg: array<int>
    /** mem_var: each variable's offset below fp, 0 while it has none. */
    const memVar: array<int>
    /** cross_call: the variables live across a call (the livevar pass's result). */
    const crossCall: set<nat>
    /** dirty_var, as a set. */
    var dirty: set<nat>
    /** stack_size. */
    var stack: int
    /** callee_saved. */
    var saved: bv8
    /** The code emitted so far (mips). */
    var code: seq<M.Asm>
    /** last_alloc_ureg_i, a static variable of ir_mips.c, kept with the record it serves. */
    var last: nat
    /** The prologue and the epilogue (entry, exit). */
    var entry: seq<M.Asm>
    var exit: seq<M.Asm>

    /** The record as the value the IrMips functions transform. */
    function State(): I.St
      reads this, varReg, memVar
    {
      I.St(varReg[..], dirty, memVar[..], stack, saved, code)
    }

    ghost predicate Valid()
      reads this, varReg, memVar
    {
      varReg != memVar && I.Wf(State())
    }

    /**
     * ir_mips_init (ir_mips.c:8-25) for one function of a program of `vars` variables:
     * no register taken, no variable with a slot, an empty frame, no code. The
     * round-robin cursor is not part of that record: it starts at `cursor`, where the
     * previous function left the static.
     */
    constructor (vars: nat, cross: set<nat>, cursor: nat)
      ensures Valid() && I.Inv(State()) && crossCall == cross && last == cursor
      ensures State() == I.Fresh(vars)
      ensures fresh(varReg) && fresh(memVar)
    {
      varReg := new int[32](_ => -1);
      memVar := new int[vars](_ => 0);
      crossCall := cross;
      dirty := {};
      stack := 0;
      saved := 0;
      code := [];
      last := cursor;
      entry := [];
      exit := [];
      new;
      I.FreeAll();
      assert varReg[..] == I.Free;
    }

    /** get_offset (ir_mips.c:50-59). */
    method GetOffset(x: nat) returns (off: int)
      requires Valid() && x < memVar.Length
      modifies this, memVar
      ensures Valid() && last == old(last)
      ensures off == I.Offset(old(State()), x).off && State() == I.Offset(old(State()), x).st
    {
      if memVar[x] == 0 {
        stack := stack + 4;
        memVar[x] := stack;
        assert memVar[..] == old(memVar[..])[x := stack];
      }
      off := memVar[x];
    }

    /** find_var_reg (ir_mips.c:61-68): the lowest register holding `x`, or -1. */
    method FindVarReg(x: int) returns (r: int)
      requires Valid()
      ensures r == I.FindReg(State().regs, x)
    {
      var i := 0;
      while i < 32
        invariant 0 <= i <= 32
        invariant I.Find(varReg[..], x, 0) == I.Find(varReg[..], x, i)
      {
        if varReg[i] == x {
          return i;
        }
        i := i + 1;
      }
      return -1;
    }

    /** write_back (ir_mips.c:70-78). */
    method WriteBack(r: M.Reg)
      requires Valid() && varReg[r] >= 0
      modifies this, varReg, memVar
      ensures Valid() && last == old(last)
      ensures State() == I.WriteBack(old(State()), r)
    {
      var x: nat := varReg[r];
      if x in dirty {
        var off := GetOffset(x);
        code := code + [M.Sw(M.FP, -off, r)];
        dirty := dirty - {x};
      }
      varReg[r] := -1;
      assert varReg[..] == old(varReg[..])[r := -1];
    }

    /** The loop of write_back_all and write_back_caller over the registers of `order`. */
    method WriteBackOrder(order: seq<M.Reg>)
      requires Valid()
      modifies this, varReg, memVar
      ensures Valid() && last == old(last)
      ensures State() == I.WriteBackList(old(State()), order)
    {
      var i := 0;
      while i < |order|
        invariant 0 <= i <= |order| && Valid() && last == old(last)
        invariant State() == I.WriteBackList(old(State()), order[..i])
      {
        ghost var pre := State();
        WriteBackListSnoc(old(State()), order, i);
        if varReg[order[i]] >= 0 {
          WriteBack(order[i]);
        }
        assert State() == WriteBackStep(pre, order[i]);
        i := i + 1;
      }
      assert order[..i] == order;
    }

    /** write_back_all (ir_mips.c:80-86). */
    method WriteBackAll()
      requires Valid()
      modifies this, varReg, memVar
      ensures Valid() && last == old(last)
      ensures State() == I.WriteBackAll(old(State()))
    {
      WriteBackOrder(I.AllRegs);
    }

    /** write_back_caller (ir_mips.c:88-94). */
    method WriteBackCaller()
      requires Valid()
      modifies this, varReg, memVar
      ensures Valid() && last == old(last)
      ensures State() == I.WriteBackCaller(old(State()))
    {
      WriteBackOrder(I.Caller);
    }

    /** alloc_caller (ir_mips.c:98-107): the first free register of reg_caller. */
    method AllocCaller(x: nat) returns (reg: int)
      requires Valid() && x < memVar.Length
      modifies this, varReg
      ensures Valid()
      ensures reg == I.AllocCaller(old(State()), x, old(last)).reg
      ensures State() == I.AllocCaller(old(State()), x, old(last)).st
      ensures last == I.AllocCaller(old(State()), x, old(last)).last
    {
      I.ClassesUsable();
      var i := 0;
      while i < |I.Caller|
        invariant 0 <= i <= |I.Caller|
        invariant I.FirstFree(varReg[..], I.Caller, 0) == I.FirstFree(varReg[..], I.Caller, i)
      {
        if varReg[I.Caller[i]] < 0 {
          varReg[I.Caller[i]] := x;
          assert varReg[..] == old(varReg[..])[I.Caller[i] := x];
          last := i;
          return I.Caller[i] as int;
        }
        i := i + 1;
      }
      return -1;
    }

    /**
     * alloc_callee (ir_mips.c:109-119): the first free register of reg_callee, whose bit
     * is set in the saved mask.
     */
    method AllocCallee(x: nat) returns (reg: int)
      requires Valid() && x < memVar.Length
      modifies this, varReg
      ensures Valid()
      ensures reg == I.AllocCallee(old(State()), x, old(last)).reg
      ensures State() == I.AllocCallee(old(State()), x, old(last)).st
      ensures last == I.AllocCallee(old(State()), x, old(last)).last
    {
      I.ClassesUsable();
      var i := 0;
      while i < |I.Callee|
        invariant 0 <= i <= |I.Callee|
        invariant I.FirstFree(varReg[..], I.Callee, 0) == I.FirstFree(varReg[..], I.Callee, i)
      {
        if varReg[I.Callee[i]] < 0 {
          saved := saved | I.Mask(i);
          varReg[I.Callee[i]] := x;
          assert varReg[..] == old(varReg[..])[I.Callee[i] := x];
          last := 15 + i;
          return I.Callee[i] as int;
        }
        i := i + 1;
      }
      return -1;
    }

    /**
     * The end of alloc_reg (ir_mips.c:131-135), reached when neither class has a free
     * register: the register after `last` in reg_canuse is written back and given to `x`.
     */
    method EvictNext(x: nat) returns (reg: M.Reg)
      requires Valid() && x < memVar.Length
      requires State().regs[I.CanUse[(last + 1) % 23]] >= 0
      modifies this, varReg, memVar
      ensures Valid()
      ensures I.Evict(old(State()), x, old(last)) == I.Got(reg, State(), last)
    {
      last := (last + 1) % 23;
      reg := I.CanUse[last];
      WriteBack(reg);
      ghost var w := State();
      varReg[reg] := x;
      assert varReg[..] == w.regs[reg := x];
    }

    /** alloc_reg (ir_mips.c:121-136): the class order follows the cross_call bit. */
    method AllocReg(x: nat) returns (reg: M.Reg)
      requires Valid() && x < memVar.Length
      modifies this, varReg, memVar
      ensures Valid()
      ensures I.AllocReg(old(State()), x, old(last), x in crossCall) == I.Got(reg, State(), last)
    {
      if x in crossCall {
        reg := AllocCrossing(x);
      } else {
        reg := AllocLocal(x);
      }
    }

    /** alloc_reg for a variable live across a call (ir_mips.c:122-125, 131-135): `$s` first. */
    method AllocCrossing(x: nat) returns (reg: M.Reg)
      requires Valid() && x < memVar.Length
      modifies this, varReg, memVar
      ensures Valid()
      ensures I.AllocReg(old(State()), x, old(last), true) == I.Got(reg, State(), last)
    {
      var i := AllocCallee(x);
      if i > 0 { return i as M.Reg; }
      i := AllocCaller(x);
      if i > 0 { return i as M.Reg; }
      I.EvictFullIsEvict(State(), x, last);
      reg := EvictNext(x);
    }

    /** alloc_reg for any other variable (ir_mips.c:126-135): caller-saved registers first. */
    method AllocLocal(x: nat) returns (reg: M.Reg)
      requires Valid() && x < memVar.Length
      modifies this, varReg, memVar
      ensures Valid()
      ensures I.AllocReg(old(State()), x, old(last), false) == I.Got(reg, State(), last)
    {
      var i := AllocCaller(x);
      if i > 0 { return i as M.Reg; }
      i := AllocCallee(x);
      if i > 0 { return i as M.Reg; }
      I.EvictFullIsEvict(State(), x, last);
      reg := EvictNext(x);
    }

    /** The tail of get_rreg (ir_mips.c:150-159): a register allocated and loaded from the slot. */
    method LoadReg(x: nat) returns (reg: M.Reg)
      requires Valid() && x < memVar.Length
      modifies this, varReg, memVar
      ensures Valid()
      ensures I.LoadReg(old(State()), x, old(last), crossCall) == I.Got(reg, State(), last)
    {
      ghost var s0, last0 := State(), last;
      ghost var a := I.AllocReg(s0, x, last0, x in crossCall);
      reg := AllocReg(x);
      LoadSlot(s0, x, a, reg);
      I.LoadRegSteps(s0, x, last0, crossCall, a);
    }

    /** The load of get_rreg (ir_mips.c:157-158): `x` loaded from its slot into the register alloc_reg gave it. */
    method LoadSlot(ghost s0: I.St, x: nat, ghost a: I.Got, reg: M.Reg)
      requires Valid() && x < memVar.Length && I.Wf(s0) && |s0.mem| == memVar.Length
      requires I.Allocated(s0, x, a) && a == I.Got(reg, State(), last)
      modifies this, memVar
      ensures Valid() && last == old(last)
      ensures State() == I.LoadInto(s0, x, a).st
    {
      ghost var sl := I.Offset(a.st, x);
      var off := GetOffset(x);
      code := code + [M.Lw(reg, M.FP, -off)];
      assert State() == I.Emit(sl.st, M.Lw(a.reg, M.FP, -sl.off));
    }

    /** get_rreg (ir_mips.c:138-160). */
    method GetRReg(o: Opr) returns (reg: M.Reg)
      requires Valid() && I.OprIn(o, memVar.Length)
      modifies this, varReg, memVar
      ensures Valid()
      ensures reg == I.GetRReg(old(State()), o, old(last), crossCall).reg
      ensures State() == I.GetRReg(old(State()), o, old(last), crossCall).st
      ensures last == I.GetRReg(old(State()), o, old(last), crossCall).last
    {
      match o
      case Imm(v) =>
        if v == 0 {
          reg := M.Zero;
        } else {
          code := code + [M.Move(M.V1, M.I(v))];
          reg := M.V1;
        }
      case Var(x) =>
        var f := FindVarReg(x);
        if f > 0 {
          reg := f as M.Reg;
        } else {
          reg := LoadReg(x);
        }
    }

    /** get_ropr (ir_mips.c:162-170). */
    method GetROpr(o: Opr) returns (src: M.Src)
      requires Valid() && I.OprIn(o, memVar.Length)
      modifies this, varReg, memVar
      ensures Valid()
      ensures src == I.GetROpr(old(State()), o, old(last), crossCall).src
      ensures State() == I.GetROpr(old(State()), o, old(last), crossCall).st
      ensures last == I.GetROpr(old(State()), o, old(last), crossCall).last
    {
      if o.Imm? {
        src := M.I(o.val);
      } else {
        var reg := GetRReg(o);
        src := M.R(reg);
      }
    }

    /** get_lreg (ir_mips.c:172-180). */
    method GetLReg(x: nat) returns (reg: M.Reg)
      requires Valid() && x < memVar.Length
      modifies this, varReg, memVar
      ensures Valid()
      ensures reg == I.GetLReg(old(State()), x, old(last), crossCall).reg
      ensures State() == I.GetLReg(old(State()), x, old(last), crossCall).st
      ensures last == I.GetLReg(old(State()), x, old(last), crossCall).last
    {
      var f := FindVarReg(x);
      dirty := dirty + {x};
      if f > 0 {
        reg := f as M.Reg;
      } else {
        reg := AllocReg(x);
      }
    }

    /** clean_reg (ir_mips.c:182-190). */
    method CleanReg(live: set<nat>)
      requires Valid()
      modifies this, varReg
      ensures Valid() && last == old(last)
      ensures State() == I.Clean(old(State()), live)
    {
      var i := 0;
      while i < 32
        invariant 0 <= i <= 32 && Valid() && last == old(last)
        invariant State() == I.CleanUpTo(old(State()), live, i)
      {
        var x := varReg[i];
        if x >= 0 && x as nat !in live {
          varReg[i] := -1;
          dirty := dirty - {x as nat};
          assert varReg[..] == I.CleanUpTo(old(State()), live, i).regs[i := -1];
        }
        i := i + 1;
      }
    }

    /** pass_reg (ir_mips.c:192-216). */
    method PassReg(o: Opr, r: M.Reg)
      requires Valid() && I.OprIn(o, memVar.Length)
      modifies this, varReg, memVar
      ensures Valid() && last == old(last)
      ensures State() == I.PassReg(old(State()), o, r)
    {
      if o.Var? && varReg[r] == o.id {
        return;
      }
      if varReg[r] >= 0 {
        WriteBack(r);
      }
      ghost var v := State();
      assert v == I.Vacate(old(State()), r);
      match o
      case Var(x) =>
        var f := FindVarReg(x);
        if f > 0 {
          code := code + [M.Move(r, M.R(f as M.Reg))];
        } else {
          var off := GetOffset(x);
          code := code + [M.Lw(r, M.FP, -off)];
          varReg[r] := x;
          assert varReg[..] == v.regs[r := x];
        }
      case Imm(v) =>
        code := code + [M.Move(r, M.I(v))];
    }

    /** The FUNCTION visitor (ir_mips.c:233-244). */
    method VisitFunc(ps: seq<nat>)
      requires Valid() && forall p | p in ps :: p < memVar.Length
      modifies this, varReg, memVar
      ensures Valid() && last == old(last)
      ensures State() == I.Params(old(State()), ps, |ps|)
    {
      var i := 0;
      while i < |ps|
        invariant 0 <= i <= |ps| && Valid() && last == old(last)
        invariant State() == I.Params(old(State()), ps, i)
      {
        ghost var pre := State();
        assert ps[i] in ps;
        if i < 4 {
          varReg[4 + i] := ps[i];
          dirty := dirty + {ps[i]};
          assert varReg[..] == pre.regs[4 + i := ps[i]];
        } else {
          memVar[ps[i]] := I.ParamSlot(i);
          assert memVar[..] == pre.mem[ps[i] := I.ParamSlot(i)];
        }
        i := i + 1;
      }
    }

    /** The MOV visitor (ir_mips.c:246-255). */
    method VisitMov(d: nat, o: Opr, out: set<nat>)
      requires Valid() && d < memVar.Length && I.OprIn(o, memVar.Length)
      modifies this, varReg, memVar
      ensures Valid()
      ensures State() == I.MovCode(old(State()), d, o, out, old(last), crossCall).st
      ensures last == I.MovCode(old(State()), d, o, out, old(last), crossCall).last
    {
      var rhs := GetROpr(o);
      CleanReg(out);
      var lhs := GetLReg(d);
      if rhs != M.R(lhs) {
        code := code + [M.Move(lhs, rhs)];
      }
    }

    /** The arithmetic visitor (ir_mips.c:257-264). */
    method VisitArth(d: nat, o1: Opr, o2: Opr, op: ArithOp, out: set<nat>)
      requires Valid() && d < memVar.Length && I.OprIn(o1, memVar.Length) && I.OprIn(o2, memVar.Length)
      modifies this, varReg, memVar
      ensures Valid()
      ensures State() == I.ArthCode(old(State()), d, o1, o2, op, out, old(last), crossCall).st
      ensures last == I.ArthCode(old(State()), d, o1, o2, op, out, old(last), crossCall).last
    {
      var r1 := GetRReg(o1);
      var r2 := GetROpr(o2);
      CleanReg(out);
      var lhs := GetLReg(d);
      code := code + [M.Arth(lhs, r1, r2, op)];
    }

    /** The address visitor (ir_mips.c:266-273); false where its assert fails. */
    method VisitAddr(d: nat, v: nat) returns (ok: bool)
      requires Valid() && d < memVar.Length && v < memVar.Length
      modifies this, varReg, memVar
      ensures Valid()
      ensures ok == I.AddrCode(old(State()), d, v, old(last), crossCall).Some?
      ensures ok ==> State() == I.AddrCode(old(State()), d, v, old(last), crossCall).value.st
      ensures ok ==> last == I.AddrCode(old(State()), d, v, old(last), crossCall).value.last
    {
      var lhs := GetLReg(d);
      var off := memVar[v];
      if off == 0 {
        return false;
      }
      code := code + [M.Arth(lhs, M.FP, M.I(-off), Plus)];
      return true;
    }

    /** The load visitor (ir_mips.c:275-281). */
    method VisitLoad(d: nat, v: nat, out: set<nat>)
      requires Valid() && d < memVar.Length && v < memVar.Length
      modifies this, varReg, memVar
      ensures Valid()
      ensures State() == I.LoadCode(old(State()), d, v, out, old(last), crossCall).st
      ensures last == I.LoadCode(old(State()), d, v, out, old(last), crossCall).last
    {
      var rhs := GetRReg(Var(v));
      CleanReg(out);
      var lhs := GetLReg(d);
      code := code + [M.Lw(lhs, rhs, 0)];
    }

    /** The store visitor (ir_mips.c:283-288). */
    method VisitStore(v: nat, o: Opr)
      requires Valid() && v < memVar.Length && I.OprIn(o, memVar.Length)
      modifies this, varReg, memVar
      ensures Valid()
      ensures State() == I.StoreCode(old(State()), v, o, old(last), crossCall).st
      ensures last == I.StoreCode(old(State()), v, o, old(last), crossCall).last
    {
      var rhs := GetRReg(o);
      var lhs := GetRReg(Var(v));
      code := code + [M.Sw(lhs, 0, rhs)];
    }

    /** The goto visitor (ir_mips.c:290-295). */
    method VisitGoto(t: nat)
      requires Valid()
      modifies this, varReg, memVar
      ensures Valid() && last == old(last)
      ensures State() == I.GotoCode(old(State()), t)
    {
      WriteBackAll();
      code := code + [M.J(t)];
    }

    /** The branch visitor (ir_mips.c:297-305). */
    method VisitBranch(o1: Opr, o2: Opr, rel: Relop, t: nat, out: set<nat>)
      requires Valid() && I.OprIn(o1, memVar.Length) && I.OprIn(o2, memVar.Length)
      modifies this, varReg, memVar
      ensures Valid()
      ensures State() == I.BranchCode(old(State()), o1, o2, rel, t, out, old(last), crossCall).st
      ensures last == I.BranchCode(old(State()), o1, o2, rel, t, out, old(last), crossCall).last
    {
      var r1 := GetRReg(o1);
      var r2 := GetROpr(o2);
      CleanReg(out);
      WriteBackAll();
      code := code + [M.Bcc(r1, r2, rel, t)];
    }

    /** The return visitor (ir_mips.c:307-312). */
    method VisitRet(o: Opr)
      requires Valid() && I.OprIn(o, memVar.Length)
      modifies this, varReg, memVar
      ensures Valid() && last == old(last)
      ensures State() == I.RetCode(old(State()), o)
    {
      PassReg(o, M.V0);
      code := code + [M.Ret];
    }

    /** The DEC visitor (ir_mips.c:314-318); false where its assert fails. */
    method VisitAlloc(v: nat, n: int) returns (ok: bool)
      requires Valid() && v < memVar.Length
      modifies this, memVar
      ensures Valid() && last == old(last)
      ensures ok == (old(memVar[v]) == 0)
      ensures ok ==> State() == I.AllocCode(old(State()), v, n)
    {
      if memVar[v] != 0 {
        return false;
      }
      stack := stack + n;
      memVar[v] := stack;
      assert memVar[..] == old(memVar[..])[v := stack];
      return true;
    }

    /** One argument of a call (ir_mips.c:328-342). */
    method PassArg(o: Opr, i: nat)
      requires Valid() && I.OprIn(o, memVar.Length)
      modifies this, varReg, memVar
      ensures Valid() && last == old(last)
      ensures State() == I.PassArg(old(State()), o, i)
    {
      if i < 4 {
        PassReg(o, (4 + i) as M.Reg);
      } else {
        var reg: M.Reg := M.V1;
        if o.Var? {
          var f := FindVarReg(o.id);
          if f > 0 {
            reg := f as M.Reg;
          }
        }
        PassReg(o, reg);
        ghost var t := State();
        varReg[M.V1] := -1;
        assert varReg[..] == t.regs[M.V1 := -1];
        code := code + [M.Sw(M.SP, 4 * (i - 4), reg)];
      }
    }

    /** The first half of the CALL visitor (ir_mips.c:321-343): sp lowered, arguments passed. */
    method PassArgs(args: seq<Opr>)
      requires Valid() && forall a | a in args :: I.OprIn(a, memVar.Length)
      modifies this, varReg, memVar
      ensures Valid() && last == old(last)
      ensures State() == I.PassArgs(Lowered(old(State()), |args|), args, |args|)
    {
      if |args| > 4 {
        code := code + [M.Arth(M.SP, M.SP, M.I(4 * (4 - |args|)), Plus)];
      }
      assert State() == Lowered(old(State()), |args|);
      PassAll(args);
    }

    /** The loop of the CALL visitor over the arguments (ir_mips.c:328-343). */
    method PassAll(args: seq<Opr>)
      requires Valid() && forall a | a in args :: I.OprIn(a, memVar.Length)
      modifies this, varReg, memVar
      ensures Valid() && last == old(last)
      ensures State() == I.PassArgs(old(State()), args, |args|)
    {
      ghost var s0 := State();
      var i: nat := 0;
      while i < |args|
        invariant i <= |args| && Valid() && last == old(last) && |s0.mem| == memVar.Length
        invariant State() == I.PassArgs(s0, args, i)
      {
        PassNext(s0, args, i);
        i := i + 1;
      }
    }

    /** One turn of the argument loop: argument i passed after the first i. */
    method PassNext(ghost s0: I.St, args: seq<Opr>, i: nat)
      requires Valid() && I.Wf(s0) && i < |args| && |s0.mem| == memVar.Length
      requires forall a | a in args :: I.OprIn(a, |s0.mem|)
      requires State() == I.PassArgs(s0, args, i)
      modifies this, varReg, memVar
      ensures Valid() && last == old(last)
      ensures State() == I.PassArgs(s0, args, i + 1)
    {
      assert args[i] in args;
      PassArgsStep(s0, args, i);
      PassArg(args[i], i);
    }

    /** The second half of the CALL visitor (ir_mips.c:344-352), after `n` arguments. */
    method FinishCall(d: nat, f: string, n: nat, out: set<nat>)
      requires Valid() && d < memVar.Length
      modifies this, varReg, memVar
      ensures Valid() && last == old(last)
      ensures State() == CallTail(old(State()), d, f, n, out)
    {
      CleanReg(out);
      WriteBackCaller();
      code := code + [M.Jal(f)];
      if n > 4 {
        code := code + [M.Arth(M.SP, M.SP, M.I(4 * (n - 4)), Plus)];
      }
      ghost var s4 := State();
      varReg[M.V0] := d;
      dirty := dirty + {d};
      assert varReg[..] == s4.regs[M.V0 := d];
    }

    /** The CALL visitor (ir_mips.c:320-354). */
    method VisitCall(d: nat, f: string, args: seq<Opr>, out: set<nat>)
      requires Valid() && d < memVar.Length && forall a | a in args :: I.OprIn(a, memVar.Length)
      modifies this, varReg, memVar
      ensures Valid() && last == old(last)
      ensures State() == I.CallCode(old(State()), d, f, args, out)
    {
      PassArgs(args);
      FinishCall(d, f, |args|, out);
      CallArgsIsPassArgs(old(State()), args);
      CallCodeSplit(old(State()), d, f, args, out);
    }

    /** The READ visitor (ir_mips.c:356-362). */
    method VisitRead(v: nat)
      requires Valid() && v < memVar.Length
      modifies this, varReg, memVar
      ensures Valid() && last == old(last)
      ensures State() == I.ReadCode(old(State()), v)
    {
      WriteBackCaller();
      code := code + [M.Jal("read")];
      ghost var w := State();
      varReg[M.V0] := v;
      dirty := dirty + {v};
      assert varReg[..] == w.regs[M.V0 := v];
    }

    /** The WRITE visitor (ir_mips.c:364-370). */
    method VisitWrite(o: Opr, out: set<nat>)
      requires Valid() && I.OprIn(o, memVar.Length)
      modifies this, varReg, memVar
      ensures Valid() && last == old(last)
      ensures State() == I.WriteCode(old(State()), o, out)
    {
      PassReg(o, M.A0);
      CleanReg(out);
      WriteBackCaller();
      code := code + [M.Jal("write")];
    }

    /**
     * ir_visit through the visitor table (ir_mips.c:372-374): false where the visitor's
     * assert fails (a label, an address without a slot, a second DEC).
     */
    method Visit(x: Instr, out: set<nat>) returns (ok: bool)
      requires Valid() && I.InstrIn(x, memVar.Length)
      modifies this, varReg, memVar
      ensures Valid()
      ensures ok == I.Translate(old(State()), x, out, old(last), crossCall).Some?
      ensures ok ==> State() == I.Translate(old(State()), x, out, old(last), crossCall).value.st
      ensures ok ==> last == I.Translate(old(State()), x, out, old(last), crossCall).value.last
    {
      ok := true;
      match x
      case Nop =>
      case Label(_) => ok := false;
      case Func(_, ps) => VisitFunc(ps);
      case Mov(d, o) => VisitMov(d, o, out);
      case Arth(d, o1, o2, op) => VisitArth(d, o1, o2, op, out);
      case Addr(d, v) => ok := VisitAddr(d, v);
      case Load(d, v) => VisitLoad(d, v, out);
      case Store(v, o) => VisitStore(v, o);
      case Goto(t, _) => VisitGoto(t);
      case Branch(o1, o2, rel, t, _) => VisitBranch(o1, o2, rel, t, out);
      case Ret(o) => VisitRet(o);
      case Alloc(v, n) => ok := VisitAlloc(v, n);
      case Call(d, f, args) => VisitCall(d, f, args, out);
      case Read(v) => VisitRead(v);
      case Write(o) => VisitWrite(o, out);
    }

    /** The start of ir_mips_bb (ir_mips.c:381-386): every register and dirty bit cleared, the label. */
    method StartBlock(b: IrProgram.Block)
      requires Valid()
      modifies this, varReg
      ensures Valid() && last == old(last)
      ensures State() == I.BlockStart(old(State()), b)
    {
      forall r | 0 <= r < 32 {
        varReg[r] := -1;
      }
      I.FreeAll();
      assert varReg[..] == I.Free;
      dirty := {};
      if b.lbl.Some? {
        code := code + [M.Label(b.lbl.value)];
      }
    }

    /**
     * One turn of the loop of ir_mips_bb (ir_mips.c:388-393) on instruction i, after the
     * block's first instructions took it from `s1` to the current state: false where an
     * assert fails.
     */
    method BlockStep(ghost s1: I.St, ghost last1: nat, irs: seq<Instr>, b: IrProgram.Block, i: nat,
                     ins: seq<set<nat>>, outs: seq<set<nat>>, ended: bool) returns (ok: bool)
      requires Valid() && i < b.end && |s1.mem| == memVar.Length
      requires BodyAt(s1, irs, b, ins, outs, last1, crossCall, i, State(), last, ended)
      modifies this, varReg, memVar
      ensures Valid()
      ensures ok ==> BodyAt(s1, irs, b, ins, outs, last1, crossCall, i + 1, State(), last, I.Ends(irs[i]))
      ensures !ok ==> I.Body(s1, irs, b.start, b.end, ins, outs, last1, crossCall).None?
    {
      assert I.InstrIn(irs[i], memVar.Length);
      if ended {
        BodyAtFails(s1, irs, b, ins, outs, last1, crossCall, i, State(), last, ended);
        return false;
      }
      ghost var st, last0 := State(), last;
      CleanReg(ins[i]);
      ok := Visit(irs[i], outs[i]);
      if ok {
        BodyAtStep(s1, irs, b, ins, outs, last1, crossCall, i, st, last0, State(), last);
      } else {
        BodyAtFails(s1, irs, b, ins, outs, last1, crossCall, i, st, last0, ended);
      }
    }

    /**
     * ir_mips_bb (ir_mips.c:378-398): false where an assert fails (an instruction after
     * one that ended the block, or a visitor's own).
     */
    method MipsBb(irs: seq<Instr>, b: IrProgram.Block, ins: seq<set<nat>>, outs: seq<set<nat>>) returns (ok: bool)
      requires Valid() && b.start < b.end <= |irs| <= |ins| && |irs| <= |outs|
      requires I.RangeIn(irs, b.start, b.end, memVar.Length)
      modifies this, varReg, memVar
      ensures Valid()
      ensures ok == I.BlockCode(old(State()), irs, b, ins, outs, old(last), crossCall).Some?
      ensures ok ==> State() == I.BlockCode(old(State()), irs, b, ins, outs, old(last), crossCall).value.st
      ensures ok ==> last == I.BlockCode(old(State()), irs, b, ins, outs, old(last), crossCall).value.last
    {
      StartBlock(b);
      ghost var s1 := State();
      var ended;
      ok, ended := BlockBody(s1, irs, b, ins, outs);
      if !ok {
        return false;
      }
      if !ended {
        CleanReg(outs[b.end - 1]);
        WriteBackAll();
      }
      return true;
    }

    /** The loop of ir_mips_bb (ir_mips.c:386-393) over the block's instructions, from `s1`. */
    method BlockBody(ghost s1: I.St, irs: seq<Instr>, b: IrProgram.Block, ins: seq<set<nat>>,
                     outs: seq<set<nat>>) returns (ok: bool, ended: bool)
      requires Valid() && b.start < b.end <= |irs| <= |ins| && |irs| <= |outs|
      requires I.RangeIn(irs, b.start, b.end, memVar.Length) && s1 == State()
      modifies this, varReg, memVar
      ensures Valid()
      ensures ok == I.Body(s1, irs, b.start, b.end, ins, outs, old(last), crossCall).Some?
      ensures ok ==> I.Body(s1, irs, b.start, b.end, ins, outs, old(last), crossCall) == Some(I.Run(State(), last, ended))
    {
      ghost var last1 := last;
      ended := false;
      var i := b.start;
      while i < b.end
        invariant Valid() && |s1.mem| == memVar.Length
        invariant BodyAt(s1, irs, b, ins, outs, last1, crossCall, i, State(), last, ended)
      {
        ok := BlockStep(s1, last1, irs, b, i, ins, outs, ended);
        if !ok {
          return false, ended;
        }
        ended := I.Ends(irs[i]);
        i := i + 1;
      }
      return true, ended;
    }

    /** The frame size of ir_mips_cfg (ir_mips.c:410-415): the slots and a word per saved register. */
    method FrameTotal() returns (total: int)
      ensures total == I.FrameSize(stack, saved)
    {
      total := stack;
      var r := 16;
      while r < 24
        invariant 16 <= r <= 24
        invariant total == stack + 4 * |I.SavedRegs(saved, r - 16)|
      {
        SavedRegsStep(saved, r - 16);
        if I.SavedBit(saved, r - 16) {
          total := total + 4;
        }
        r := r + 1;
      }
    }

    /** The loop of ir_mips_cfg over `$s0`-`$s7` (ir_mips.c:424-431): a store and a load per saved register. */
    method SaveCode() returns (saves: seq<M.Asm>, restores: seq<M.Asm>)
      ensures saves == I.Saves(I.SavedRegs(saved, 8), 0)
      ensures restores == I.Restores(I.SavedRegs(saved, 8), 0)
    {
      var mask := saved;
      saves, restores := [], [];
      ghost var rs: seq<M.Reg> := [];
      var j := 0;
      var k := 0;
      while k < 8
        invariant 0 <= k <= 8 && rs == I.SavedRegs(mask, k)
        invariant saves == I.Saves(rs, 0) && restores == I.Restores(rs, 0) && j == 4 * |rs|
      {
        SavedRegsStep(mask, k);
        if I.SavedBit(mask, k) {
          var r := (16 + k) as M.Reg;
          SaveStep(rs, r, saves, j);
          RestoreStep(rs, r, restores, j);
          saves := saves + [M.Sw(M.SP, j, r)];
          restores := restores + [M.Lw(r, M.SP, j)];
          rs := rs + [r];
          j := j + 4;
        }
        k := k + 1;
      }
    }

    /**
     * The prologue and the epilogue of ir_mips_cfg (ir_mips.c:410-435), from the frame
     * size and the saved mask the blocks left.
     */
    method FrameCode(name: string)
      modifies this
      ensures entry == I.Entry(name, stack, saved) && exit == I.Exit(saved)
      ensures State() == old(State()) && last == old(last)
    {
      var total := FrameTotal();
      var saves, restores := SaveCode();
      entry := I.Prologue(name, total) + saves;
      exit := restores + I.Epilogue;
    }

    /** One turn of the first loop of ir_mips_cfg (ir_mips.c:405-409), on block k. */
    method CfgStep(ghost s0: I.St, ghost last0: nat, irs: seq<Instr>, bbs: seq<IrProgram.Block>, reach: seq<bool>,
                   ins: seq<set<nat>>, outs: seq<set<nat>>, k: nat) returns (ok: bool)
      requires Valid() && k < |bbs| && BlocksAt(s0, irs, bbs, reach, ins, outs, last0, crossCall, k, State(), last)
      modifies this, varReg, memVar
      ensures Valid() && BlocksArgs(s0, irs, bbs, reach, ins, outs, |bbs|)
      ensures ok ==> BlocksAt(s0, irs, bbs, reach, ins, outs, last0, crossCall, k + 1, State(), last)
      ensures !ok ==> I.Blocks(s0, irs, bbs, reach, ins, outs, last0, crossCall, |bbs|).None?
    {
      ok := true;
      if reach[k] {
        ok := MipsBb(irs, bbs[k], ins, outs);
        if !ok {
          BlocksNoneStays(s0, irs, bbs, reach, ins, outs, last0, crossCall, k + 1, |bbs|);
        }
      }
    }

    /** The first loop of ir_mips_cfg (ir_mips.c:405-409): the reachable blocks in order. */
    method MipsBlocks(irs: seq<Instr>, bbs: seq<IrProgram.Block>, reach: seq<bool>,
                      ins: seq<set<nat>>, outs: seq<set<nat>>) returns (ok: bool)
      requires Valid() && BlocksArgs(State(), irs, bbs, reach, ins, outs, |bbs|)
      modifies this, varReg, memVar
      ensures Valid()
      ensures ok == I.Blocks(old(State()), irs, bbs, reach, ins, outs, old(last), crossCall, |bbs|).Some?
      ensures ok ==> (I.Blocks(old(State()), irs, bbs, reach, ins, outs, old(last), crossCall, |bbs|) ==
        Some(I.Step(State(), last)))
    {
      ghost var s0 := State();
      ghost var last0: nat := last;
      var k: nat := 0;
      while k < |bbs|
        invariant Valid() && BlocksAt(s0, irs, bbs, reach, ins, outs, last0, crossCall, k, State(), last)
      {
        ok := CfgStep(s0, last0, irs, bbs, reach, ins, outs, k);
        if !ok {
          return;
        }
        k := k + 1;
      }
      ok := true;
    }

    /**
     * ir_mips_cfg (ir_mips.c:400-436): the reachable blocks translated in order, then the
     * prologue and the epilogue; false where an assert fails.
     */
    method MipsCfg(name: string, irs: seq<Instr>, bbs: seq<IrProgram.Block>, reach: seq<bool>,
                   ins: seq<set<nat>>, outs: seq<set<nat>>) returns (ok: bool)
      requires Valid() && BlocksArgs(State(), irs, bbs, reach, ins, outs, |bbs|)
      modifies this, varReg, memVar
      ensures Valid()
      ensures ok == I.Blocks(old(State()), irs, bbs, reach, ins, outs, old(last), crossCall, |bbs|).Some?
      ensures ok ==> (I.Blocks(old(State()), irs, bbs, reach, ins, outs, old(last), crossCall, |bbs|) ==
        Some(I.Step(State(), last)))
      ensures ok ==> entry == I.Entry(name, stack, saved) && exit == I.Exit(saved)
    {
      ok := MipsBlocks(irs, bbs, reach, ins, outs);
      if ok {
        FrameCode(name);
      }
    }
  }

  /**
   * The body of the loop of ir_mips (ir_mips.c:442-445) on a reachable function: a
   * fresh record (ir_mips_init) with the cursor where the previous function left it,
   * then ir_mips_cfg; false where an assert fails.
   */
  method MipsFunc(f: I.Func, vars: nat, cursor: nat) returns (ok: bool, e: M.Emitted, last: nat)
    requires I.FuncOk(f, vars)
    ensures ok == I.Blocks(I.Fresh(vars), f.irs, f.bbs, f.reach, f.ins, f.outs, cursor, f.cross, |f.bbs|).Some?
    ensures ok ==> I.Blocks(I.Fresh(vars), f.irs, f.bbs, f.reach, f.ins, f.outs, cursor, f.cross, |f.bbs|) ==
                   Some(I.Step(I.Blocks(I.Fresh(vars), f.irs, f.bbs, f.reach, f.ins, f.outs, cursor, f.cross, |f.bbs|).value.st, last))
    ensures ok ==> e == I.Translated(f, I.Blocks(I.Fresh(vars), f.irs, f.bbs, f.reach, f.ins, f.outs, cursor, f.cross, |f.bbs|).value)
  {
    var res := new MipsRes(vars, f.cross, cursor);
    ok := res.MipsCfg(f.name, f.irs, f.bbs, f.reach, f.ins, f.outs);
    e := M.Emitted(true, res.entry, res.code, res.exit);
    last := res.last;
  }

  /**
   * ir_mips (ir_mips.c:438-447): a fresh record for every reachable function
   * (ir_mips_init), translated by ir_mips_cfg, with the round-robin cursor handed from
   * one function to the next; false where an assert fails.
   */
  method IrMipsRun(fs: seq<I.Func>, vars: nat, last0: nat) returns (ok: bool, out: seq<M.Emitted>, last: nat)
    requires forall i | 0 <= i < |fs| :: I.FuncOk(fs[i], vars)
    ensures ok == I.MipsProgram(fs, vars, last0, |fs|).Some?
    ensures ok ==> I.MipsProgram(fs, vars, last0, |fs|) == Some((out, last))
  {
    out, last := [], last0;
    for i := 0 to |fs|
      invariant I.MipsProgram(fs, vars, last0, i) == Some((out, last))
    {
      var f := fs[i];
      if f.reachable {
        var fine, e, next := MipsFunc(f, vars, last);
        ProgramStep(fs, vars, last0, i, out, last, fine, e, next);
        if !fine {
          I.MipsProgramNoneStays(fs, vars, last0, i + 1, |fs|);
          return false, out, last;
        }
        out, last := out + [e], next;
      } else {
        ProgramSkip(fs, vars, last0, i, out, last);
        out := out + [M.Emitted(false, [], [], [])];
      }
    }
    ok := true;
  }

  /** One turn of the loop of ir_mips on a reachable function, ... */
  lemma ProgramStep(fs: seq<I.Func>, vars: nat, last0: nat, i: nat, out: seq<M.Emitted>, last: nat,
                    ok: bool, e: M.Emitted, next: nat)
    requires i < |fs| && fs[i].reachable && forall j | 0 <= j < |fs| :: I.FuncOk(fs[j], vars)
    requires I.MipsProgram(fs, vars, last0, i) == Some((out, last))
    requires ok == I.Blocks(I.Fresh(vars), fs[i].irs, fs[i].bbs, fs[i].reach, fs[i].ins, fs[i].outs, last, fs[i].cross,
                            |fs[i].bbs|).Some?
    requires ok ==> I.Blocks(I.Fresh(vars), fs[i].irs, fs[i].bbs, fs[i].reach, fs[i].ins, fs[i].outs, last, fs[i].cross,
                             |fs[i].bbs|) ==
                    Some(I.Step(I.Blocks(I.Fresh(vars), fs[i].irs, fs[i].bbs, fs[i].reach, fs[i].ins, fs[i].outs, last,
                                         fs[i].cross, |fs[i].bbs|).value.st, next))
    requires ok ==> e == I.Translated(fs[i], I.Blocks(I.Fresh(vars), fs[i].irs, fs[i].bbs, fs[i].reach, fs[i].ins,
                                                      fs[i].outs, last, fs[i].cross, |fs[i].bbs|).value)
    ensures ok ==> I.MipsProgram(fs, vars, last0, i + 1) == Some((out + [e], next))
    ensures !ok ==> I.MipsProgram(fs, vars, last0, i + 1).None?
  {
  }

  /** ... and on one that is not reached. */
  lemma ProgramSkip(fs: seq<I.Func>, vars: nat, last0: nat, i: nat, out: seq<M.Emitted>, last: nat)
    requires i < |fs| && !fs[i].reachable && forall j | 0 <= j < |fs| :: I.FuncOk(fs[j], vars)
    requires I.MipsProgram(fs, vars, last0, i) == Some((out, last))
    ensures I.MipsProgram(fs, vars, last0, i + 1) == Some((out + [M.Emitted(false, [], [], [])], last))
  {
  }

  /** One turn of the loop of write_back_all: register r written back if it holds a variable. */
  function WriteBackStep(s: I.St, r: M.Reg): I.St
    requires I.Wf(s)
  {
    if s.regs[r] >= 0 then I.WriteBack(s, r) else s
  }

  /** WriteBackList over one more register is one more turn of the loop. */
  lemma WriteBackListSnoc(st: I.St, order: seq<M.Reg>, i: nat)
    requires I.Wf(st) && i < |order|
    ensures I.Wf(I.WriteBackList(st, order[..i]))
    ensures I.WriteBackList(st, order[..i + 1]) == WriteBackStep(I.WriteBackList(st, order[..i]), order[i])
  {
    assert order[..i + 1][..i] == order[..i];
  }

  /** The part of CallCode after the arguments are passed. */
  function CallTail(s1: I.St, d: nat, f: string, n: nat, out: set<nat>): I.St
    requires I.Wf(s1) && d < |s1.mem|
  {
    var s2 := I.WriteBackCaller(I.Clean(s1, out));
    var s3 := I.Emit(s2, M.Jal(f));
    var s4 := if n > 4 then I.Emit(s3, M.Arth(M.SP, M.SP, M.I(4 * (n - 4)), Plus)) else s3;
    s4.(regs := s4.regs[M.V0 := d], dirty := s4.dirty + {d})
  }

  /** CallCode is the arguments passed, then CallTail. */
  lemma CallCodeSplit(st: I.St, d: nat, f: string, args: seq<Opr>, out: set<nat>)
    requires I.Wf(st) && d < |st.mem| && forall a | a in args :: I.OprIn(a, |st.mem|)
    ensures |I.CallArgs(st, args).mem| == |st.mem|
    ensures I.CallCode(st, d, f, args, out) == CallTail(I.CallArgs(st, args), d, f, |args|, out)
  {
  }

  /** What Body asks of its arguments, up to instruction j. */
  predicate BodyArgs(st: I.St, irs: seq<Instr>, start: nat, j: nat, ins: seq<set<nat>>, outs: seq<set<nat>>)
  {
    start <= j <= |irs| <= |ins| && |irs| <= |outs| && I.Wf(st) && I.RangeIn(irs, start, j, |st.mem|)
  }

  /** Once the loop of ir_mips_bb has failed it stays failed. */
  lemma {:induction false} BodyNoneStays(st: I.St, irs: seq<Instr>, start: nat, i: nat, j: nat,
                                         ins: seq<set<nat>>, outs: seq<set<nat>>, last: nat, cross: set<nat>)
    requires i <= j && BodyArgs(st, irs, start, j, ins, outs) && start <= i
    requires I.Body(st, irs, start, i, ins, outs, last, cross).None?
    ensures I.Body(st, irs, start, j, ins, outs, last, cross).None?
    decreases j
  {
    if j > i {
      assert BodyArgs(st, irs, start, j - 1, ins, outs);
      BodyNoneStays(st, irs, start, i, j - 1, ins, outs, last, cross);
    }
  }

  /** The invariant of the loop of ir_mips_bb: the block's instructions before i took s1 to
      (st, last, ended). */
  ghost predicate BodyAt(s1: I.St, irs: seq<Instr>, b: IrProgram.Block, ins: seq<set<nat>>,
                         outs: seq<set<nat>>, last1: nat, cross: set<nat>, i: nat, st: I.St, last: nat,
                         ended: bool)
  {
    b.start <= i <= b.end && BodyArgs(s1, irs, b.start, b.end, ins, outs) &&
    I.Body(s1, irs, b.start, i, ins, outs, last1, cross) == Some(I.Run(st, last, ended))
  }

  /** A turn of the loop of ir_mips_bb that translates instruction i extends the run. */
  lemma BodyAtStep(s1: I.St, irs: seq<Instr>, b: IrProgram.Block, ins: seq<set<nat>>,
                   outs: seq<set<nat>>, last1: nat, cross: set<nat>, i: nat, st: I.St, last: nat,
                   st': I.St, last': nat)
    requires i < b.end && BodyAt(s1, irs, b, ins, outs, last1, cross, i, st, last, false)
    requires I.Translate(I.Clean(st, ins[i]), irs[i], outs[i], last, cross) == Some(I.Step(st', last'))
    ensures BodyAt(s1, irs, b, ins, outs, last1, cross, i + 1, st', last', I.Ends(irs[i]))
  {
    assert BodyArgs(s1, irs, b.start, i + 1, ins, outs);
  }

  /** A turn of the loop of ir_mips_bb that fails fails the whole block. */
  lemma BodyAtFails(s1: I.St, irs: seq<Instr>, b: IrProgram.Block, ins: seq<set<nat>>,
                    outs: seq<set<nat>>, last1: nat, cross: set<nat>, i: nat, st: I.St, last: nat,
                    ended: bool)
    requires i < b.end && BodyAt(s1, irs, b, ins, outs, last1, cross, i, st, last, ended)
    requires ended || I.Translate(I.Clean(st, ins[i]), irs[i], outs[i], last, cross).None?
    ensures I.Body(s1, irs, b.start, b.end, ins, outs, last1, cross).None?
  {
    assert BodyArgs(s1, irs, b.start, i + 1, ins, outs);
    BodyNoneStays(s1, irs, b.start, i + 1, b.end, ins, outs, last1, cross);
  }

  /** What Blocks asks of its arguments. */
  predicate BlocksArgs(st: I.St, irs: seq<Instr>, bbs: seq<IrProgram.Block>, reach: seq<bool>,
                       ins: seq<set<nat>>, outs: seq<set<nat>>, n: nat)
  {
    n <= |bbs| == |reach| && |irs| <= |ins| && |irs| <= |outs| && I.Wf(st) && I.BlocksIn(irs, bbs, |st.mem|)
  }

  /** The invariant of the first loop of ir_mips_cfg: bbs[..k] translated from s0 reach (st, last). */
  ghost predicate BlocksAt(s0: I.St, irs: seq<Instr>, bbs: seq<IrProgram.Block>, reach: seq<bool>,
                           ins: seq<set<nat>>, outs: seq<set<nat>>, last0: nat, cross: set<nat>,
                           k: nat, st: I.St, last: nat)
  {
    k <= |bbs| && BlocksArgs(s0, irs, bbs, reach, ins, outs, |bbs|) && |st.mem| == |s0.mem|
    && I.Blocks(s0, irs, bbs, reach, ins, outs, last0, cross, k) == Some(I.Step(st, last))
  }

  /** Once the loop of ir_mips_cfg has failed it stays failed. */
  lemma {:induction false} BlocksNoneStays(st: I.St, irs: seq<Instr>, bbs: seq<IrProgram.Block>, reach: seq<bool>,
                                           ins: seq<set<nat>>, outs: seq<set<nat>>, last: nat, cross: set<nat>,
                                           k: nat, n: nat)
    requires k <= n && BlocksArgs(st, irs, bbs, reach, ins, outs, n)
    requires I.Blocks(st, irs, bbs, reach, ins, outs, last, cross, k).None?
    ensures I.Blocks(st, irs, bbs, reach, ins, outs, last, cross, n).None?
    decreases n
  {
    if n > k {
      BlocksNoneStays(st, irs, bbs, reach, ins, outs, last, cross, k, n - 1);
    }
  }

  /** One more saved register adds one store and one load at the next word. */
  lemma {:induction false} SavesSnoc(rs: seq<M.Reg>, r: M.Reg, j: nat)
    ensures I.Saves(rs + [r], j) == I.Saves(rs, j) + [M.Sw(M.SP, 4 * (j + |rs|), r)]
    ensures I.Restores(rs + [r], j) == I.Restores(rs, j) + [M.Lw(r, M.SP, 4 * (j + |rs|))]
    decreases |rs|
  {
    if rs != [] {
      assert (rs + [r])[1..] == rs[1..] + [r];
      SavesSnoc(rs[1..], r, j + 1);
    }
  }

  /** One more saved register: a store at the next word, */
  lemma SaveStep(rs: seq<M.Reg>, r: M.Reg, saves: seq<M.Asm>, j: int)
    requires saves == I.Saves(rs, 0) && j == 4 * |rs|
    ensures saves + [M.Sw(M.SP, j, r)] == I.Saves(rs + [r], 0)
  {
  }

  /** and a load from it. */
  lemma RestoreStep(rs: seq<M.Reg>, r: M.Reg, restores: seq<M.Asm>, j: int)
    requires restores == I.Restores(rs, 0) && j == 4 * |rs|
    ensures restores + [M.Lw(r, M.SP, j)] == I.Restores(rs + [r], 0)
  {
  }

  /** SavedRegs over one more register of the mask. */
  lemma SavedRegsStep(saved: bv8, k: nat)
    requires k < 8
    ensures I.SavedRegs(saved, k + 1) ==
      if I.SavedBit(saved, k) then I.SavedRegs(saved, k) + [(16 + k) as M.Reg] else I.SavedRegs(saved, k)
  {
  }

  /** The state after sp is lowered for the arguments of a call past the fourth. */
  function Lowered(st: I.St, n: nat): (s: I.St)
    ensures s == st.(code := s.code)
    ensures n <= 4 ==> s == st
  {
    if n > 4 then I.Emit(st, M.Arth(M.SP, M.SP, M.I(4 * (4 - n)), Plus)) else st
  }

  /** CallArgs is sp lowered, then PassArgs over every argument. */
  lemma CallArgsIsPassArgs(st: I.St, args: seq<Opr>)
    requires I.Wf(st) && forall a | a in args :: I.OprIn(a, |st.mem|)
    ensures I.CallArgs(st, args) == I.PassArgs(Lowered(st, |args|), args, |args|)
  {
  }

  /** PassArgs over one more argument is one more PassArg. */
  lemma PassArgsStep(st: I.St, args: seq<Opr>, i: nat)
    requires I.Wf(st) && i < |args| && forall a | a in args :: I.OprIn(a, |st.mem|)
    ensures |I.PassArgs(st, args, i).mem| == |st.mem|
    ensures I.PassArgs(st, args, i + 1) == I.PassArg(I.PassArgs(st, args, i), args[i], i)
  {
  }
}
