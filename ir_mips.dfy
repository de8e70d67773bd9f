/**
 * The register allocator and frame layout of the MIPS back end (ir_mips.c).
 *
 * The allocator state of one function is:
 * - the register table (`var_reg`: the variable each register holds, -1 when free);
 * - the dirty variables (`dirty_var`: held in a register and newer than their slot);
 * - the slot table (`mem_var`: each variable's offset below fp, 0 while it has none);
 * - the frame size, the mask of the `$s` registers used, and the code emitted so far.
 *
 * The functions below give each step of ir_mips.c as a transition on that state, as a
 * value (`St`). The class `MipsRes` (module MipsResClass, mips_res.dfy) holds the same
 * state in arrays and fields, and each of its methods is proved to perform the transition
 * its function here describes.
 */
module IrMips {
  import opened Base
  import opened IrTypes
  import M = Mips
  import IrProgram

  /** reg_caller (ir_mips.c:35-38): $a0-$a3, $v0, $t0-$t9. */
  const Caller: seq<M.Reg> := [4, 5, 6, 7, 2, 8, 9, 10, 11, 12, 13, 14, 15, 24, 25]

  /** reg_callee (ir_mips.c:40-42): $s0-$s7. */
  const Callee: seq<M.Reg> := [16, 17, 18, 19, 20, 21, 22, 23]

  /** reg_canuse (ir_mips.c:44-48), reg_caller then reg_callee: the round-robin order of eviction. */
  const CanUse: seq<M.Reg> := Caller + Callee

  /** All registers in number order, the order of write_back_all and clean_reg. */
  const AllRegs: seq<M.Reg> := [0, 1, 2, 3, 4, 5, 6, 7, 8, 9, 10, 11, 12, 13, 14, 15,
                               16, 17, 18, 19, 20, 21, 22, 23, 24, 25, 26, 27, 28, 29, 30, 31]

  /** The registers the allocator hands out. */
  predicate Usable(r: int) { r == 2 || 4 <= r <= 25 }

  /** The allocator state of one function. */
  datatype St = St(regs: seq<int>, dirty: set<nat>, mem: seq<int>, stack: int,
                   saved: bv8, code: seq<M.Asm>)

  /** A register table of 32 entries, each -1 or a variable with an entry in the slot table. */
  predicate Wf(st: St)
  {
    |st.regs| == 32 && forall r | 0 <= r < 32 :: -1 <= st.regs[r] < |st.mem|
  }

  function Emit(st: St, a: M.Asm): St { st.(code := st.code + [a]) }

  /** CALLEE_SAVED_MASK(S0 + k). */
  function Mask(k: nat): bv8
    requires k < 8
  {
    (1 as bv8) << k
  }

  predicate SavedBit(b: bv8, k: nat)
    requires k < 8
  {
    b & Mask(k) != 0
  }

  predicate Resident(regs: seq<int>, x: int)
  {
    exists r | 0 <= r < |regs| :: regs[r] == x
  }

  /**
   * The slot table is consistent: the frame size is not negative, every offset lies
   * within the frame, and no two variables share a positive offset.
   */
  predicate MemOk(st: St)
  {
    0 <= st.stack &&
    (forall y | 0 <= y < |st.mem| :: st.mem[y] <= st.stack) &&
    (forall y, z | 0 <= y < z < |st.mem| && 0 < st.mem[y] :: st.mem[y] != st.mem[z])
  }

  /**
   * What every step keeps: code is only appended to, the slot table keeps its size,
   * an offset once given never moves, and the frame never shrinks.
   */
  predicate Grows(st: St, s: St)
  {
    st.code <= s.code && |s.mem| == |st.mem| && st.stack <= s.stack &&
    (forall y | 0 <= y < |st.mem| && st.mem[y] != 0 :: s.mem[y] == st.mem[y]) &&
    (MemOk(st) ==> MemOk(s))
  }

  /**
   * The invariant of the allocator between steps:
   * - only usable registers hold variables;
   * - every dirty variable is held in some register;
   * - every `$s` register in use has its bit in the saved mask;
   * - the slot table is consistent.
   */
  ghost predicate Inv(st: St)
  {
    InvBut(st, -1)
  }

  /** Inv, except that `x` may be dirty without being held (get_lreg sets the bit first). */
  ghost predicate InvBut(st: St, x: int)
  {
    Wf(st) &&
    (forall r | 0 <= r < 32 && st.regs[r] >= 0 :: Usable(r)) &&
    (forall y | y in st.dirty :: y < |st.mem|) &&
    (forall y | y in st.dirty && y != x :: Resident(st.regs, y)) &&
    (forall r | 16 <= r < 24 && st.regs[r] >= 0 :: SavedBit(st.saved, r - 16)) &&
    MemOk(st)
  }

  lemma GrowsTrans(a: St, b: St, c: St)
    requires Grows(a, b) && Grows(b, c)
    ensures Grows(a, c)
  {
    assert a.code <= c.code by {
      assert c.code[..|a.code|] == b.code[..|b.code|][..|a.code|];
    }
  }

  /** find_var_reg (ir_mips.c:61-68), from register `i` on: the lowest register holding `x`. */
  function Find(regs: seq<int>, x: int, i: nat): (r: int)
    requires i <= |regs|
    ensures r == -1 || (i <= r < |regs| && regs[r] == x)
    ensures r >= 0 ==> forall j | i <= j < r :: regs[j] != x
    ensures r == -1 ==> forall j | i <= j < |regs| :: regs[j] != x
    decreases |regs| - i
  {
    if i == |regs| then -1 else if regs[i] == x then i else Find(regs, x, i + 1)
  }

  function FindReg(regs: seq<int>, x: int): int { Find(regs, x, 0) }

  lemma FindIffResident(regs: seq<int>, x: int)
    ensures FindReg(regs, x) >= 0 <==> Resident(regs, x)
  {
  }

  datatype Slot = Slot(off: int, st: St)

  /** get_offset (ir_mips.c:50-59): a variable without a slot gets the next 4 bytes. */
  function Offset(st: St, x: nat): (r: Slot)
    requires x < |st.mem|
    ensures r.st == st.(mem := r.st.mem, stack := r.st.stack) && Grows(st, r.st)
    ensures |r.st.mem| == |st.mem| && r.st.mem[x] == r.off
    ensures forall y | 0 <= y < |st.mem| && y != x :: r.st.mem[y] == st.mem[y]
  {
    if st.mem[x] == 0 then
      var n := st.stack + 4;
      var s := st.(mem := st.mem[x := n], stack := n);
      assert MemOk(st) ==> MemOk(s) by {
        if MemOk(st) {
          forall y, z | 0 <= y < z < |s.mem| && 0 < s.mem[y]
            ensures s.mem[y] != s.mem[z]
          {
            if y != x && z != x {
              assert s.mem[y] == st.mem[y] && s.mem[z] == st.mem[z];
            }
          }
        }
      }
      Slot(n, s)
    else
      Slot(st.mem[x], st)
  }

  /**
   * write_back (ir_mips.c:70-78): register `r` is freed; its variable is stored to its
   * slot first, and its dirty bit cleared, exactly when it is dirty.
   */
  function WriteBack(st: St, r: M.Reg): (s: St)
    requires Wf(st) && st.regs[r] >= 0
    ensures Wf(s) && Grows(st, s) && s.saved == st.saved
    ensures s.regs == st.regs[r := -1] && s.dirty == st.dirty - {st.regs[r] as nat}
    ensures st.regs[r] as nat in st.dirty ==>
      s.code == st.code + [M.Sw(M.FP, -s.mem[st.regs[r]], r)]
    ensures st.regs[r] as nat !in st.dirty ==>
      s.code == st.code && s.mem == st.mem && s.stack == st.stack
  {
    var x: nat := st.regs[r];
    var s1 := if x in st.dirty then
      var t := Offset(st, x);
      t.st.(code := t.st.code + [M.Sw(M.FP, -t.off, r)], dirty := t.st.dirty - {x})
    else st;
    s1.(regs := s1.regs[r := -1])
  }

  /** A write-back of the registers of `order` in turn, those that hold a variable. */
  function WriteBackList(st: St, order: seq<M.Reg>): (s: St)
    requires Wf(st)
    ensures Wf(s) && Grows(st, s) && s.saved == st.saved
    ensures forall r: M.Reg :: s.regs[r] == if r in order then -1 else st.regs[r]
    ensures forall x: nat :: x in s.dirty <==> x in st.dirty && forall r | r in order :: st.regs[r] != x
    decreases |order|
  {
    if order == [] then st
    else
      var s0 := WriteBackList(st, order[..|order| - 1]);
      var r := order[|order| - 1];
      assert order == order[..|order| - 1] + [r];
      assert forall q: M.Reg :: q in order <==> q in order[..|order| - 1] || q == r;
      var s := if s0.regs[r] >= 0 then WriteBack(s0, r) else s0;
      GrowsTrans(st, s0, s);
      s
  }

  /** write_back_all (ir_mips.c:80-86). */
  function WriteBackAll(st: St): (s: St)
    requires Wf(st)
    ensures Wf(s) && Grows(st, s)
  {
    WriteBackList(st, AllRegs)
  }

  /** write_back_caller (ir_mips.c:88-94). */
  function WriteBackCaller(st: St): (s: St)
    requires Wf(st)
    ensures Wf(s) && Grows(st, s)
  {
    WriteBackList(st, Caller)
  }

  /** The first position of `order`, from `i` on, whose register is free, or -1. */
  function FirstFree(regs: seq<int>, order: seq<M.Reg>, i: nat): (k: int)
    requires |regs| == 32 && i <= |order|
    ensures k == -1 || (i <= k < |order| && regs[order[k]] < 0)
    ensures k >= 0 ==> forall j | i <= j < k :: regs[order[j]] >= 0
    ensures k == -1 ==> forall j | i <= j < |order| :: regs[order[j]] >= 0
    decreases |order| - i
  {
    if i == |order| then -1
    else if regs[order[i]] < 0 then i
    else FirstFree(regs, order, i + 1)
  }

  lemma ClassesUsable()
    ensures forall k | 0 <= k < |Caller| :: Usable(Caller[k] as int)
    ensures forall k | 0 <= k < |Callee| :: Usable(Callee[k] as int)
  {
  }

  /** The result of alloc_caller/alloc_callee: the register (-1 if none) and `last_alloc_ureg_i`. */
  datatype Taken = Taken(reg: int, st: St, last: nat)

  /**
   * alloc_caller (ir_mips.c:98-107): the first free register of reg_caller is given to
   * `x`, and its position becomes `last`; with none free nothing changes.
   */
  function AllocCaller(st: St, x: nat, last: nat): (t: Taken)
    requires Wf(st) && x < |st.mem|
    ensures Wf(t.st) && t.st == st.(regs := t.st.regs)
    ensures t.reg == -1 ==> t == Taken(-1, st, last)
    ensures (t.reg == -1) == (FirstFree(st.regs, Caller, 0) == -1)
    ensures t.reg == -1 || Usable(t.reg)
    ensures t.reg != -1 ==> (t.last < |Caller| && t.reg == Caller[t.last] as int &&
      t.last == FirstFree(st.regs, Caller, 0) && t.st.regs == st.regs[t.reg := x])
  {
    var k := FirstFree(st.regs, Caller, 0);
    ClassesUsable();
    if k < 0 then Taken(-1, st, last)
    else Taken(Caller[k] as int, st.(regs := st.regs[Caller[k] := x]), k)
  }

  /**
   * alloc_callee (ir_mips.c:109-119): the same over reg_callee; taking `$s<k>` also sets
   * bit k of the saved mask, and `last` becomes its position in reg_canuse.
   */
  function AllocCallee(st: St, x: nat, last: nat): (t: Taken)
    requires Wf(st) && x < |st.mem|
    ensures Wf(t.st) && t.st == st.(regs := t.st.regs, saved := t.st.saved)
    ensures t.reg == -1 ==> t == Taken(-1, st, last)
    ensures (t.reg == -1) == (FirstFree(st.regs, Callee, 0) == -1)
    ensures t.reg == -1 || Usable(t.reg)
    ensures t.reg != -1 ==> (15 <= t.last < 23 && t.reg == Callee[t.last - 15] as int &&
      t.last - 15 == FirstFree(st.regs, Callee, 0) && t.st.regs == st.regs[t.reg := x] &&
      t.st.saved == st.saved | Mask(t.last - 15))
  {
    var k := FirstFree(st.regs, Callee, 0);
    ClassesUsable();
    if k < 0 then Taken(-1, st, last)
    else Taken(Callee[k] as int, st.(regs := st.regs[Callee[k] := x], saved := st.saved | Mask(k)), 15 + k)
  }

  lemma UsableIsCanUse(r: M.Reg)
    ensures r in CanUse <==> Usable(r as int)
  {
  }

  /** With neither class of registers free, every register of reg_canuse is taken. */
  lemma AllTaken(regs: seq<int>)
    requires |regs| == 32
    requires FirstFree(regs, Caller, 0) == -1 && FirstFree(regs, Callee, 0) == -1
    ensures forall k | 0 <= k < 23 :: regs[CanUse[k]] >= 0
  {
    forall k | 0 <= k < 23
      ensures regs[CanUse[k]] >= 0
    {
      if k < 15 {
        assert CanUse[k] == Caller[k];
      } else {
        assert CanUse[k] == Callee[k - 15];
      }
    }
  }

  /** The register, state and `last_alloc_ureg_i` after a register request. */
  datatype Got = Got(reg: M.Reg, st: St, last: nat)

  /**
   * The end of alloc_reg (ir_mips.c:132-135), reached with every usable register taken:
   * the register after `last` in reg_canuse is written back and given to `x`.
   */
  function Evict(st: St, x: nat, last: nat): (g: Got)
    requires Wf(st) && x < |st.mem| && st.regs[CanUse[(last + 1) % 23]] >= 0
    ensures Wf(g.st) && Grows(st, g.st) && g.st.regs[g.reg] == x
    ensures g.last == (last + 1) % 23 && CanUse[g.last] == g.reg
    ensures g.st.regs == st.regs[g.reg := x]
    ensures g.st.dirty == st.dirty - {st.regs[g.reg] as nat}
  {
    var k := (last + 1) % 23;
    var v := CanUse[k];
    var s := WriteBack(st, v);
    var s1 := s.(regs := s.regs[v := x]);
    assert Grows(s, s1);
    GrowsTrans(st, s, s1);
    Got(v, s1, k)
  }

  /** The register alloc_caller found free, given to `x`. */
  function GrantCaller(st: St, x: nat, last: nat): (g: Got)
    requires Wf(st) && x < |st.mem| && AllocCaller(st, x, last).reg > 0
    ensures Allocated(st, x, g)
  {
    var t := AllocCaller(st, x, last);
    Got(t.reg as M.Reg, t.st, t.last)
  }

  /** The register alloc_callee found free, given to `x`. */
  function GrantCallee(st: St, x: nat, last: nat): (g: Got)
    requires Wf(st) && x < |st.mem| && AllocCallee(st, x, last).reg > 0
    ensures Allocated(st, x, g)
  {
    var t := AllocCallee(st, x, last);
    Got(t.reg as M.Reg, t.st, t.last)
  }

  /** The end of alloc_reg, reached when neither class has a free register: Evict. */
  function EvictFull(st: St, x: nat, last: nat): (g: Got)
    requires Wf(st) && x < |st.mem|
    requires AllocCaller(st, x, last).reg <= 0 && AllocCallee(st, x, last).reg <= 0
    ensures Allocated(st, x, g)
  {
    AllTaken(st.regs);
    EvictAllocated(st, x, last);
    Evict(st, x, last)
  }

  /** With neither class free, the register after `last` holds a variable, and it is evicted. */
  lemma EvictFullIsEvict(st: St, x: nat, last: nat)
    requires Wf(st) && x < |st.mem|
    requires AllocCaller(st, x, last).reg <= 0 && AllocCallee(st, x, last).reg <= 0
    ensures st.regs[CanUse[(last + 1) % 23]] >= 0
    ensures EvictFull(st, x, last) == Evict(st, x, last)
  {
    AllTaken(st.regs);
  }

  /**
   * alloc_reg (ir_mips.c:121-136): a variable live across a call (`cross`) tries the
   * `$s` registers first and the others after; any other variable the reverse. With no
   * register free, Evict.
   */
  function AllocReg(st: St, x: nat, last: nat, cross: bool): (g: Got)
    requires Wf(st) && x < |st.mem|
    ensures Allocated(st, x, g)
  {
    if cross then
      if AllocCallee(st, x, last).reg > 0 then GrantCallee(st, x, last)
      else if AllocCaller(st, x, last).reg > 0 then GrantCaller(st, x, last)
      else EvictFull(st, x, last)
    else
      if AllocCaller(st, x, last).reg > 0 then GrantCaller(st, x, last)
      else if AllocCallee(st, x, last).reg > 0 then GrantCallee(st, x, last)
      else EvictFull(st, x, last)
  }

  /** Evicting the register after `last` is an allocation. */
  lemma EvictAllocated(st: St, x: nat, last: nat)
    requires Wf(st) && x < |st.mem| && st.regs[CanUse[(last + 1) % 23]] >= 0
    ensures Allocated(st, x, Evict(st, x, last))
  {
  }

  /**
   * What alloc_reg promises: `x` is now held in `g.reg`, which `g.last` names in
   * reg_canuse; no other register changes; the only variable that may stop being dirty is
   * the one written back from `g.reg`.
   */
  predicate Allocated(st: St, x: nat, g: Got)
    requires Wf(st)
  {
    && Wf(g.st) && Grows(st, g.st) && g.st.regs[g.reg] == x
    && g.last < 23 && CanUse[g.last] == g.reg
    && g.st.regs == st.regs[g.reg := x]
    && (g.st.dirty == st.dirty || (st.regs[g.reg] >= 0 && g.st.dirty == st.dirty - {st.regs[g.reg] as nat}))
  }

  /**
   * What get_rreg promises of a load: `x` is held in `g.reg`, which is not `$zero`; the
   * last instruction loads it from its slot; no variable becomes dirty.
   */
  predicate Loaded(st: St, x: nat, g: Got)
    requires x < |st.mem|
  {
    && Wf(g.st) && Grows(st, g.st) && g.st.dirty <= st.dirty
    && g.reg != M.Zero && g.st.regs[g.reg] == x
    && |g.st.code| > 0 && g.st.code[|g.st.code| - 1] == M.Lw(g.reg, M.FP, -g.st.mem[x])
  }

  /** An operand whose variable, if any, has an entry in a slot table of `n` entries. */
  predicate OprIn(o: Opr, n: nat) { o.Var? ==> o.id < n }

  /**
   * get_rreg (ir_mips.c:150-159) on a variable not held: a register from alloc_reg is
   * loaded from the variable's slot.
   */
  function LoadReg(st: St, x: nat, last: nat, cross: set<nat>): (g: Got)
    requires Wf(st) && x < |st.mem|
    ensures Loaded(st, x, g)
  {
    LoadInto(st, x, AllocReg(st, x, last, x in cross))
  }

  /** The load of `x` from its slot into the register `a` that alloc_reg gave it. */
  function LoadInto(st: St, x: nat, a: Got): (g: Got)
    requires Wf(st) && x < |st.mem|
    requires Allocated(st, x, a)
    ensures Loaded(st, x, g)
  {
    var sl := Offset(a.st, x);
    var g := Got(a.reg, Emit(sl.st, M.Lw(a.reg, M.FP, -sl.off)), a.last);
    LoadRegFacts(st, x, a, sl, g);
    g
  }

  /** LoadReg, step by step: alloc_reg, then the load from the slot. */
  lemma LoadRegSteps(st: St, x: nat, last: nat, cross: set<nat>, a: Got)
    requires Wf(st) && x < |st.mem| && a == AllocReg(st, x, last, x in cross)
    ensures LoadReg(st, x, last, cross) == Got(a.reg, LoadInto(st, x, a).st, a.last)
  {
  }

  /** What LoadReg promises, from what AllocReg and Offset promise. */
  lemma LoadRegFacts(st: St, x: nat, a: Got, sl: Slot, g: Got)
    requires Wf(st) && x < |st.mem|
    requires Allocated(st, x, a)
    requires sl == Offset(a.st, x) && g == Got(a.reg, Emit(sl.st, M.Lw(a.reg, M.FP, -sl.off)), a.last)
    ensures Loaded(st, x, g)
  {
    var s := g.st;
    assert s.regs == a.st.regs && s.dirty == a.st.dirty && s.mem == sl.st.mem;
    GrowsTrans(st, a.st, sl.st);
    GrowsTrans(st, sl.st, s);
    UsableIsCanUse(a.reg);
  }

  /**
   * get_rreg (ir_mips.c:138-160): the register an operand is read from. Immediate 0 is
   * `$zero`; another immediate is moved into `$v1`; a variable is used where it is held,
   * and otherwise loaded (LoadReg).
   */
  function GetRReg(st: St, o: Opr, last: nat, cross: set<nat>): (g: Got)
    requires Wf(st) && OprIn(o, |st.mem|)
    ensures Wf(g.st) && Grows(st, g.st) && g.st.dirty <= st.dirty
  {
    match o
    case Imm(v) =>
      if v == 0 then Got(M.Zero, st, last)
      else Got(M.V1, Emit(st, M.Move(M.V1, M.I(v))), last)
    case Var(x) =>
      var f := FindReg(st.regs, x);
      if f > 0 then Got(f as M.Reg, st, last)
      else LoadReg(st, x, last, cross)
  }

  /** The operand's form in an instruction and the state after. */
  datatype Opnd = Opnd(src: M.Src, st: St, last: nat)

  /** get_ropr (ir_mips.c:162-170): an immediate stays an immediate; a variable is get_rreg. */
  function GetROpr(st: St, o: Opr, last: nat, cross: set<nat>): (r: Opnd)
    requires Wf(st) && OprIn(o, |st.mem|)
    ensures Wf(r.st) && Grows(st, r.st) && r.st.dirty <= st.dirty
    ensures o.Imm? ==> r == Opnd(M.I(o.val), st, last)
    ensures o.Var? ==> r.src.R? && r == Opnd(M.R(GetRReg(st, o, last, cross).reg),
      GetRReg(st, o, last, cross).st, GetRReg(st, o, last, cross).last)
  {
    match o
    case Imm(v) => Opnd(M.I(v), st, last)
    case Var(_) =>
      var g := GetRReg(st, o, last, cross);
      Opnd(M.R(g.reg), g.st, g.last)
  }

  /**
   * get_lreg (ir_mips.c:172-180): the register an instruction writes `x` to. `x` becomes
   * dirty; it keeps the register it is held in, or is given one (alloc_reg).
   */
  function GetLReg(st: St, x: nat, last: nat, cross: set<nat>): (g: Got)
    requires Wf(st) && x < |st.mem|
    ensures Wf(g.st) && Grows(st, g.st) && g.st.regs[g.reg] == x
  {
    var f := FindReg(st.regs, x);
    var s := st.(dirty := st.dirty + {x});
    assert Grows(st, s);
    if f > 0 then Got(f as M.Reg, s, last)
    else
      var a := AllocReg(s, x, last, x in cross);
      GrowsTrans(st, s, a.st);
      a
  }

  /** A register whose variable is not in the live set. */
  predicate Dead(x: int, live: set<nat>) { x >= 0 && x as nat !in live }

  /**
   * clean_reg (ir_mips.c:182-190) over registers 0 to n-1: each that holds a variable
   * not in `live` is freed and the variable's dirty bit cleared, without a store.
   */
  function CleanUpTo(st: St, live: set<nat>, n: nat): (s: St)
    requires Wf(st) && n <= 32
    ensures Wf(s) && s == st.(regs := s.regs, dirty := s.dirty)
    ensures forall r | 0 <= r < 32 :: s.regs[r] == if r < n && Dead(st.regs[r], live) then -1 else st.regs[r]
    ensures forall x: nat :: x in s.dirty <==> x in st.dirty && (x in live || forall r | 0 <= r < n :: st.regs[r] != x)
  {
    if n == 0 then st
    else
      var s0 := CleanUpTo(st, live, n - 1);
      var x := s0.regs[n - 1];
      if Dead(x, live) then s0.(regs := s0.regs[n - 1 := -1], dirty := s0.dirty - {x as nat})
      else s0
  }

  /** clean_reg (ir_mips.c:182-190). */
  function Clean(st: St, live: set<nat>): (s: St)
    requires Wf(st)
    ensures Wf(s) && Grows(st, s)
  {
    CleanUpTo(st, live, 32)
  }

  /** Register `r` written back if it holds a variable (ir_mips.c:196-197, 209-211). */
  function Vacate(st: St, r: M.Reg): (s: St)
    requires Wf(st)
    ensures Wf(s) && Grows(st, s) && s.saved == st.saved && s.dirty <= st.dirty
    ensures s.regs == st.regs[r := -1]
    ensures st.regs[r] < 0 ==> s == st
  {
    if st.regs[r] >= 0 then WriteBack(st, r) else st
  }

  /**
   * pass_reg (ir_mips.c:199-215) once `r` is free: a variable is moved in from a register
   * that holds it, or else loaded from its slot, `r` then holding it; an immediate is
   * moved in.
   */
  function Fill(st: St, o: Opr, r: M.Reg): (s: St)
    requires Wf(st) && OprIn(o, |st.mem|)
    ensures Wf(s) && Grows(st, s) && s.saved == st.saved && s.dirty == st.dirty
    ensures s.regs == st.regs || (o.Var? && s.regs == st.regs[r := o.id])
    ensures o.Imm? ==> s == Emit(st, M.Move(r, M.I(o.val)))
  {
    match o
    case Var(x) =>
      var f := FindReg(st.regs, x);
      if f > 0 then
        Emit(st, M.Move(r, M.R(f as M.Reg)))
      else
        var sl := Offset(st, x);
        var s := Emit(sl.st, M.Lw(r, M.FP, -sl.off)).(regs := sl.st.regs[r := x]);
        GrowsTrans(st, sl.st, s);
        s
    case Imm(v) => Emit(st, M.Move(r, M.I(v)))
  }

  /**
   * pass_reg (ir_mips.c:192-216): the value of an operand is placed in register `r`. A
   * variable already there stays; otherwise `r` is written back if taken and filled.
   */
  function PassReg(st: St, o: Opr, r: M.Reg): (s: St)
    requires Wf(st) && OprIn(o, |st.mem|)
    ensures Wf(s) && Grows(st, s) && s.saved == st.saved && s.dirty <= st.dirty
  {
    if o.Var? && st.regs[r] == o.id then st
    else
      var s1 := Vacate(st, r);
      GrowsTrans(st, s1, Fill(s1, o, r));
      Fill(s1, o, r)
  }

  /** Where parameter i >= 4 is found, as a slot-table entry: fp + 8 + 4(i - 4). */
  function ParamSlot(i: nat): int
  {
    -((i - 3) * 4 + 4)
  }

  /**
   * The FUNCTION visitor (ir_mips.c:233-244) over the first n parameters: parameter
   * i < 4 arrives in `$a<i>` and is dirty (it has no slot yet); parameter i >= 4 lives
   * in the caller's frame, at ParamSlot(i).
   */
  function Params(st: St, ps: seq<nat>, n: nat): (s: St)
    requires Wf(st) && n <= |ps| && forall p | p in ps :: p < |st.mem|
    ensures Wf(s) && s == st.(regs := s.regs, dirty := s.dirty, mem := s.mem) && |s.mem| == |st.mem|
  {
    if n == 0 then st
    else
      var s0 := Params(st, ps, n - 1);
      var i := n - 1;
      var p := ps[i];
      assert p in ps;
      if i < 4 then s0.(regs := s0.regs[4 + i := p], dirty := s0.dirty + {p})
      else s0.(mem := s0.mem[p := ParamSlot(i)])
  }

  /**
   * One argument of a call (ir_mips.c:328-342): argument i < 4 is passed in `$a<i>`.
   * Argument i >= 4 is stored at sp + 4(i - 4), from the register that holds it, or else
   * through `$v1`, which is free again after.
   */
  function PassArg(st: St, o: Opr, i: nat): (s: St)
    requires Wf(st) && OprIn(o, |st.mem|)
    ensures Wf(s) && Grows(st, s) && s.saved == st.saved && s.dirty <= st.dirty
  {
    if i < 4 then PassReg(st, o, (4 + i) as M.Reg)
    else
      var f := if o.Var? then FindReg(st.regs, o.id) else -1;
      var reg: M.Reg := if f > 0 then f as M.Reg else M.V1;
      var t := PassReg(st, o, reg);
      var s := Emit(t.(regs := t.regs[M.V1 := -1]), M.Sw(M.SP, 4 * (i - 4), reg));
      GrowsTrans(st, t, s);
      s
  }

  /** The first n arguments of a call, in order. */
  function PassArgs(st: St, args: seq<Opr>, n: nat): (s: St)
    requires Wf(st) && n <= |args| && forall a | a in args :: OprIn(a, |st.mem|)
    ensures Wf(s) && Grows(st, s) && s.saved == st.saved && s.dirty <= st.dirty
  {
    if n == 0 then st
    else
      var s0 := PassArgs(st, args, n - 1);
      var s := PassArg(s0, args[n - 1], n - 1);
      GrowsTrans(st, s0, s);
      s
  }

  /**
   * The CALL visitor (ir_mips.c:320-354): with more than four arguments sp is lowered
   * for them; the arguments are passed; registers of variables dead after the call are
   * freed and the caller-saved ones written back; after `jal` sp is restored and the
   * result variable is in `$v0`, dirty.
   */
  function CallCode(st: St, d: nat, f: string, args: seq<Opr>, out: set<nat>): (s: St)
    requires Wf(st) && d < |st.mem| && forall a | a in args :: OprIn(a, |st.mem|)
    ensures Wf(s) && Grows(st, s)
  {
    var n := |args|;
    var s1 := CallArgs(st, args);
    var s2 := WriteBackCaller(Clean(s1, out));
    var s3 := Emit(s2, M.Jal(f));
    var s4 := if n > 4 then Emit(s3, M.Arth(M.SP, M.SP, M.I(4 * (n - 4)), Plus)) else s3;
    var s := s4.(regs := s4.regs[M.V0 := d], dirty := s4.dirty + {d});
    GrowsTrans(st, s1, Clean(s1, out));
    GrowsTrans(st, Clean(s1, out), s2);
    GrowsTrans(st, s2, s4);
    GrowsTrans(st, s4, s);
    s
  }

  /** The first half of CallCode: sp lowered for arguments past the fourth, arguments passed. */
  function CallArgs(st: St, args: seq<Opr>): (s: St)
    requires Wf(st) && forall a | a in args :: OprIn(a, |st.mem|)
    ensures Wf(s) && Grows(st, s)
  {
    var n := |args|;
    var s0 := if n > 4 then Emit(st, M.Arth(M.SP, M.SP, M.I(4 * (4 - n)), Plus)) else st;
    var s1 := PassArgs(s0, args, n);
    GrowsTrans(st, s0, s1);
    s1
  }

  /** Every variable of an instruction has an entry in a slot table of `n` entries. */
  predicate InstrIn(x: Instr, n: nat)
  {
    match x
    case Func(_, ps) => forall p | p in ps :: p < n
    case Mov(d, o) => d < n && OprIn(o, n)
    case Arth(d, a, b, _) => d < n && OprIn(a, n) && OprIn(b, n)
    case Addr(d, v) => d < n && v < n
    case Load(d, v) => d < n && v < n
    case Store(v, o) => v < n && OprIn(o, n)
    case Branch(a, b, _, _, _) => OprIn(a, n) && OprIn(b, n)
    case Ret(o) => OprIn(o, n)
    case Alloc(v, _) => v < n
    case Call(d, _, args) => d < n && forall a | a in args :: OprIn(a, n)
    case Read(v) => v < n
    case Write(o) => OprIn(o, n)
    case _ => true
  }

  /** The state after one instruction, and `last_alloc_ureg_i`. */
  datatype Step = Step(st: St, last: nat)

  /** The MOV visitor (ir_mips.c:246-255); no move when source and destination coincide. */
  function MovCode(st: St, d: nat, o: Opr, out: set<nat>, last: nat, cross: set<nat>): (r: Step)
    requires Wf(st) && d < |st.mem| && OprIn(o, |st.mem|)
    ensures Wf(r.st) && Grows(st, r.st)
  {
    var a := GetROpr(st, o, last, cross);
    var c := Clean(a.st, out);
    var b := GetLReg(c, d, a.last, cross);
    var s := if a.src == M.R(b.reg) then b.st else Emit(b.st, M.Move(b.reg, a.src));
    GrowsTrans(st, a.st, c);
    GrowsTrans(st, c, b.st);
    GrowsTrans(st, b.st, s);
    Step(s, b.last)
  }

  /** The arithmetic visitor (ir_mips.c:257-264). */
  function ArthCode(st: St, d: nat, o1: Opr, o2: Opr, op: ArithOp, out: set<nat>, last: nat, cross: set<nat>): (r: Step)
    requires Wf(st) && d < |st.mem| && OprIn(o1, |st.mem|) && OprIn(o2, |st.mem|)
    ensures Wf(r.st) && Grows(st, r.st)
  {
    var a := GetRReg(st, o1, last, cross);
    var b := GetROpr(a.st, o2, a.last, cross);
    var c := Clean(b.st, out);
    var e := GetLReg(c, d, b.last, cross);
    var s := Emit(e.st, M.Arth(e.reg, a.reg, b.src, op));
    GrowsTrans(st, a.st, b.st);
    GrowsTrans(st, b.st, c);
    GrowsTrans(st, c, e.st);
    GrowsTrans(st, e.st, s);
    Step(s, e.last)
  }

  /** The address visitor (ir_mips.c:266-273); None where its assert fails (no slot for v). */
  function AddrCode(st: St, d: nat, v: nat, last: nat, cross: set<nat>): (r: Option<Step>)
    requires Wf(st) && d < |st.mem| && v < |st.mem|
    ensures r.Some? ==> Wf(r.value.st) && Grows(st, r.value.st)
    ensures r.None? <==> GetLReg(st, d, last, cross).st.mem[v] == 0
  {
    var e := GetLReg(st, d, last, cross);
    var off := e.st.mem[v];
    if off == 0 then None
    else
      var s := Emit(e.st, M.Arth(e.reg, M.FP, M.I(-off), Plus));
      GrowsTrans(st, e.st, s);
      Some(Step(s, e.last))
  }

  /** The load visitor (ir_mips.c:275-281). */
  function LoadCode(st: St, d: nat, v: nat, out: set<nat>, last: nat, cross: set<nat>): (r: Step)
    requires Wf(st) && d < |st.mem| && v < |st.mem|
    ensures Wf(r.st) && Grows(st, r.st)
  {
    var a := GetRReg(st, Var(v), last, cross);
    var c := Clean(a.st, out);
    var e := GetLReg(c, d, a.last, cross);
    var s := Emit(e.st, M.Lw(e.reg, a.reg, 0));
    GrowsTrans(st, a.st, c);
    GrowsTrans(st, c, e.st);
    GrowsTrans(st, e.st, s);
    Step(s, e.last)
  }

  /** The store visitor (ir_mips.c:283-288): the value's register first, then the address's. */
  function StoreCode(st: St, v: nat, o: Opr, last: nat, cross: set<nat>): (r: Step)
    requires Wf(st) && v < |st.mem| && OprIn(o, |st.mem|)
    ensures Wf(r.st) && Grows(st, r.st)
  {
    var a := GetRReg(st, o, last, cross);
    var b := GetRReg(a.st, Var(v), a.last, cross);
    var s := Emit(b.st, M.Sw(b.reg, 0, a.reg));
    GrowsTrans(st, a.st, b.st);
    GrowsTrans(st, b.st, s);
    Step(s, b.last)
  }

  /** The branch visitor (ir_mips.c:297-305): operands, then every register written back. */
  function BranchCode(st: St, o1: Opr, o2: Opr, rel: Relop, t: nat, out: set<nat>, last: nat, cross: set<nat>): (r: Step)
    requires Wf(st) && OprIn(o1, |st.mem|) && OprIn(o2, |st.mem|)
    ensures Wf(r.st) && Grows(st, r.st)
  {
    var a := GetRReg(st, o1, last, cross);
    var b := GetROpr(a.st, o2, a.last, cross);
    var c := Clean(b.st, out);
    var w := WriteBackAll(c);
    var s := Emit(w, M.Bcc(a.reg, b.src, rel, t));
    GrowsTrans(st, a.st, b.st);
    GrowsTrans(st, b.st, c);
    GrowsTrans(st, c, w);
    GrowsTrans(st, w, s);
    Step(s, b.last)
  }

  /** READ (ir_mips.c:356-362): caller-saved registers written back, the result in `$v0`. */
  function ReadCode(st: St, v: nat): (s: St)
    requires Wf(st) && v < |st.mem|
    ensures Wf(s) && Grows(st, s)
  {
    var w := Emit(WriteBackCaller(st), M.Jal("read"));
    var s := w.(regs := w.regs[M.V0 := v], dirty := w.dirty + {v});
    GrowsTrans(st, WriteBackCaller(st), w);
    GrowsTrans(st, w, s);
    s
  }

  /** WRITE (ir_mips.c:364-370): the operand passed in `$a0`. */
  function WriteCode(st: St, o: Opr, out: set<nat>): (s: St)
    requires Wf(st) && OprIn(o, |st.mem|)
    ensures Wf(s) && Grows(st, s)
  {
    var a := PassReg(st, o, M.A0);
    var c := Clean(a, out);
    var w := WriteBackCaller(c);
    var s := Emit(w, M.Jal("write"));
    GrowsTrans(st, a, c);
    GrowsTrans(st, c, w);
    GrowsTrans(st, w, s);
    s
  }

  /** The goto visitor (ir_mips.c:290-295): every register written back, then the jump. */
  function GotoCode(st: St, t: nat): (s: St)
    requires Wf(st)
    ensures Wf(s) && Grows(st, s)
  {
    var w := WriteBackAll(st);
    GrowsTrans(st, w, Emit(w, M.J(t)));
    Emit(w, M.J(t))
  }

  /** The return visitor (ir_mips.c:307-312): the value passed in `$v0`. */
  function RetCode(st: St, o: Opr): (s: St)
    requires Wf(st) && OprIn(o, |st.mem|)
    ensures Wf(s) && Grows(st, s)
  {
    var a := PassReg(st, o, M.V0);
    GrowsTrans(st, a, Emit(a, M.Ret));
    Emit(a, M.Ret)
  }

  /** The DEC visitor (ir_mips.c:314-318), past its assert: `n` bytes of frame for `v`. */
  function AllocCode(st: St, v: nat, n: int): (s: St)
    requires v < |st.mem|
  {
    st.(mem := st.mem[v := st.stack + n], stack := st.stack + n)
  }

  /** The instructions that end a block's code (they set `v->end`). */
  predicate Ends(x: Instr) { x.Goto? || x.Branch? || x.Ret? }

  /**
   * One instruction (the visitor table, ir_mips.c:225-370). None where an assert of the
   * visitor fails: a label, an address of a variable without a slot, or a second DEC of
   * a variable.
   */
  function Translate(st: St, x: Instr, out: set<nat>, last: nat, cross: set<nat>): (r: Option<Step>)
    requires Wf(st) && InstrIn(x, |st.mem|)
    ensures r.Some? ==> Wf(r.value.st) && |r.value.st.mem| == |st.mem|
    ensures r.None? <==> (x.Label? || (x.Alloc? && st.mem[x.v] != 0) ||
      (x.Addr? && GetLReg(st, x.lhs, last, cross).st.mem[x.src] == 0))
  {
    match x
    case Nop => Some(Step(st, last))
    case Label(_) => None
    case Func(_, ps) => Some(Step(Params(st, ps, |ps|), last))
    case Mov(d, o) => Some(MovCode(st, d, o, out, last, cross))
    case Arth(d, o1, o2, op) => Some(ArthCode(st, d, o1, o2, op, out, last, cross))
    case Addr(d, v) => AddrCode(st, d, v, last, cross)
    case Load(d, v) => Some(LoadCode(st, d, v, out, last, cross))
    case Store(v, o) => Some(StoreCode(st, v, o, last, cross))
    case Goto(t, _) => Some(Step(GotoCode(st, t), last))
    case Branch(o1, o2, rel, t, _) => Some(BranchCode(st, o1, o2, rel, t, out, last, cross))
    case Ret(o) => Some(Step(RetCode(st, o), last))
    case Alloc(v, n) => if st.mem[v] != 0 then None else Some(Step(AllocCode(st, v, n), last))
    case Call(d, f, args) => Some(Step(CallCode(st, d, f, args, out), last))
    case Read(v) => Some(Step(ReadCode(st, v), last))
    case Write(o) => Some(Step(WriteCode(st, o, out), last))
  }

  /** The state within a block: after some instructions, and whether one of them ended it. */
  datatype Run = Run(st: St, last: nat, ended: bool)

  /** Every instruction of irs[lo..hi] has its variables in a slot table of `n` entries. */
  predicate RangeIn(irs: seq<Instr>, lo: nat, hi: nat, n: nat)
    requires lo <= hi <= |irs|
  {
    forall i | lo <= i < hi :: InstrIn(irs[i], n)
  }

  /**
   * The loop of ir_mips_bb (ir_mips.c:387-393) over irs[start..i]: before each
   * instruction the registers of variables not live into it are freed, then it is
   * translated. None where an assert fails, including an instruction after one that
   * ended the block.
   */
  function Body(st: St, irs: seq<Instr>, start: nat, i: nat, ins: seq<set<nat>>, outs: seq<set<nat>>,
                last: nat, cross: set<nat>): (r: Option<Run>)
    requires start <= i <= |irs| <= |ins| && |irs| <= |outs|
    requires Wf(st) && RangeIn(irs, start, i, |st.mem|)
    ensures r.Some? ==> Wf(r.value.st) && |r.value.st.mem| == |st.mem|
    ensures r.Some? && start < i ==> r.value.ended == Ends(irs[i - 1])
    decreases i
  {
    if i == start then Some(Run(st, last, false))
    else
      match Body(st, irs, start, i - 1, ins, outs, last, cross)
      case None => None
      case Some(run) => BodyStep(run, irs[i - 1], ins[i - 1], outs[i - 1], cross)
  }

  /**
   * One turn of the loop of ir_mips_bb: the registers of variables not live into `x`
   * freed, then `x` translated; None after an instruction that ended the block.
   */
  function BodyStep(run: Run, x: Instr, live: set<nat>, out: set<nat>, cross: set<nat>): (r: Option<Run>)
    requires Wf(run.st) && InstrIn(x, |run.st.mem|)
    ensures r.Some? ==> Wf(r.value.st) && |r.value.st.mem| == |run.st.mem| && r.value.ended == Ends(x)
  {
    if run.ended then None
    else
      var c := Clean(run.st, live);
      match Translate(c, x, out, run.last, cross)
      case None => None
      case Some(step) => Some(Run(step.st, step.last, Ends(x)))
  }

  /** A register table with every register free. */
  const Free: seq<int> := [-1, -1, -1, -1, -1, -1, -1, -1, -1, -1, -1, -1, -1, -1, -1, -1,
                           -1, -1, -1, -1, -1, -1, -1, -1, -1, -1, -1, -1, -1, -1, -1, -1]

  /** The state a block's code starts from: every register free, nothing dirty, its label. */
  function BlockStart(st: St, b: IrProgram.Block): (s: St)
    requires Wf(st)
    ensures Wf(s) && s.regs == Free && s.dirty == {} && Grows(st, s)
    ensures MemOk(st) ==> Inv(s)
  {
    FreeAll();
    var s0 := st.(regs := Free, dirty := {});
    if b.lbl.Some? then Emit(s0, M.Label(b.lbl.value)) else s0
  }

  lemma FreeAll()
    ensures |Free| == 32 && forall r | 0 <= r < 32 :: Free[r] == -1
  {
  }
  /**
   * ir_mips_bb (ir_mips.c:378-398): every register and dirty bit cleared, the block's label,
   * its instructions, and, unless an instruction ended the block, the registers of
   * variables dead at its end freed and every other written back.
   */
  function BlockCode(st: St, irs: seq<Instr>, b: IrProgram.Block, ins: seq<set<nat>>,
                     outs: seq<set<nat>>, last: nat, cross: set<nat>): (r: Option<Step>)
    requires b.start < b.end <= |irs| <= |ins| && |irs| <= |outs|
    requires Wf(st) && RangeIn(irs, b.start, b.end, |st.mem|)
    ensures r.Some? ==> Wf(r.value.st) && |r.value.st.mem| == |st.mem|
  {
    var s1 := BlockStart(st, b);
    match Body(s1, irs, b.start, b.end, ins, outs, last, cross)
    case None => None
    case Some(run) =>
      if run.ended then Some(Step(run.st, run.last))
      else Some(Step(WriteBackAll(Clean(run.st, outs[b.end - 1])), run.last))
  }

  /** Blocks of one function, each within the instruction list and apart from the others. */
  predicate BlocksIn(irs: seq<Instr>, bbs: seq<IrProgram.Block>, n: nat)
  {
    forall b | 0 <= b < |bbs| :: bbs[b].start < bbs[b].end <= |irs| && RangeIn(irs, bbs[b].start, bbs[b].end, n)
  }

  /** The first loop of ir_mips_cfg (ir_mips.c:405-409) over bbs[..k]: reachable blocks in order. */
  function Blocks(st: St, irs: seq<Instr>, bbs: seq<IrProgram.Block>, reach: seq<bool>,
                  ins: seq<set<nat>>, outs: seq<set<nat>>, last: nat, cross: set<nat>, k: nat): (r: Option<Step>)
    requires k <= |bbs| == |reach| && |irs| <= |ins| && |irs| <= |outs|
    requires Wf(st) && BlocksIn(irs, bbs, |st.mem|)
    ensures r.Some? ==> Wf(r.value.st) && |r.value.st.mem| == |st.mem|
  {
    if k == 0 then Some(Step(st, last))
    else
      match Blocks(st, irs, bbs, reach, ins, outs, last, cross, k - 1)
      case None => None
      case Some(step) =>
        if !reach[k - 1] then Some(step)
        else BlockCode(step.st, irs, bbs[k - 1], ins, outs, step.last, cross)
  }

  /* ------------------------------------------------------------------ */
  /* The frame                                                           */
  /* ------------------------------------------------------------------ */

  /** The callee-saved registers `$s<j>`, j < k, whose bit is set, in ascending order. */
  function SavedRegs(saved: bv8, k: nat): (rs: seq<M.Reg>)
    requires k <= 8
    ensures |rs| <= k
    ensures forall i | 0 <= i < |rs| :: 16 <= rs[i] as int < 16 + k
  {
    if k == 0 then []
    else
      var rs := SavedRegs(saved, k - 1);
      if SavedBit(saved, k - 1) then rs + [(16 + k - 1) as M.Reg] else rs
  }

  /** The registers SavedRegs lists are exactly those whose bit is set, each once, in ascending order. */
  lemma {:induction false} SavedRegsExact(saved: bv8, k: nat)
    requires k <= 8
    ensures forall j | 0 <= j < k :: (((16 + j) as M.Reg in SavedRegs(saved, k)) <==> SavedBit(saved, j))
  {
    if k > 0 {
      SavedRegsExact(saved, k - 1);
    }
  }

  lemma {:induction false} SavedRegsAscending(saved: bv8, k: nat)
    requires k <= 8
    ensures forall i, j | 0 <= i < j < |SavedRegs(saved, k)| :: SavedRegs(saved, k)[i] < SavedRegs(saved, k)[j]
  {
    if k > 0 {
      SavedRegsAscending(saved, k - 1);
      var rs := SavedRegs(saved, k - 1);
      if SavedBit(saved, k - 1) {
        var ts := rs + [(16 + k - 1) as M.Reg];
        assert SavedRegs(saved, k) == ts;
        forall i, j | 0 <= i < j < |ts|
          ensures ts[i] < ts[j]
        {
          if j == |rs| {
            assert 16 <= rs[i] as int < 16 + k - 1;
          }
        }
      }
    }
  }

  /** The frame below the saved `$fp`/`$ra`: the variable slots and one word per saved register. */
  function FrameSize(stack: int, saved: bv8): int
  {
    stack + 4 * |SavedRegs(saved, 8)|
  }

  /** Stores of the registers rs into the words from `$sp + 4j` on. */
  function Saves(rs: seq<M.Reg>, j: nat): seq<M.Asm>
  {
    seq(|rs|, i requires 0 <= i < |rs| => M.Sw(M.SP, 4 * (j + i), rs[i]))
  }

  /** Loads of the registers rs from the words from `$sp + 4j` on. */
  function Restores(rs: seq<M.Reg>, j: nat): seq<M.Asm>
  {
    seq(|rs|, i requires 0 <= i < |rs| => M.Lw(rs[i], M.SP, 4 * (j + i)))
  }

  /** The fixed part of the prologue for a frame of `total` bytes below the saved `$fp` and `$ra`. */
  function Prologue(name: string, total: int): seq<M.Asm>
  {
    [M.Func(name), M.Arth(M.SP, M.SP, M.I(-total - 8), Plus), M.Sw(M.SP, total + 4, M.RA),
     M.Sw(M.SP, total, M.FP), M.Arth(M.FP, M.SP, M.I(total), Plus)]
  }

  /**
   * The prologue ir_mips_cfg builds (ir_mips.c:411-428): the label, the frame allocated,
   * `$ra` and the old `$fp` stored at its top, `$fp` pointed at them, then each saved
   * register stored.
   */
  function Entry(name: string, stack: int, saved: bv8): seq<M.Asm>
  {
    Prologue(name, FrameSize(stack, saved)) + Saves(SavedRegs(saved, 8), 0)
  }

  /** The fixed part of the epilogue: the frame released, `$ra` and `$fp` reloaded. */
  const Epilogue: seq<M.Asm> := [M.Arth(M.SP, M.FP, M.I(8), Plus), M.Lw(M.RA, M.FP, 4), M.Lw(M.FP, M.FP, 0)]

  /** The epilogue (ir_mips.c:426-435): the saved registers loaded, then Epilogue. */
  function Exit(saved: bv8): seq<M.Asm>
  {
    Restores(SavedRegs(saved, 8), 0) + Epilogue
  }

  /** A machine state for the frame code: the register file and word-addressed memory. */
  datatype Machine = Machine(regs: seq<int>, mem: map<int, int>)

  predicate MWf(m: Machine)
  {
    |m.regs| == 32
  }

  function Word(m: Machine, a: int): int
  {
    if a in m.mem then m.mem[a] else 0
  }

  /**
   * One frame instruction: an addition of an immediate, a load or a store; the label
   * does nothing. None for the instructions the frame code never uses.
   */
  function Exec1(m: Machine, x: M.Asm): (r: Option<Machine>)
    requires MWf(m)
    ensures r.Some? ==> MWf(r.value)
  {
    match x
    case Func(_) => Some(m)
    case Arth(d, a, b, op) =>
      if op.Plus? && b.I? then Some(m.(regs := m.regs[d := m.regs[a] + b.imm])) else None
    case Lw(d, base, off) => Some(m.(regs := m.regs[d := Word(m, m.regs[base] + off)]))
    case Sw(base, off, src) => Some(m.(mem := m.mem[m.regs[base] + off := m.regs[src]]))
    case _ => None
  }

  function Exec(m: Machine, xs: seq<M.Asm>): (r: Option<Machine>)
    requires MWf(m)
    ensures r.Some? ==> MWf(r.value)
    decreases |xs|
  {
    if xs == [] then Some(m)
    else
      match Exec1(m, xs[0])
      case None => None
      case Some(m1) => Exec(m1, xs[1..])
  }

  lemma {:induction false} ExecAppend(m: Machine, xs: seq<M.Asm>, ys: seq<M.Asm>)
    requires MWf(m)
    ensures Exec(m, xs + ys) == (match Exec(m, xs) case None => None case Some(m1) => Exec(m1, ys))
    decreases |xs|
  {
    if xs == [] {
      assert xs + ys == ys;
    } else {
      assert (xs + ys)[1..] == xs[1..] + ys;
      match Exec1(m, xs[0])
      case None =>
      case Some(m1) => ExecAppend(m1, xs[1..], ys);
    }
  }

  lemma ExecThen(m: Machine, xs: seq<M.Asm>, ys: seq<M.Asm>, m1: Machine)
    requires MWf(m) && MWf(m1) && Exec(m, xs) == Some(m1)
    ensures Exec(m, xs + ys) == Exec(m1, ys)
  {
    ExecAppend(m, xs, ys);
  }

  /** The saved registers are among `$s0`..`$s7`. */
  lemma SavedAreCallee(saved: bv8)
    ensures forall r | r in SavedRegs(saved, 8) :: 16 <= r as int < 24
  {
    var rs := SavedRegs(saved, 8);
    forall r | r in rs
      ensures 16 <= r as int < 24
    {
      var i :| 0 <= i < |rs| && rs[i] == r;
    }
  }

  lemma ExecCons(m: Machine, xs: seq<M.Asm>, m1: Machine)
    requires MWf(m) && xs != [] && Exec1(m, xs[0]) == Some(m1)
    ensures Exec(m, xs) == Exec(m1, xs[1..])
  {
  }

  /** The stores of Saves write the registers' values in consecutive words and touch no register. */
  lemma {:induction false} ExecSaves(m: Machine, rs: seq<M.Reg>, j: nat) returns (m1: Machine)
    requires MWf(m)
    ensures MWf(m1) && Exec(m, Saves(rs, j)) == Some(m1) && m1.regs == m.regs
    ensures forall i | 0 <= i < |rs| :: Word(m1, m.regs[M.SP] + 4 * (j + i)) == m.regs[rs[i]]
    ensures forall a | a < m.regs[M.SP] + 4 * j || m.regs[M.SP] + 4 * (j + |rs|) <= a :: Word(m1, a) == Word(m, a)
    decreases |rs|
  {
    if rs == [] {
      m1 := m;
    } else {
      var a := m.regs[M.SP] + 4 * j;
      var m0 := m.(mem := m.mem[a := m.regs[rs[0]]]);
      ExecCons(m, Saves(rs, j), m0);
      assert Saves(rs, j)[1..] == Saves(rs[1..], j + 1);
      m1 := ExecSaves(m0, rs[1..], j + 1);
      forall i | 0 <= i < |rs|
        ensures Word(m1, m.regs[M.SP] + 4 * (j + i)) == m.regs[rs[i]]
      {
        if i > 0 {
          assert rs[i] == rs[1..][i - 1];
        }
      }
    }
  }

  /** The loads of Restores read consecutive words into the registers and keep the memory. */
  lemma {:induction false} ExecRestores(m: Machine, rs: seq<M.Reg>, j: nat) returns (m1: Machine)
    requires MWf(m)
    requires forall i | 0 <= i < |rs| :: rs[i] != M.SP
    requires forall i, k | 0 <= i < k < |rs| :: rs[i] != rs[k]
    ensures MWf(m1) && Exec(m, Restores(rs, j)) == Some(m1) && m1.mem == m.mem
    ensures forall i | 0 <= i < |rs| :: m1.regs[rs[i]] == Word(m, m.regs[M.SP] + 4 * (j + i))
    ensures forall r: M.Reg | r !in rs :: m1.regs[r] == m.regs[r]
    decreases |rs|
  {
    if rs == [] {
      m1 := m;
    } else {
      var m0 := m.(regs := m.regs[rs[0] := Word(m, m.regs[M.SP] + 4 * j)]);
      ExecCons(m, Restores(rs, j), m0);
      assert Restores(rs, j)[1..] == Restores(rs[1..], j + 1);
      m1 := ExecRestores(m0, rs[1..], j + 1);
      forall i | 0 <= i < |rs|
        ensures m1.regs[rs[i]] == Word(m, m.regs[M.SP] + 4 * (j + i))
      {
        if i > 0 {
          assert rs[i] == rs[1..][i - 1];
        } else {
          assert rs[0] !in rs[1..];
        }
      }
      forall r: M.Reg | r !in rs
        ensures m1.regs[r] == m.regs[r]
      {
        assert r !in rs[1..];
      }
    }
  }

  /** A word the frame code keeps for the epilogue: a saved register's slot, the old `$fp` or `$ra`. */
  predicate FrameWord(sp: int, fp: int, count: nat, a: int)
  {
    (sp <= a < sp + 4 * count) || a == fp || a == fp + 4
  }

  lemma ExecPrologue(m: Machine, name: string, total: int) returns (m1: Machine)
    requires MWf(m)
    ensures MWf(m1) && Exec(m, Prologue(name, total)) == Some(m1)
    ensures m1.regs[M.SP] == m.regs[M.SP] - total - 8 && m1.regs[M.FP] == m.regs[M.SP] - 8
    ensures Word(m1, m1.regs[M.FP] + 4) == m.regs[M.RA] && Word(m1, m1.regs[M.FP]) == m.regs[M.FP]
    ensures forall r: M.Reg | r != M.SP && r != M.FP :: m1.regs[r] == m.regs[r]
  {
    var xs := Prologue(name, total);
    var sp := m.regs[M.SP] - total - 8;
    var ma := m.(regs := m.regs[M.SP := sp]);
    var mb := ma.(mem := ma.mem[sp + total + 4 := m.regs[M.RA]]);
    var mc := mb.(mem := mb.mem[sp + total := m.regs[M.FP]]);
    m1 := mc.(regs := mc.regs[M.FP := sp + total]);
    ExecCons(m, xs, m);
    ExecCons(m, xs[1..], ma);
    ExecCons(ma, xs[2..], mb);
    ExecCons(mb, xs[3..], mc);
    ExecCons(mc, xs[4..], m1);
    assert xs[4..][1..] == [];
  }

  lemma ExecEpilogue(m: Machine) returns (m1: Machine)
    requires MWf(m)
    ensures MWf(m1) && Exec(m, Epilogue) == Some(m1)
    ensures m1.regs[M.SP] == m.regs[M.FP] + 8
    ensures m1.regs[M.RA] == Word(m, m.regs[M.FP] + 4) && m1.regs[M.FP] == Word(m, m.regs[M.FP])
    ensures forall r: M.Reg | r != M.SP && r != M.FP && r != M.RA :: m1.regs[r] == m.regs[r]
  {
    var xs := Epilogue;
    var fp := m.regs[M.FP];
    var ma := m.(regs := m.regs[M.SP := fp + 8]);
    var mb := ma.(regs := ma.regs[M.RA := Word(m, fp + 4)]);
    m1 := mb.(regs := mb.regs[M.FP := Word(m, fp)]);
    ExecCons(m, xs, ma);
    ExecCons(ma, xs[1..], mb);
    ExecCons(mb, xs[2..], m1);
    assert xs[2..][1..] == [];
  }

  /**
   * What the prologue leaves: `$sp` lowered by the frame, `$fp` 8 below the caller's `$sp`,
   * the caller's `$ra` and `$fp` at `$fp + 4` and `$fp`, each saved register in its slot from
   * `$sp` up, and every other register as it was.
   */
  lemma EntryLayout(m: Machine, name: string, stack: nat, saved: bv8) returns (m2: Machine)
    requires MWf(m)
    ensures MWf(m2) && Exec(m, Entry(name, stack, saved)) == Some(m2)
    ensures m2.regs[M.SP] == m.regs[M.SP] - FrameSize(stack, saved) - 8
    ensures m2.regs[M.FP] == m.regs[M.SP] - 8
    ensures Word(m2, m2.regs[M.FP] + 4) == m.regs[M.RA] && Word(m2, m2.regs[M.FP]) == m.regs[M.FP]
    ensures forall i | 0 <= i < |SavedRegs(saved, 8)| :: Word(m2, m2.regs[M.SP] + 4 * i) == m.regs[SavedRegs(saved, 8)[i]]
    ensures forall r: M.Reg | r != M.SP && r != M.FP :: m2.regs[r] == m.regs[r]
  {
    m2 := EntryList(m, name, FrameSize(stack, saved), SavedRegs(saved, 8));
  }

  /** EntryLayout for any list of registers whose slots fit below the saved `$fp`. */
  lemma EntryList(m: Machine, name: string, total: int, rs: seq<M.Reg>) returns (m2: Machine)
    requires MWf(m) && 4 * |rs| <= total
    requires forall i | 0 <= i < |rs| :: 16 <= rs[i] as int < 24
    ensures MWf(m2) && Exec(m, Prologue(name, total) + Saves(rs, 0)) == Some(m2)
    ensures m2.regs[M.SP] == m.regs[M.SP] - total - 8
    ensures m2.regs[M.FP] == m.regs[M.SP] - 8
    ensures Word(m2, m2.regs[M.FP] + 4) == m.regs[M.RA] && Word(m2, m2.regs[M.FP]) == m.regs[M.FP]
    ensures forall i | 0 <= i < |rs| :: Word(m2, m2.regs[M.SP] + 4 * i) == m.regs[rs[i]]
    ensures forall r: M.Reg | r != M.SP && r != M.FP :: m2.regs[r] == m.regs[r]
  {
    var m1 := ExecPrologue(m, name, total);
    m2 := ExecSaves(m1, rs, 0);
    ExecThen(m, Prologue(name, total), Saves(rs, 0), m1);
    forall i | 0 <= i < |rs|
      ensures Word(m2, m2.regs[M.SP] + 4 * i) == m.regs[rs[i]]
    {
      var r := rs[i];
      assert r != M.SP && r != M.FP;
      assert Word(m2, m1.regs[M.SP] + 4 * (0 + i)) == m1.regs[r];
    }
  }

  /**
   * What the epilogue leaves: the saved registers reloaded from their slots above `$sp`,
   * `$sp` at `$fp + 8`, `$ra` and `$fp` reloaded from `$fp + 4` and `$fp`.
   */
  lemma ExitRestores(m: Machine, saved: bv8) returns (m2: Machine)
    requires MWf(m)
    ensures MWf(m2) && Exec(m, Exit(saved)) == Some(m2)
    ensures m2.regs[M.SP] == m.regs[M.FP] + 8
    ensures m2.regs[M.RA] == Word(m, m.regs[M.FP] + 4) && m2.regs[M.FP] == Word(m, m.regs[M.FP])
    ensures forall i | 0 <= i < |SavedRegs(saved, 8)| :: m2.regs[SavedRegs(saved, 8)[i]] == Word(m, m.regs[M.SP] + 4 * i)
  {
    SavedRegsAscending(saved, 8);
    m2 := ExitList(m, SavedRegs(saved, 8));
  }

  /** Ascending callee-saved registers are distinct and none of `$sp`, `$fp`, `$ra`. */
  lemma CalleeApart(rs: seq<M.Reg>)
    requires forall i | 0 <= i < |rs| :: 16 <= rs[i] as int < 24
    requires forall i, j | 0 <= i < j < |rs| :: rs[i] < rs[j]
    ensures M.SP !in rs && M.FP !in rs && M.RA !in rs
    ensures forall i | 0 <= i < |rs| :: rs[i] != M.SP
    ensures forall i, k | 0 <= i < k < |rs| :: rs[i] != rs[k]
  {
  }

  /** ExitRestores for any ascending list of callee-saved registers. */
  lemma ExitList(m: Machine, rs: seq<M.Reg>) returns (m2: Machine)
    requires MWf(m)
    requires forall i | 0 <= i < |rs| :: 16 <= rs[i] as int < 24
    requires forall i, j | 0 <= i < j < |rs| :: rs[i] < rs[j]
    ensures MWf(m2) && Exec(m, Restores(rs, 0) + Epilogue) == Some(m2)
    ensures m2.regs[M.SP] == m.regs[M.FP] + 8
    ensures m2.regs[M.RA] == Word(m, m.regs[M.FP] + 4) && m2.regs[M.FP] == Word(m, m.regs[M.FP])
    ensures forall i | 0 <= i < |rs| :: m2.regs[rs[i]] == Word(m, m.regs[M.SP] + 4 * i)
  {
    CalleeApart(rs);
    var m1 := ExecRestores(m, rs, 0);
    ExecThen(m, Restores(rs, 0), Epilogue, m1);
    m2 := ExecEpilogue(m1);
    RestoredRegs(m, m1, m2, rs);
  }

  /** The register side of ExitList: the restores load the saved registers from the
      bottom of the frame and the epilogue takes `$sp`, `$fp` and `$ra` from its top. */
  lemma RestoredRegs(m: Machine, m1: Machine, m2: Machine, rs: seq<M.Reg>)
    requires MWf(m) && MWf(m1) && MWf(m2) && M.SP !in rs && M.FP !in rs && M.RA !in rs
    requires m1.mem == m.mem
    requires forall i | 0 <= i < |rs| :: m1.regs[rs[i]] == Word(m, m.regs[M.SP] + 4 * (0 + i))
    requires forall r: M.Reg | r !in rs :: m1.regs[r] == m.regs[r]
    requires m2.regs[M.SP] == m1.regs[M.FP] + 8
    requires m2.regs[M.RA] == Word(m1, m1.regs[M.FP] + 4) && m2.regs[M.FP] == Word(m1, m1.regs[M.FP])
    requires forall r: M.Reg | r != M.SP && r != M.FP && r != M.RA :: m2.regs[r] == m1.regs[r]
    ensures m2.regs[M.SP] == m.regs[M.FP] + 8
    ensures m2.regs[M.RA] == Word(m, m.regs[M.FP] + 4) && m2.regs[M.FP] == Word(m, m.regs[M.FP])
    ensures forall i | 0 <= i < |rs| :: m2.regs[rs[i]] == Word(m, m.regs[M.SP] + 4 * i)
  {
    assert m1.regs[M.FP] == m.regs[M.FP];
    forall i | 0 <= i < |rs|
      ensures m2.regs[rs[i]] == Word(m, m.regs[M.SP] + 4 * i)
    {
      var r := rs[i];
      assert r != M.SP && r != M.FP && r != M.RA;
      assert m1.regs[r] == Word(m, m.regs[M.SP] + 4 * (0 + i));
    }
  }

  /**
   * The prologue and epilogue pair up: whatever the body does, as long as it leaves
   * `$sp`, `$fp` and the frame's own words as the prologue set them, the epilogue gives
   * the caller back its `$sp`, `$fp`, `$ra` and every callee-saved register the
   * function used.
   */
  lemma FrameRestores(m0: Machine, name: string, stack: nat, saved: bv8, m1: Machine, m2: Machine)
    returns (m3: Machine)
    requires MWf(m0) && MWf(m2)
    requires Exec(m0, Entry(name, stack, saved)) == Some(m1)
    requires m2.regs[M.SP] == m1.regs[M.SP] && m2.regs[M.FP] == m1.regs[M.FP]
    requires forall a | FrameWord(m1.regs[M.SP], m1.regs[M.FP], |SavedRegs(saved, 8)|, a) :: Word(m2, a) == Word(m1, a)
    ensures Exec(m2, Exit(saved)) == Some(m3)
    ensures m3.regs[M.SP] == m0.regs[M.SP] && m3.regs[M.FP] == m0.regs[M.FP] && m3.regs[M.RA] == m0.regs[M.RA]
    ensures forall r | r in SavedRegs(saved, 8) :: m3.regs[r] == m0.regs[r]
  {
    SavedRegsAscending(saved, 8);
    m3 := FrameList(m0, name, FrameSize(stack, saved), SavedRegs(saved, 8), m1, m2);
  }

  /** FrameRestores for any ascending list of callee-saved registers. */
  lemma FrameList(m0: Machine, name: string, total: int, rs: seq<M.Reg>, m1: Machine, m2: Machine)
    returns (m3: Machine)
    requires MWf(m0) && MWf(m2) && 4 * |rs| <= total
    requires forall i | 0 <= i < |rs| :: 16 <= rs[i] as int < 24
    requires forall i, j | 0 <= i < j < |rs| :: rs[i] < rs[j]
    requires Exec(m0, Prologue(name, total) + Saves(rs, 0)) == Some(m1) && MWf(m1)
    requires m2.regs[M.SP] == m1.regs[M.SP] && m2.regs[M.FP] == m1.regs[M.FP]
    requires forall a | FrameWord(m1.regs[M.SP], m1.regs[M.FP], |rs|, a) :: Word(m2, a) == Word(m1, a)
    ensures Exec(m2, Restores(rs, 0) + Epilogue) == Some(m3) && MWf(m3)
    ensures m3.regs[M.SP] == m0.regs[M.SP] && m3.regs[M.FP] == m0.regs[M.FP] && m3.regs[M.RA] == m0.regs[M.RA]
    ensures forall r | r in rs :: m3.regs[r] == m0.regs[r]
  {
    var e := EntryList(m0, name, total, rs);
    assert e == m1;
    m3 := ExitList(m2, rs);
    FrameWordsBack(m0, e, m2, m3, rs);
  }

  /** The register side of FrameList: what the entry saved in the frame's words, and the
      body left there, the exit loads back. */
  lemma FrameWordsBack(m0: Machine, m1: Machine, m2: Machine, m3: Machine, rs: seq<M.Reg>)
    requires MWf(m0) && MWf(m1) && MWf(m2) && MWf(m3)
    requires m1.regs[M.FP] == m0.regs[M.SP] - 8
    requires Word(m1, m1.regs[M.FP] + 4) == m0.regs[M.RA] && Word(m1, m1.regs[M.FP]) == m0.regs[M.FP]
    requires forall i | 0 <= i < |rs| :: Word(m1, m1.regs[M.SP] + 4 * i) == m0.regs[rs[i]]
    requires m2.regs[M.SP] == m1.regs[M.SP] && m2.regs[M.FP] == m1.regs[M.FP]
    requires forall a | FrameWord(m1.regs[M.SP], m1.regs[M.FP], |rs|, a) :: Word(m2, a) == Word(m1, a)
    requires m3.regs[M.SP] == m2.regs[M.FP] + 8
    requires m3.regs[M.RA] == Word(m2, m2.regs[M.FP] + 4) && m3.regs[M.FP] == Word(m2, m2.regs[M.FP])
    requires forall i | 0 <= i < |rs| :: m3.regs[rs[i]] == Word(m2, m2.regs[M.SP] + 4 * i)
    ensures m3.regs[M.SP] == m0.regs[M.SP] && m3.regs[M.FP] == m0.regs[M.FP] && m3.regs[M.RA] == m0.regs[M.RA]
    ensures forall r | r in rs :: m3.regs[r] == m0.regs[r]
  {
    var sp, fp := m1.regs[M.SP], m1.regs[M.FP];
    assert FrameWord(sp, fp, |rs|, fp);
    assert FrameWord(sp, fp, |rs|, fp + 4);
    forall i | 0 <= i < |rs|
      ensures m3.regs[rs[i]] == m0.regs[rs[i]]
    {
      assert FrameWord(sp, fp, |rs|, sp + 4 * i);
    }
  }

  /**
   * The body's own stores stay off the frame's words: a variable's slot at `$fp - off`
   * with 0 < off <= stack lies between the saved registers' slots and the saved `$fp`;
   * a parameter slot (ParamSlot, i >= 4) lies above the saved `$ra`; an outgoing argument
   * stored below a lowered `$sp` lies below the frame.
   */
  lemma BodyStoresApart(sp: int, stack: nat, saved: bv8, off: int, lowered: nat, k: nat)
    requires 0 < off <= stack || (exists i: nat :: 4 <= i && off == ParamSlot(i))
    requires k < lowered
    ensures !FrameWord(sp, sp + FrameSize(stack, saved), |SavedRegs(saved, 8)|, sp + FrameSize(stack, saved) - off)
    ensures !FrameWord(sp, sp + FrameSize(stack, saved), |SavedRegs(saved, 8)|, sp - 4 * lowered + 4 * k)
  {
  }

  /**
   * A callee finds its fifth and later parameters where its caller stored them: the
   * caller lowers `$sp` by a word per argument beyond four (CallArgs) and stores argument
   * i at `$sp + 4(i - 4)` (PassArg); the callee's Params gives parameter i the slot
   * ParamSlot(i), read at `$fp - ParamSlot(i)`.
   */
  lemma ParamMeetsArg(m: Machine, name: string, stack: nat, saved: bv8, i: nat)
    requires MWf(m) && 4 <= i
    ensures Exec(m, Entry(name, stack, saved)).Some?
    ensures Exec(m, Entry(name, stack, saved)).value.regs[M.FP] - ParamSlot(i) == m.regs[M.SP] + 4 * (i - 4)
  {
    var m1 := EntryLayout(m, name, stack, saved);
  }

  /* ------------------------------------------------------------------ */
  /* The invariant and the asserts                                       */
  /* ------------------------------------------------------------------ */

  lemma AllRegsInOrder()
    ensures |AllRegs| == 32 && forall i | 0 <= i < 32 :: AllRegs[i] as int == i
  {
  }

  /** Under Inv, find_var_reg never answers `$zero`, so its `> 0` tests mean "held". */
  lemma FindNotZero(st: St, x: nat)
    requires InvBut(st, -1)
    ensures FindReg(st.regs, x) != 0
    ensures FindReg(st.regs, x) > 0 <==> Resident(st.regs, x)
  {
    FindIffResident(st.regs, x);
  }

  /** write_back keeps the invariant: the freed register's variable is no longer dirty. */
  lemma WriteBackInv(st: St, r: M.Reg, x: int)
    requires InvBut(st, x) && st.regs[r] >= 0
    ensures InvBut(WriteBack(st, r), x)
  {
    var s := WriteBack(st, r);
    forall y | y in s.dirty && y != x
      ensures Resident(s.regs, y)
    {
      var q :| 0 <= q < |st.regs| && st.regs[q] == y;
      assert q != r as int;
      assert s.regs[q] == y;
    }
  }

  lemma {:induction false} WriteBackListInv(st: St, order: seq<M.Reg>, x: int)
    requires InvBut(st, x)
    ensures InvBut(WriteBackList(st, order), x)
    decreases |order|
  {
    if order != [] {
      var pre := order[..|order| - 1];
      WriteBackListInv(st, pre, x);
      var s0 := WriteBackList(st, pre);
      var r := order[|order| - 1];
      if s0.regs[r] >= 0 {
        WriteBackInv(s0, r, x);
      }
    }
  }

  /**
   * write_back_all, as at the end of a block and before a jump: every register is free
   * and no variable is dirty any more, every dirty value having been stored.
   */
  lemma WriteBackAllClears(st: St)
    requires Inv(st)
    ensures Inv(WriteBackAll(st))
    ensures WriteBackAll(st).dirty == {}
    ensures forall r: M.Reg :: WriteBackAll(st).regs[r] == -1
  {
    var s := WriteBackAll(st);
    WriteBackListInv(st, AllRegs, -1);
    AllRegsInOrder();
    forall r: M.Reg
      ensures r in AllRegs
    {
      assert AllRegs[r] == r;
    }
    forall y | y in st.dirty
      ensures y !in s.dirty
    {
      var q :| 0 <= q < |st.regs| && st.regs[q] == y;
      assert (q as M.Reg) in AllRegs;
    }
  }

  /** write_back_caller, as before a call: no caller-saved register holds a variable. */
  lemma WriteBackCallerFrees(st: St)
    requires Inv(st)
    ensures Inv(WriteBackCaller(st))
    ensures forall k | 0 <= k < |Caller| :: WriteBackCaller(st).regs[Caller[k]] == -1
    ensures forall r: M.Reg | r !in Caller :: WriteBackCaller(st).regs[r] == st.regs[r]
    ensures WriteBackCaller(st).regs[M.V0] == -1
  {
    WriteBackListInv(st, Caller, -1);
    assert M.V0 in Caller;
  }

  /**
   * clean_reg keeps the invariant, emits nothing, and leaves only live variables held:
   * a dead variable's register is freed without a store.
   */
  lemma CleanFrees(st: St, live: set<nat>)
    requires Inv(st)
    ensures Inv(Clean(st, live)) && Clean(st, live).code == st.code
    ensures forall r | 0 <= r < 32 :: Clean(st, live).regs[r] == -1 || Clean(st, live).regs[r] in live
    ensures forall r | 0 <= r < 32 && st.regs[r] >= 0 && st.regs[r] as nat in live :: Clean(st, live).regs[r] == st.regs[r]
  {
    var s := Clean(st, live);
    forall y | y in s.dirty
      ensures Resident(s.regs, y)
    {
      var q :| 0 <= q < |st.regs| && st.regs[q] == y;
      if y !in live {
        assert false;
      }
      assert s.regs[q] == y;
    }
    forall r | 0 <= r < 32
      ensures s.regs[r] == -1 || s.regs[r] in live
    {
      assert st.regs[r] >= -1;
    }
  }

  lemma CalleeInOrder()
    ensures forall k | 0 <= k < 8 :: Callee[k] as int == 16 + k
    ensures forall k | 0 <= k < 23 :: CanUse[k] == if k < 15 then Caller[k] else Callee[k - 15]
  {
  }

  /** A mask with all eight bits set is 0xff. */
  lemma AllBitsSet(b: bv8)
    requires forall k | 0 <= k < 8 :: SavedBit(b, k)
    ensures b == 0xff
  {
    assert SavedBit(b, 0) && SavedBit(b, 1) && SavedBit(b, 2) && SavedBit(b, 3);
    assert SavedBit(b, 4) && SavedBit(b, 5) && SavedBit(b, 6) && SavedBit(b, 7);
  }

  /**
   * The assert of alloc_reg (ir_mips.c:131): with no register free, every `$s` register
   * is in use, so all eight bits of the saved mask are set.
   */
  lemma AllocRegFull(st: St, x: int)
    requires InvBut(st, x)
    requires FirstFree(st.regs, Caller, 0) == -1 && FirstFree(st.regs, Callee, 0) == -1
    ensures st.saved == 0xff
  {
    CalleeInOrder();
    forall k | 0 <= k < 8
      ensures SavedBit(st.saved, k)
    {
      assert st.regs[Callee[k]] >= 0;
    }
    AllBitsSet(st.saved);
  }

  /** Binding a free register keeps every variable held where it was. */
  lemma BindKeepsResident(regs: seq<int>, r: int, x: int, y: int)
    requires 0 <= r < |regs| && regs[r] < 0 && 0 <= y && Resident(regs, y)
    ensures Resident(regs[r := x], y)
  {
    var q :| 0 <= q < |regs| && regs[q] == y;
    assert regs[r := x][q] == y;
  }

  /** Binding free register `r` to `x` keeps the invariant when `r` may hold variables and no `$s` bit is missing. */
  lemma BindInv(st: St, r: M.Reg, x: nat, s: St)
    requires InvBut(st, x) && x < |st.mem| && st.regs[r] < 0 && Usable(r as int)
    requires s == st.(regs := st.regs[r := x], saved := s.saved)
    requires forall j | 0 <= j < 8 :: SavedBit(st.saved, j) ==> SavedBit(s.saved, j)
    requires 16 <= r < 24 ==> SavedBit(s.saved, r as int - 16)
    ensures Inv(s)
  {
    forall y | y in s.dirty
      ensures Resident(s.regs, y)
    {
      if y == x {
        assert s.regs[r] == x;
      } else {
        BindKeepsResident(st.regs, r as int, x, y);
      }
    }
  }

  lemma CallerNotCallee()
    ensures forall k | 0 <= k < 15 :: !(16 <= Caller[k] < 24) && Usable(Caller[k] as int)
  {
  }

  /** alloc_caller, when it finds a register, keeps the invariant. */
  lemma AllocCallerInv(st: St, x: nat, last: nat)
    requires InvBut(st, x) && x < |st.mem| && AllocCaller(st, x, last).reg != -1
    ensures Inv(AllocCaller(st, x, last).st)
  {
    var t := AllocCaller(st, x, last);
    CallerNotCallee();
    BindInv(st, t.reg as M.Reg, x, t.st);
  }

  /** alloc_callee, when it finds a register, keeps the invariant: it sets the register's bit. */
  lemma AllocCalleeInv(st: St, x: nat, last: nat)
    requires InvBut(st, x) && x < |st.mem| && AllocCallee(st, x, last).reg != -1
    ensures Inv(AllocCallee(st, x, last).st)
  {
    var t := AllocCallee(st, x, last);
    var k := t.last - 15;
    CalleeIndex(k);
    MaskKeepsAll(st.saved, k);
    BindInv(st, t.reg as M.Reg, x, t.st);
  }

  lemma CalleeIndex(k: nat)
    requires k < 8
    ensures Callee[k] as int == 16 + k
  {
  }

  lemma MaskKeepsAll(b: bv8, k: nat)
    requires k < 8
    ensures forall j | 0 <= j < 8 :: SavedBit(b, j) ==> SavedBit(b | Mask(k), j)
    ensures SavedBit(b | Mask(k), k)
  {
    forall j | 0 <= j < 8
      ensures SavedBit(b, j) ==> SavedBit(b | Mask(k), j)
    {
      MaskKeeps(b, k, j);
    }
    MaskKeeps(b, k, k);
  }

  /** The eviction keeps the invariant, and takes out of the dirty set only the evicted variable. */
  lemma EvictInv(st: St, x: nat, last: nat)
    requires InvBut(st, x) && x < |st.mem| && st.regs[CanUse[(last + 1) % 23]] >= 0
    ensures Inv(Evict(st, x, last).st)
  {
    var k := (last + 1) % 23;
    var v := CanUse[k];
    WriteBackInv(st, v, x);
    var s := WriteBack(st, v);
    var g := Evict(st, x, last);
    UsableIsCanUse(v);
    assert s.regs[v] < 0;
    BindInv(s, v, x, g.st);
  }

  /** alloc_reg keeps the invariant (and, by its own contract, holds `x` afterwards). */
  lemma AllocRegInv(st: St, x: nat, last: nat, cross: bool)
    requires InvBut(st, x) && x < |st.mem|
    ensures Inv(AllocReg(st, x, last, cross).st)
  {
    var c, r := AllocCallee(st, x, last), AllocCaller(st, x, last);
    if (cross && c.reg > 0) || (!cross && r.reg <= 0 && c.reg > 0) {
      AllocCalleeInv(st, x, last);
    } else if r.reg > 0 {
      AllocCallerInv(st, x, last);
    } else {
      AllTaken(st.regs);
      EvictInv(st, x, last);
    }
  }

  /** Setting bit k of a mask keeps every bit already set, and sets bit k. */
  lemma MaskKeeps(b: bv8, k: nat, j: nat)
    requires k < 8 && j < 8
    ensures SavedBit(b | Mask(k), j) <==> (SavedBit(b, j) || j == k)
  {
  }

  // The choice alloc_reg makes (ir_mips.c:121-136): a variable live across a call gets
  // the first free `$s` register, and its bit in the saved mask, else the first free
  // caller-saved register; any other variable the other way round; with none free, the
  // register after `last` in reg_canuse.

  /**
   * A free `$s` register is taken when the variable lives across a call, or when no
   * caller-saved register is free (ir_mips.c:122-129); its bit is set in the saved mask.
   */
  lemma AllocRegTakesCallee(st: St, x: nat, last: nat, cross: bool)
    requires Wf(st) && x < |st.mem| && FirstFree(st.regs, Callee, 0) >= 0
    requires cross || FirstFree(st.regs, Caller, 0) == -1
    ensures AllocReg(st, x, last, cross).reg == Callee[FirstFree(st.regs, Callee, 0)]
    ensures SavedBit(AllocReg(st, x, last, cross).st.saved, FirstFree(st.regs, Callee, 0))
  {
    var kc := FirstFree(st.regs, Callee, 0);
    var tc := AllocCallee(st, x, last);
    MaskKeeps(st.saved, kc, kc);
    assert tc.reg == Callee[kc] as int > 0;
    assert AllocReg(st, x, last, cross) == GrantCallee(st, x, last);
  }

  /** A free caller-saved register is taken otherwise, when one is free (ir_mips.c:124-128). */
  lemma AllocRegTakesCaller(st: St, x: nat, last: nat, cross: bool)
    requires Wf(st) && x < |st.mem| && FirstFree(st.regs, Caller, 0) >= 0
    requires !cross || FirstFree(st.regs, Callee, 0) == -1
    ensures AllocReg(st, x, last, cross).reg == Caller[FirstFree(st.regs, Caller, 0)]
  {
    var kr := FirstFree(st.regs, Caller, 0);
    var tr := AllocCaller(st, x, last);
    assert tr.reg == Caller[kr] as int > 0;
    assert AllocReg(st, x, last, cross) == GrantCaller(st, x, last);
  }

  /** With both classes full the victim is the next register of the
      round-robin over the 23 usable ones (ir_mips.c:131-135). */
  lemma AllocRegRoundRobin(st: St, x: nat, last: nat, cross: bool)
    requires Wf(st) && x < |st.mem|
    requires FirstFree(st.regs, Caller, 0) == -1 && FirstFree(st.regs, Callee, 0) == -1
    ensures AllocReg(st, x, last, cross).last == (last + 1) % 23
    ensures AllocReg(st, x, last, cross).reg == CanUse[(last + 1) % 23]
  {
    assert AllocReg(st, x, last, cross) == EvictFull(st, x, last);
  }

  /** A step that only gives slots or emits code keeps the invariant. */
  lemma SlotsKeepInv(st: St, s: St, x: int)
    requires InvBut(st, x) && Grows(st, s)
    requires s == st.(mem := s.mem, stack := s.stack, code := s.code)
    ensures InvBut(s, x)
  {
  }

  /**
   * get_offset (ir_mips.c:50-59): a variable without a slot gets one 4 bytes past the
   * frame, which grows to include it and which no other variable uses; a variable with
   * a slot keeps it, so a second request answers the same.
   */
  lemma OffsetOnce(st: St, x: nat)
    requires MemOk(st) && x < |st.mem|
    ensures Offset(st, x).off != 0 && MemOk(Offset(st, x).st)
    ensures st.mem[x] != 0 ==> Offset(st, x) == Slot(st.mem[x], st)
    ensures st.mem[x] == 0 ==> Offset(st, x).off == st.stack + 4 == Offset(st, x).st.stack
    ensures st.mem[x] == 0 ==> forall y | 0 <= y < |st.mem| :: st.mem[y] != Offset(st, x).off
    ensures Offset(Offset(st, x).st, x) == Offset(st, x)
  {
  }

  /**
   * get_rreg (ir_mips.c:140-145) on an immediate: 0 is read from `$zero`, any other value
   * from `$v1`, after a move; only code is added, so the invariant holds.
   */
  lemma GetRRegImm(st: St, v: int, last: nat, cross: set<nat>)
    requires Inv(st)
    ensures Inv(GetRReg(st, Imm(v), last, cross).st)
    ensures GetRReg(st, Imm(v), last, cross).reg == M.Zero <==> v == 0
    ensures v == 0 ==> GetRReg(st, Imm(v), last, cross).st == st
    ensures v != 0 ==> (GetRReg(st, Imm(v), last, cross).reg == M.V1 &&
      GetRReg(st, Imm(v), last, cross).st == st.(code := st.code + [M.Move(M.V1, M.I(v))]))
  {
  }

  /** get_rreg (ir_mips.c:146-149) on a held variable: its register, with nothing emitted. */
  lemma GetRRegHeld(st: St, x: nat, last: nat, cross: set<nat>)
    requires Inv(st) && x < |st.mem| && Resident(st.regs, x)
    ensures GetRReg(st, Var(x), last, cross).st == st
    ensures GetRReg(st, Var(x), last, cross).reg != M.Zero
    ensures st.regs[GetRReg(st, Var(x), last, cross).reg] == x
  {
    FindNotZero(st, x);
  }

  /**
   * get_rreg (ir_mips.c:150-159) on a variable not held: it is not dirty (the assert at
   * ir_mips.c:153), so its slot is current; a register from alloc_reg is loaded from the
   * slot, and the invariant holds after.
   */
  /**
   * get_rreg on a variable not held is the load of LoadReg. The variable, not being held,
   * is not dirty (the assert at ir_mips.c:153), so the slot it is loaded from is current;
   * the invariant holds after.
   */
  lemma GetRRegLoads(st: St, x: nat, last: nat, cross: set<nat>)
    requires Inv(st) && x < |st.mem| && !Resident(st.regs, x)
    ensures x !in st.dirty
    ensures GetRReg(st, Var(x), last, cross) == LoadReg(st, x, last, cross)
    ensures Inv(GetRReg(st, Var(x), last, cross).st)
  {
    FindNotZero(st, x);
    LoadKeepsInv(st, x, last, cross, LoadReg(st, x, last, cross).st);
  }

  /** Loading a variable that is not held keeps the invariant. */
  lemma LoadKeepsInv(st: St, x: nat, last: nat, cross: set<nat>, s: St)
    requires Inv(st) && x < |st.mem| && !Resident(st.regs, x)
    requires s == LoadInto(st, x, AllocReg(st, x, last, x in cross)).st
    ensures Inv(s)
  {
    var a := AllocReg(st, x, last, x in cross);
    var sl := Offset(a.st, x);
    AllocRegInv(st, x, last, x in cross);
    SlotsKeepInv(a.st, sl.st, -1);
    SlotsKeepInv(a.st, s, -1);
  }

  /**
   * get_lreg (ir_mips.c:172-180) on a held variable: it stays in its register, now dirty,
   * and nothing is emitted.
   */
  lemma GetLRegHeld(st: St, x: nat, last: nat, cross: set<nat>)
    requires Inv(st) && x < |st.mem| && Resident(st.regs, x)
    ensures GetLReg(st, x, last, cross).st == st.(dirty := st.dirty + {x})
    ensures GetLReg(st, x, last, cross).reg as int == FindReg(st.regs, x)
    ensures Inv(GetLReg(st, x, last, cross).st)
  {
    FindNotZero(st, x);
  }

  lemma GetLRegUnheld(st: St, x: nat, last: nat, cross: set<nat>)
    requires Inv(st) && x < |st.mem| && !Resident(st.regs, x)
    ensures GetLReg(st, x, last, cross) == AllocReg(st.(dirty := st.dirty + {x}), x, last, x in cross)
  {
    FindNotZero(st, x);
  }

  /**
   * get_lreg (ir_mips.c:172-180) on a variable not held: it is marked dirty and given a
   * register by alloc_reg, and the invariant holds after.
   */
  lemma GetLRegAllocs(st: St, x: nat, last: nat, cross: set<nat>)
    requires Inv(st) && x < |st.mem| && !Resident(st.regs, x)
    ensures Inv(GetLReg(st, x, last, cross).st)
  {
    GetLRegUnheld(st, x, last, cross);
    MarkDirtyInv(st, x);
    AllocRegInv(st.(dirty := st.dirty + {x}), x, last, x in cross);
  }

  /**
   * get_lreg leaves its variable dirty: an eviction by alloc_reg clears only the evicted
   * variable's bit, and that is another variable.
   */
  lemma GetLRegDirty(st: St, x: nat, last: nat, cross: set<nat>)
    requires Inv(st) && x < |st.mem|
    ensures x in GetLReg(st, x, last, cross).st.dirty
  {
    if Resident(st.regs, x) {
      assert x in GetLReg(st, x, last, cross).st.dirty by {
        GetLRegHeld(st, x, last, cross);
      }
    } else {
      GetLRegUnheld(st, x, last, cross);
      var s := st.(dirty := st.dirty + {x});
      EvictsOther(s, x, AllocReg(s, x, last, x in cross));
    }
  }

  /** A register handed out for a variable not held clears at most the dirty bit of the
      variable it held, which is another one. */
  lemma EvictsOther(s: St, x: nat, a: Got)
    requires Wf(s) && x in s.dirty && !Resident(s.regs, x)
    requires a.st.dirty == s.dirty || (s.regs[a.reg] >= 0 && a.st.dirty == s.dirty - {s.regs[a.reg] as nat})
    ensures x in a.st.dirty
  {
    assert s.regs[a.reg] != x;
  }

  /** Marking `x` dirty before it is held leaves the invariant broken for `x` only. */
  lemma MarkDirtyInv(st: St, x: nat)
    requires Inv(st) && x < |st.mem|
    ensures InvBut(st.(dirty := st.dirty + {x}), x)
  {
  }



  /** get_rreg keeps the invariant, whatever the operand. */
  lemma GetRRegInv(st: St, o: Opr, last: nat, cross: set<nat>)
    requires Inv(st) && OprIn(o, |st.mem|)
    ensures Inv(GetRReg(st, o, last, cross).st)
  {
    match o
    case Imm(v) => GetRRegImm(st, v, last, cross);
    case Var(x) =>
      if Resident(st.regs, x) {
        GetRRegHeld(st, x, last, cross);
      } else {
        GetRRegLoads(st, x, last, cross);
      }
  }

  /** get_ropr keeps the invariant. */
  lemma GetROprInv(st: St, o: Opr, last: nat, cross: set<nat>)
    requires Inv(st) && OprIn(o, |st.mem|)
    ensures Inv(GetROpr(st, o, last, cross).st)
  {
    if o.Var? {
      GetRRegInv(st, o, last, cross);
    }
  }

  /** get_lreg keeps the invariant. */
  lemma GetLRegInv(st: St, x: nat, last: nat, cross: set<nat>)
    requires Inv(st) && x < |st.mem|
    ensures Inv(GetLReg(st, x, last, cross).st)
  {
    if Resident(st.regs, x) {
      GetLRegHeld(st, x, last, cross);
    } else {
      GetLRegAllocs(st, x, last, cross);
    }
  }

  /**
   * The goto visitor (ir_mips.c:290-295): before the jump every register is written back,
   * so at the jump no register holds a variable and none is dirty; the jump comes last.
   */
  lemma GotoWritesBack(st: St, t: nat)
    requires Inv(st)
    ensures Inv(GotoCode(st, t)) && GotoCode(st, t).dirty == {}
    ensures forall r: M.Reg :: GotoCode(st, t).regs[r] == -1
    ensures GotoCode(st, t).code == WriteBackAll(st).code + [M.J(t)]
  {
    WriteBackAllClears(st);
  }

  /**
   * The branch visitor (ir_mips.c:297-305): after its operands are read every register is
   * written back, so at the conditional jump no register holds a variable and none is
   * dirty; the jump comes last.
   */
  lemma BranchWritesBack(st: St, o1: Opr, o2: Opr, rel: Relop, t: nat, out: set<nat>, last: nat, cross: set<nat>)
    requires Inv(st) && OprIn(o1, |st.mem|) && OprIn(o2, |st.mem|)
    ensures Inv(BranchCode(st, o1, o2, rel, t, out, last, cross).st)
    ensures BranchCode(st, o1, o2, rel, t, out, last, cross).st.dirty == {}
    ensures forall r: M.Reg :: BranchCode(st, o1, o2, rel, t, out, last, cross).st.regs[r] == -1
    ensures BranchCode(st, o1, o2, rel, t, out, last, cross).st.code[|BranchCode(st, o1, o2, rel, t, out, last, cross).st.code| - 1].Bcc?
  {
    var a := GetRReg(st, o1, last, cross);
    GetRRegInv(st, o1, last, cross);
    var b := GetROpr(a.st, o2, a.last, cross);
    GetROprInv(a.st, o2, a.last, cross);
    var c := Clean(b.st, out);
    CleanFrees(b.st, out);
    WriteBackAllClears(c);
  }

  /** The registers pass_reg fills and that may then hold the variable: `$v0` and `$a0`-`$a3`. */
  predicate ArgReg(r: M.Reg) { r == M.V0 || M.A0 <= r <= M.A3 }

  /**
   * pass_reg (ir_mips.c:192-216) into `$v0` or an argument register keeps the invariant:
   * the register's old variable is written back first, and a variable loaded into it from
   * its slot is not dirty, since it was not held.
   */
  lemma PassRegInv(st: St, o: Opr, r: M.Reg)
    requires Inv(st) && OprIn(o, |st.mem|) && ArgReg(r)
    ensures Inv(PassReg(st, o, r))
  {
    if !(o.Var? && st.regs[r] == o.id) {
      if st.regs[r] >= 0 {
        WriteBackInv(st, r, -1);
      }
      FillInv(Vacate(st, r), o, r);
    }
  }

  lemma FillInv(st: St, o: Opr, r: M.Reg)
    requires Inv(st) && OprIn(o, |st.mem|) && ArgReg(r) && st.regs[r] < 0
    ensures Inv(Fill(st, o, r))
  {
    if o.Var? {
      var x := o.id;
      FindNotZero(st, x);
      if !Resident(st.regs, x) {
        var sl := Offset(st, x);
        var b := sl.st.(regs := sl.st.regs[r := x]);
        assert Inv(b) by {
          SlotsKeepInv(st, sl.st, -1);
          BindInv(sl.st, r, x, b);
        }
        SlotsKeepInv(b, Fill(st, o, r), -1);
      }
    }
  }


  /** The MOV visitor keeps the invariant. */
  lemma MovInv(st: St, d: nat, o: Opr, out: set<nat>, last: nat, cross: set<nat>)
    requires Inv(st) && d < |st.mem| && OprIn(o, |st.mem|)
    ensures Inv(MovCode(st, d, o, out, last, cross).st)
  {
    var a := GetROpr(st, o, last, cross);
    GetROprInv(st, o, last, cross);
    var c := Clean(a.st, out);
    CleanFrees(a.st, out);
    var b := GetLReg(c, d, a.last, cross);
    GetLRegInv(c, d, a.last, cross);
    if a.src != M.R(b.reg) {
      SlotsKeepInv(b.st, Emit(b.st, M.Move(b.reg, a.src)), -1);
    }
  }

  /** The arithmetic visitor keeps the invariant. */
  lemma ArthInv(st: St, d: nat, o1: Opr, o2: Opr, op: ArithOp, out: set<nat>, last: nat, cross: set<nat>)
    requires Inv(st) && d < |st.mem| && OprIn(o1, |st.mem|) && OprIn(o2, |st.mem|)
    ensures Inv(ArthCode(st, d, o1, o2, op, out, last, cross).st)
  {
    var a := GetRReg(st, o1, last, cross);
    GetRRegInv(st, o1, last, cross);
    var b := GetROpr(a.st, o2, a.last, cross);
    GetROprInv(a.st, o2, a.last, cross);
    var c := Clean(b.st, out);
    CleanFrees(b.st, out);
    var e := GetLReg(c, d, b.last, cross);
    GetLRegInv(c, d, b.last, cross);
    SlotsKeepInv(e.st, Emit(e.st, M.Arth(e.reg, a.reg, b.src, op)), -1);
  }

  /** The address visitor keeps the invariant. */
  lemma AddrInv(st: St, d: nat, v: nat, last: nat, cross: set<nat>)
    requires Inv(st) && d < |st.mem| && v < |st.mem|
    ensures AddrCode(st, d, v, last, cross).Some? ==> Inv(AddrCode(st, d, v, last, cross).value.st)
  {
    var e := GetLReg(st, d, last, cross);
    GetLRegInv(st, d, last, cross);
    SlotsKeepInv(e.st, Emit(e.st, M.Arth(e.reg, M.FP, M.I(-e.st.mem[v]), Plus)), -1);
  }

  /** The load visitor keeps the invariant. */
  lemma LoadInv(st: St, d: nat, v: nat, out: set<nat>, last: nat, cross: set<nat>)
    requires Inv(st) && d < |st.mem| && v < |st.mem|
    ensures Inv(LoadCode(st, d, v, out, last, cross).st)
  {
    var a := GetRReg(st, Var(v), last, cross);
    GetRRegInv(st, Var(v), last, cross);
    var c := Clean(a.st, out);
    CleanFrees(a.st, out);
    var e := GetLReg(c, d, a.last, cross);
    GetLRegInv(c, d, a.last, cross);
    SlotsKeepInv(e.st, Emit(e.st, M.Lw(e.reg, a.reg, 0)), -1);
  }

  /** The store visitor keeps the invariant. */
  lemma StoreInv(st: St, v: nat, o: Opr, last: nat, cross: set<nat>)
    requires Inv(st) && v < |st.mem| && OprIn(o, |st.mem|)
    ensures Inv(StoreCode(st, v, o, last, cross).st)
  {
    var a := GetRReg(st, o, last, cross);
    GetRRegInv(st, o, last, cross);
    var b := GetRReg(a.st, Var(v), a.last, cross);
    GetRRegInv(a.st, Var(v), a.last, cross);
    SlotsKeepInv(b.st, Emit(b.st, M.Sw(b.reg, 0, a.reg)), -1);
  }

  /** The return visitor keeps the invariant. */
  lemma RetInv(st: St, o: Opr)
    requires Inv(st) && OprIn(o, |st.mem|)
    ensures Inv(RetCode(st, o))
  {
    PassRegInv(st, o, M.V0);
    SlotsKeepInv(PassReg(st, o, M.V0), RetCode(st, o), -1);
  }

  /** WRITE keeps the invariant. */
  lemma WriteInv(st: St, o: Opr, out: set<nat>)
    requires Inv(st) && OprIn(o, |st.mem|)
    ensures Inv(WriteCode(st, o, out))
  {
    var a := PassReg(st, o, M.A0);
    PassRegInv(st, o, M.A0);
    var c := Clean(a, out);
    CleanFrees(a, out);
    var w := WriteBackCaller(c);
    WriteBackCallerFrees(c);
    SlotsKeepInv(w, Emit(w, M.Jal("write")), -1);
  }

  /** Binding `$v0` to `d`, free after write_back_caller, and marking it dirty keeps the invariant. */
  lemma ResultInv(st: St, d: nat)
    requires Inv(st) && d < |st.mem| && st.regs[M.V0] == -1
    ensures Inv(st.(regs := st.regs[M.V0 := d], dirty := st.dirty + {d}))
  {
    var s := st.(regs := st.regs[M.V0 := d], dirty := st.dirty + {d});
    forall y | y in s.dirty
      ensures Resident(s.regs, y)
    {
      if y == d {
        assert s.regs[M.V0] == d;
      } else {
        BindKeepsResident(st.regs, M.V0 as int, d, y);
      }
    }
  }

  /** READ keeps the invariant. */
  lemma ReadInv(st: St, v: nat)
    requires Inv(st) && v < |st.mem|
    ensures Inv(ReadCode(st, v))
  {
    var w := WriteBackCaller(st);
    WriteBackCallerFrees(st);
    var e := Emit(w, M.Jal("read"));
    SlotsKeepInv(w, e, -1);
    ResultInv(e, v);
  }

  /**
   * An argument past the fourth keeps the invariant: it is stored from the register that
   * holds it, or through `$v1`, which holds no variable before or after.
   */
  lemma PassArgInv(st: St, o: Opr, i: nat)
    requires Inv(st) && OprIn(o, |st.mem|)
    ensures Inv(PassArg(st, o, i))
  {
    if i < 4 {
      PassRegInv(st, o, (4 + i) as M.Reg);
    } else {
      var f := if o.Var? then FindReg(st.regs, o.id) else -1;
      var reg: M.Reg := if f > 0 then f as M.Reg else M.V1;
      var t := PassReg(st, o, reg);
      var u := t.(regs := t.regs[M.V1 := -1]);
      assert st.regs[M.V1] == -1;
      if f > 0 {
        assert t == st;
        assert u == st;
      } else {
        assert Fill(st, o, M.V1) == t;
        assert u == st.(mem := u.mem, stack := u.stack, code := u.code);
      }
      SlotsKeepInv(st, u, -1);
      SlotsKeepInv(u, PassArg(st, o, i), -1);
    }
  }

  lemma {:induction false} PassArgsInv(st: St, args: seq<Opr>, n: nat)
    requires Inv(st) && n <= |args| && forall a | a in args :: OprIn(a, |st.mem|)
    ensures Inv(PassArgs(st, args, n))
  {
    if n > 0 {
      PassArgsInv(st, args, n - 1);
      assert args[n - 1] in args;
      PassArgInv(PassArgs(st, args, n - 1), args[n - 1], n - 1);
    }
  }

  /** The first half of the CALL visitor keeps the invariant. */
  lemma CallArgsInv(st: St, args: seq<Opr>)
    requires Inv(st) && forall a | a in args :: OprIn(a, |st.mem|)
    ensures Inv(CallArgs(st, args))
  {
    var n := |args|;
    var s0 := if n > 4 then Emit(st, M.Arth(M.SP, M.SP, M.I(4 * (4 - n)), Plus)) else st;
    SlotsKeepInv(st, s0, -1);
    PassArgsInv(s0, args, n);
  }

  /** The CALL visitor keeps the invariant; the result is dirty in `$v0`. */
  lemma CallInv(st: St, d: nat, f: string, args: seq<Opr>, out: set<nat>)
    requires Inv(st) && d < |st.mem| && forall a | a in args :: OprIn(a, |st.mem|)
    ensures Inv(CallCode(st, d, f, args, out))
    ensures CallCode(st, d, f, args, out).regs[M.V0] == d && d in CallCode(st, d, f, args, out).dirty
  {
    var n := |args|;
    var s1 := CallArgs(st, args);
    var c := Clean(s1, out);
    var s2 := WriteBackCaller(c);
    assert Inv(s2) && s2.regs[M.V0] == -1 by {
      CallArgsInv(st, args);
      CleanFrees(s1, out);
      WriteBackCallerFrees(c);
    }
    var s3 := Emit(s2, M.Jal(f));
    var s4 := if n > 4 then Emit(s3, M.Arth(M.SP, M.SP, M.I(4 * (n - 4)), Plus)) else s3;
    SlotsKeepInv(s2, s4, -1);
    ResultInv(s4, d);
    assert CallCode(st, d, f, args, out) == s4.(regs := s4.regs[M.V0 := d], dirty := s4.dirty + {d});
  }


  /**
   * The FUNCTION visitor keeps the invariant when `$a0`-`$a3` are free, as they are at the
   * start of a function's first block; the registers of the later parameters stay free.
   */
  lemma {:induction false} ParamsInv(st: St, ps: seq<nat>, n: nat)
    requires Inv(st) && n <= |ps| && (forall p | p in ps :: p < |st.mem|)
    requires forall k | 4 <= k < 8 :: st.regs[k] == -1
    ensures Inv(Params(st, ps, n))
    ensures forall k | 4 + n <= k < 8 :: Params(st, ps, n).regs[k] == -1
  {
    if n > 0 {
      ParamsInv(st, ps, n - 1);
      var s0 := Params(st, ps, n - 1);
      var i := n - 1;
      var p := ps[i];
      assert p in ps;
      if i < 4 {
        assert s0.regs[4 + i] == -1;
        ResultArgInv(s0, (4 + i) as M.Reg, p);
      } else {
        var s := s0.(mem := s0.mem[p := ParamSlot(i)]);
        assert MemOk(s) by {
          forall y, z | 0 <= y < z < |s.mem| && 0 < s.mem[y]
            ensures s.mem[y] != s.mem[z]
          {
            if y != p && z != p {
              assert s0.mem[y] == s.mem[y] && s0.mem[z] == s.mem[z];
            }
          }
        }
      }
    }
  }

  /** Binding a free argument register to `p` and marking it dirty keeps the invariant. */
  lemma ResultArgInv(st: St, r: M.Reg, p: nat)
    requires Inv(st) && p < |st.mem| && 4 <= r < 8 && st.regs[r] == -1
    ensures Inv(st.(regs := st.regs[r := p], dirty := st.dirty + {p}))
  {
    var s := st.(regs := st.regs[r := p], dirty := st.dirty + {p});
    forall y | y in s.dirty
      ensures Resident(s.regs, y)
    {
      if y == p {
        assert s.regs[r] == p;
      } else {
        BindKeepsResident(st.regs, r as int, p, y);
      }
    }
  }

  /** The DEC visitor keeps the invariant: a block of n > 0 bytes past the frame. */
  lemma AllocInv(st: St, v: nat, n: int)
    requires Inv(st) && v < |st.mem| && n > 0
    ensures Inv(AllocCode(st, v, n))
  {
    var s := AllocCode(st, v, n);
    assert MemOk(s) by {
      forall y, z | 0 <= y < z < |s.mem| && 0 < s.mem[y]
        ensures s.mem[y] != s.mem[z]
      {
        if y != v && z != v {
          assert st.mem[y] == s.mem[y] && st.mem[z] == s.mem[z];
        }
      }
    }
  }

  /**
   * What one instruction may assume of the state it is translated in: a FUNCTION finds
   * `$a0`-`$a3` free, as at the head of a function, and a DEC reserves a positive size.
   */
  predicate Fits(st: St, x: Instr)
    requires Wf(st)
  {
    (x.Func? ==> forall k | 4 <= k < 8 :: st.regs[k] == -1) && (x.Alloc? ==> x.size > 0)
  }

  /** Every visitor keeps the invariant of the allocator. */
  lemma TranslateInv(st: St, x: Instr, out: set<nat>, last: nat, cross: set<nat>)
    requires Inv(st) && InstrIn(x, |st.mem|) && Fits(st, x)
    ensures Translate(st, x, out, last, cross).Some? ==> Inv(Translate(st, x, out, last, cross).value.st)
  {
    match x
    case Nop =>
    case Label(_) =>
    case Func(_, ps) => ParamsInv(st, ps, |ps|);
    case Mov(d, o) => MovInv(st, d, o, out, last, cross);
    case Arth(d, o1, o2, op) => ArthInv(st, d, o1, o2, op, out, last, cross);
    case Addr(d, v) => AddrInv(st, d, v, last, cross);
    case Load(d, v) => LoadInv(st, d, v, out, last, cross);
    case Store(v, o) => StoreInv(st, v, o, last, cross);
    case Goto(t, _) => GotoWritesBack(st, t);
    case Branch(o1, o2, rel, t, _) => BranchWritesBack(st, o1, o2, rel, t, out, last, cross);
    case Ret(o) => RetInv(st, o);
    case Alloc(v, n) => if st.mem[v] == 0 { AllocInv(st, v, n); }
    case Call(d, f, args) => CallInv(st, d, f, args, out);
    case Read(v) => ReadInv(st, v);
    case Write(o) => WriteInv(st, o, out);
  }

  /**
   * A jump leaves no register holding a variable and no variable dirty: goto and branch
   * write everything back before they jump (ir_mips.c:290-305).
   */
  lemma JumpLeavesClean(st: St, x: Instr, out: set<nat>, last: nat, cross: set<nat>)
    requires Inv(st) && InstrIn(x, |st.mem|) && (x.Goto? || x.Branch?)
    ensures Translate(st, x, out, last, cross).Some?
    ensures Translate(st, x, out, last, cross).value.st.dirty == {}
    ensures forall r: M.Reg :: Translate(st, x, out, last, cross).value.st.regs[r] == -1
  {
    if x.Goto? {
      GotoWritesBack(st, x.target);
    } else {
      BranchWritesBack(st, x.opr1, x.opr2, x.rel, x.target, out, last, cross);
    }
  }

  /**
   * The instructions of irs[lo..hi] as a function's code has them: a FUNCTION only first,
   * and every DEC of a positive size.
   */
  predicate Headed(irs: seq<Instr>, lo: nat, hi: nat)
    requires lo <= hi <= |irs|
  {
    forall i | lo <= i < hi :: (irs[i].Func? ==> i == lo) && (irs[i].Alloc? ==> irs[i].size > 0)
  }

  /** Clean frees only registers; one with every register free stays so. */
  lemma CleanKeepsFree(st: St, live: set<nat>)
    requires Wf(st) && st.regs == Free
    ensures Clean(st, live).regs == Free
  {
  }

  /** The loop of ir_mips_bb keeps the invariant, from a state with every register free. */
  /** One turn of the loop keeps the invariant. */
  lemma BodyStepInv(run: Run, x: Instr, live: set<nat>, out: set<nat>, cross: set<nat>)
    requires Inv(run.st) && InstrIn(x, |run.st.mem|) && (x.Alloc? ==> x.size > 0)
    requires x.Func? ==> run.st.regs == Free
    ensures BodyStep(run, x, live, out, cross).Some? ==> Inv(BodyStep(run, x, live, out, cross).value.st)
  {
    if !run.ended {
      var c := Clean(run.st, live);
      assert Inv(c) && Fits(c, x) by {
        CleanFrees(run.st, live);
        if x.Func? {
          CleanKeepsFree(run.st, live);
        }
      }
      TranslateInv(c, x, out, run.last, cross);
    }
  }

  /** The loop of ir_mips_bb keeps the invariant, from a state with every register free. */
  lemma {:induction false} BodyInv(st: St, irs: seq<Instr>, start: nat, i: nat, ins: seq<set<nat>>,
                                   outs: seq<set<nat>>, last: nat, cross: set<nat>)
    requires start <= i <= |irs| <= |ins| && |irs| <= |outs|
    requires Wf(st) && RangeIn(irs, start, i, |st.mem|)
    requires Inv(st) && st.regs == Free && Headed(irs, start, i)
    ensures Body(st, irs, start, i, ins, outs, last, cross).Some? ==>
      Inv(Body(st, irs, start, i, ins, outs, last, cross).value.st)
    decreases i
  {
    if i > start {
      BodyInv(st, irs, start, i - 1, ins, outs, last, cross);
      var pre := Body(st, irs, start, i - 1, ins, outs, last, cross);
      if pre.Some? {
        assert i - 1 == start ==> pre.value.st == st;
        BodyStepInv(pre.value, irs[i - 1], ins[i - 1], outs[i - 1], cross);
      }
    }
  }




  /** ir_mips_bb (ir_mips.c:378-398) keeps the invariant. */
  lemma BlockInv(st: St, irs: seq<Instr>, b: IrProgram.Block, ins: seq<set<nat>>,
                 outs: seq<set<nat>>, last: nat, cross: set<nat>)
    requires b.start < b.end <= |irs| <= |ins| && |irs| <= |outs|
    requires Wf(st) && RangeIn(irs, b.start, b.end, |st.mem|)
    requires MemOk(st) && Headed(irs, b.start, b.end)
    ensures BlockCode(st, irs, b, ins, outs, last, cross).Some? ==>
      Inv(BlockCode(st, irs, b, ins, outs, last, cross).value.st)
  {
    var s1 := BlockStart(st, b);
    BodyInv(s1, irs, b.start, b.end, ins, outs, last, cross);
    var body := Body(s1, irs, b.start, b.end, ins, outs, last, cross);
    if body.Some? && !body.value.ended {
      CleanFrees(body.value.st, outs[b.end - 1]);
      WriteBackAllClears(Clean(body.value.st, outs[b.end - 1]));
    }
  }

  /**
   * A block not ended by a return leaves no register holding a variable and no variable
   * dirty: either its jump wrote everything back (ir_mips.c:290-305), or everything is
   * written back at the block's end (ir_mips.c:394-397).
   */
  lemma BlockLeavesClean(st: St, irs: seq<Instr>, b: IrProgram.Block, ins: seq<set<nat>>,
                         outs: seq<set<nat>>, last: nat, cross: set<nat>)
    requires b.start < b.end <= |irs| <= |ins| && |irs| <= |outs|
    requires Wf(st) && RangeIn(irs, b.start, b.end, |st.mem|)
    requires MemOk(st) && Headed(irs, b.start, b.end) && !irs[b.end - 1].Ret?
    ensures BlockCode(st, irs, b, ins, outs, last, cross).Some? ==>
      (BlockCode(st, irs, b, ins, outs, last, cross).value.st.dirty == {} &&
       forall r: M.Reg :: BlockCode(st, irs, b, ins, outs, last, cross).value.st.regs[r] == -1)
  {
    var s1 := BlockStart(st, b);
    var body := Body(s1, irs, b.start, b.end, ins, outs, last, cross);
    if body.Some? {
      var run := body.value;
      if !run.ended {
        FallLeavesClean(st, irs, b, ins, outs, last, cross);
      } else {
        BodyJumpLeavesClean(s1, irs, b.start, b.end, ins, outs, last, cross);
      }
    }
  }

  /** A block whose body runs to its end is written back and cleaned there. */
  lemma FallLeavesClean(st: St, irs: seq<Instr>, b: IrProgram.Block, ins: seq<set<nat>>,
                        outs: seq<set<nat>>, last: nat, cross: set<nat>)
    requires b.start < b.end <= |irs| <= |ins| && |irs| <= |outs|
    requires Wf(st) && RangeIn(irs, b.start, b.end, |st.mem|)
    requires MemOk(st) && Headed(irs, b.start, b.end)
    requires Body(BlockStart(st, b), irs, b.start, b.end, ins, outs, last, cross).Some?
    ensures var run := Body(BlockStart(st, b), irs, b.start, b.end, ins, outs, last, cross).value;
      var w := WriteBackAll(Clean(run.st, outs[b.end - 1]));
      w.dirty == {} && forall r: M.Reg :: w.regs[r] == -1
  {
    var s1 := BlockStart(st, b);
    var run := Body(s1, irs, b.start, b.end, ins, outs, last, cross).value;
    BodyInv(s1, irs, b.start, b.end, ins, outs, last, cross);
    CleanFrees(run.st, outs[b.end - 1]);
    WriteBackAllClears(Clean(run.st, outs[b.end - 1]));
  }


  /** A block's instructions that end in a jump leave every register free and nothing dirty. */
  lemma BodyJumpLeavesClean(st: St, irs: seq<Instr>, start: nat, i: nat, ins: seq<set<nat>>,
                            outs: seq<set<nat>>, last: nat, cross: set<nat>)
    requires start < i <= |irs| <= |ins| && |irs| <= |outs|
    requires Wf(st) && RangeIn(irs, start, i, |st.mem|)
    requires Inv(st) && st.regs == Free && Headed(irs, start, i) && irs[i - 1].IsJump()
    ensures Body(st, irs, start, i, ins, outs, last, cross).Some? ==>
      (Body(st, irs, start, i, ins, outs, last, cross).value.st.dirty == {} &&
       forall r: M.Reg :: Body(st, irs, start, i, ins, outs, last, cross).value.st.regs[r] == -1)
  {
    var pre := Body(st, irs, start, i - 1, ins, outs, last, cross);
    BodyInv(st, irs, start, i - 1, ins, outs, last, cross);
    if pre.Some? && !pre.value.ended {
      var run := pre.value;
      var c := Clean(run.st, ins[i - 1]);
      assert Inv(c) by {
        assert Inv(run.st);
        CleanFrees(run.st, ins[i - 1]);
      }
      JumpLeavesClean(c, irs[i - 1], outs[i - 1], pre.value.last, cross);
      assert Body(st, irs, start, i, ins, outs, last, cross) ==
        BodyStep(pre.value, irs[i - 1], ins[i - 1], outs[i - 1], cross);
    }
  }

  /* ------------------------------------------------------------------ */
  /* The program                                                         */
  /* ------------------------------------------------------------------ */

  /** One function as `ir_mips` reads it: its name, whether it is reachable, its code and
      blocks, and what the livevar pass left for it (per-instruction live-in and live-out
      sets, the variables live across a call). */
  datatype Func = Func(name: string, reachable: bool, irs: seq<Instr>, bbs: seq<IrProgram.Block>,
                       reach: seq<bool>, ins: seq<set<nat>>, outs: seq<set<nat>>, cross: set<nat>)

  /** What ir_mips_cfg asks of a function of a program with `vars` variables. */
  predicate FuncOk(f: Func, vars: nat)
  {
    |f.bbs| == |f.reach| && |f.irs| <= |f.ins| && |f.irs| <= |f.outs| && BlocksIn(f.irs, f.bbs, vars)
  }

  /** The record ir_mips_init gives every reachable function (ir_mips.c:14-23): no register
      taken, nothing dirty, no slot, an empty frame, no saved register, no code. */
  function Fresh(vars: nat): (st: St)
    ensures Inv(st) && |st.mem| == vars && st.code == [] && st.stack == 0 && st.saved == 0
  {
    FreeAll();
    St(Free, {}, seq(vars, _ => 0), 0, 0, [])
  }

  /** Prologues and epilogues never return. */
  lemma FrameNoRet(name: string, stack: int, saved: bv8)
    ensures M.NoRet(Entry(name, stack, saved)) && M.NoRet(Exit(saved))
  {
  }

  /** What ir_mips_cfg leaves for a reachable function whose blocks ended in `step`: the
      prologue and epilogue of the frame the body grew, and the body. */
  function Translated(f: Func, step: Step): (e: M.Emitted)
    ensures e.reachable && M.Printable(e) && e.body == step.st.code
  {
    FrameNoRet(f.name, step.st.stack, step.st.saved);
    M.Emitted(true, Entry(f.name, step.st.stack, step.st.saved), step.st.code, Exit(step.st.saved))
  }

  /**
   * ir_mips (ir_mips.c:438-447) over fs[..k]: every reachable function is translated from
   * a fresh record, and the round-robin cursor `last_alloc_ureg_i`, a static that
   * ir_mips_init does not reset, starts where the previous function left it; an
   * unreachable function emits nothing and leaves the cursor. None where an assert fails.
   * The result is the list `mips_dump` prints.
   */
  function MipsProgram(fs: seq<Func>, vars: nat, last: nat, k: nat): (r: Option<(seq<M.Emitted>, nat)>)
    requires k <= |fs| && forall i | 0 <= i < |fs| :: FuncOk(fs[i], vars)
    ensures r.Some? ==> |r.value.0| == k
    ensures r.Some? ==> forall i | 0 <= i < k ::
      r.value.0[i].reachable == fs[i].reachable && M.Printable(r.value.0[i])
  {
    if k == 0 then Some(([], last))
    else
      match MipsProgram(fs, vars, last, k - 1)
      case None => None
      case Some(p) =>
        var f := fs[k - 1];
        if !f.reachable then Some((p.0 + [M.Emitted(false, [], [], [])], p.1))
        else
          match Blocks(Fresh(vars), f.irs, f.bbs, f.reach, f.ins, f.outs, p.1, f.cross, |f.bbs|)
          case None => None
          case Some(step) => Some((p.0 + [Translated(f, step)], step.last))
  }

  /** Once ir_mips has failed on a function it stays failed. */
  lemma {:induction false} MipsProgramNoneStays(fs: seq<Func>, vars: nat, last: nat, k: nat, n: nat)
    requires k <= n <= |fs| && forall i | 0 <= i < |fs| :: FuncOk(fs[i], vars)
    requires MipsProgram(fs, vars, last, k).None?
    ensures MipsProgram(fs, vars, last, n).None?
    decreases n
  {
    if n > k {
      MipsProgramNoneStays(fs, vars, last, k, n - 1);
      NoneNext(fs, vars, last, n);
    }
  }

  lemma NoneNext(fs: seq<Func>, vars: nat, last: nat, n: nat)
    requires 0 < n <= |fs| && forall i | 0 <= i < |fs| :: FuncOk(fs[i], vars)
    requires MipsProgram(fs, vars, last, n - 1).None?
    ensures MipsProgram(fs, vars, last, n).None?
  {
  }
}
