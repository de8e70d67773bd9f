# nju-compiler back end, modelled in Dafny

This project models the back end of nju-compiler, a compiler for a small C-like
language that emits MIPS assembly, and proves properties of the model. The modelled
part takes the annotated abstract syntax tree to a three-address IR, optimises the IR
and allocates registers to produce assembly text. It covers:

- the container library (`container.c`): the growable list, the bitsets, the duplicate-free
  FIFO worklist on a power-of-two ring, the association list and the hash map with its
  "top" state;
- the IR (`ir.c`): operand and expression equality and hashing, the label reference-count
  protocol, `add_ir` with its splitting of arithmetic through the expression map, basic
  blocks, edges, reachability inside a function and across the call graph, the peephole
  driver `ir_hole` and the worklist fixpoint `ir_iter_cfg`;
- the four dataflow passes: constant propagation and folding (`ir_constant.c`), available
  expressions with redundancy elimination and copy folding (`ir_avexpr.c`), affine facts
  packed in a word with linear substitution (`ir_arthprog.c`), and liveness with dead-store
  elimination, copy coalescing and the cross-call set (`ir_livevar.c`);
- the peephole pass (`ir_hole.c`);
- the register allocator, frame layout and instruction selection (`ir_mips.c`);
- the lowering of the syntax tree to IR (`ast_ir.c`), with the symbol-table helpers of
  `semantics.c:1-92`;
- the three text forms: the IR dump (`ir_dumper.c`), the assembly (`mips.c`) and the tree
  printer (`ast_printer.c`).

The model has one module per C file, all in files at the top level:

| file | module | models |
|---|---|---|
| base.dfy | Base | C `int` wrap-around, truncating division, `%d` text, lines and words |
| container.dfy | Container | container.c |
| ir_types.dfy | IrTypes | the operand, expression and relation types of ir.h and type.h; ir.c:9-49 |
| ir_eval.dfy | IrEval | a reference semantics of IR instructions, the yardstick of the soundness lemmas |
| ir_program.dfy | IrProgram | the program, graphs and the label protocol of ir.c:67-144 |
| cfg.dfy | CfgBuild | build_bb and build_cfg (ir.c:204-343) |
| reach.dfy | Reach | check_cfg_reachable and check_program_reachable (ir.c:167-303) |
| dataflow.dfy | Dataflow | ir_iter_cfg (ir.c:364-412) |
| sweep.dfy | Sweep | the per-block rewrite sweeps of the passes (ir_analyse_cfg, ir.c:355-362) |
| passes.dfy | Passes | what the passes share: per-instruction facts and the program-level loops |
| pass_constant.dfy | ConstantPass | ir_constant.c |
| pass_avexpr.dfy | AvexprPass | ir_avexpr.c |
| arth_cval.dfy, arth_fold.dfy, pass_arthprog.dfy | ArthCval, ArthFold, ArthprogPass | ir_arthprog.c |
| pass_livevar.dfy | LivevarPass | ir_livevar.c |
| livevar_coalesce.dfy | LivevarCoalesce | the soundness of `ir_livevar_elim2_bb`'s coalescing walk over a whole block |
| pass_hole.dfy | HolePass | ir_hole.c and ir_hole (ir.c:154-165) |
| mips.dfy | Mips | the assembly of mips.h and its text form, mips.c |
| ir_mips.dfy | IrMips | ir_mips.c, as functions over an allocator state |
| mips_res.dfy | MipsResClass | ir_mips.c, as a class whose methods update the allocator state in place |
| ast.dfy | Ast | the syntax tree of ast.h |
| semantics.dfy | Semantics | semantics.c:1-92 |
| ast_ir.dfy | AstIr | ast_ir.c |
| lower_flow.dfy | LowerFlow | what the lowered code of ast_ir.c does when run |
| ir_dumper.dfy | IrDumper | ir_dumper.c |
| ast_printer.dfy | AstPrinter | ast_printer.c |

Where the C code works on objects in place, the model does too. The list, the bitsets,
the worklist, the two maps, the IR program and the allocator state are classes whose
methods update their fields, and every such method states its new state. Pure parts are
functions. These are the lattices, transfers and rewrites of the passes, the hashing, the
packing of affine facts and the text formats. Each rewrite is proved sound against
`IrEval`. The passes' loops over blocks and graphs are methods proved against those
functions.

Three things in the C code are wrong, and the passes here run the corrected versions
(see "## Findings"). Available expressions records a stale fact for `v1 := v0 - v1`. The
affine pass folds every branch relation through a wrapping subtraction. The packing of
affine facts accepts variable id 32768, which its 15-bit field cannot hold. For each of
these the model keeps the code as written beside the correction, with a lemma that shows
an input where it goes wrong.

The lowering class `AstIr.Lowerer` keeps the graphs it builds as values (`seq<Code>`,
each a list of instructions, a label table and the expression map). It does not build
them inside an `IrProgram.Program`.

Blocks are built once: `build_program` calls `build_bb` (ir.c:349). Later passes only
rerun `build_cfg` (ir_constant.c:449, ir_arthprog.c:756), and the model does the same.

## Model

| member | source | states |
|---|---|---|
| Base.Wrap32 | mips.c:85-86 | the C `int` that `addu`/`subu` and host arithmetic wrap a result to: a 32-bit value congruent to the input modulo 2^32, the input itself when it already fits |
| Base.Wrap32Sum | mips.c:85-86 | wrapping the parts of a sum or the whole sum gives the same C `int`, so folded chains of additions agree with step-by-step wrapped execution |
| Base.TruncDiv | ir_hole.c:71 | C division truncates toward zero: the magnitude is the quotient of the magnitudes and the sign is positive exactly when the signs agree |
| Base.IntToStringRoundTrip | ir_dumper.c:12-18 | the `%d` text of an integer reads back as that integer, so distinct ids and immediates print differently |
| Base.SplitLinesText | ir_dumper.c:142-152 | text written line by line splits back into the same lines when no line holds a newline |
| Base.SplitJoin | ir_dumper.c:44-57 | words joined by a separator split back into themselves when no word holds the separator |
| IrTypes.RelopOf | type.h:11 | relations are numbered in the enum order `GT, LE, GE, LT, EQ, NEQ`: RelopIndex inverts RelopOf |
| IrTypes.NegateNegates | ir_hole.c:17-32 | `op ^ 1` on the relop enum is logical negation, and an involution |
| IrTypes.MirrorSwaps | ir_hole.c:113-119 | `3 - op` on GT/LE/GE/LT (EQ and NEQ kept) is the relation with its operands swapped, and an involution |
| IrTypes.SameOprIsEquality | ir.c:9-17 | same_iropr holds exactly when the operands have the same kind and the same id or value |
| IrTypes.HashOprTag | ir.c:19-26 | bit 0 of hash_iropr is 1 exactly for immediates |
| IrTypes.HashLowBits | ir.c:37-45 | the low two bits of hash_ir_arth number the operator |
| IrTypes.SameArthSameHash | ir.c:28-45 | expressions same_ir_arth calls equal (operands swapped only for `+` and `*`) hash equal |
| IrTypes.SwapSameHash | ir.c:37-45 | swapping the operands of `+` or `*` keeps the hash |
| IrTypes.DifferentOpDifferentHash | ir.c:37-45 | expressions with different operators never hash equal |
| IrTypes.SameArthIffCanon | ir.c:28-35 | same_ir_arth holds exactly when the canonical forms (commutative operands sorted) are equal, so it is an equivalence |
| Container.List.constructor | container.c:7-9 | a new list is empty with room for 8 elements |
| Container.List.Append | container.c:11-17 | list_append adds the element last and keeps the earlier ones; a full array is replaced by a fresh one of twice the capacity |
| Container.List.Clear | container.c:19-21 | list_clear empties the list and keeps its storage |
| Container.List.Last | container.c:23-26 | list_last returns the most recently appended element |
| Container.Bitset.constructor | container.c:30-35 | new_bitset(n, i) has (n + 63) / 64 words and every bit clear, or every bit set when asked |
| Container.Bitset.Set | container.c:42-45 | bitset_set sets bit n and leaves every other bit unchanged |
| Container.Bitset.Clear | container.c:47-50 | bitset_clear clears bit n and leaves every other bit unchanged |
| Container.Bitset.FillAll | container.c:52-58 | bitset_zero and bitset_one make every bit equal |
| Container.Bitset.CopyFrom | container.c:60-63 | bitset_copy gives dst the words of src |
| Container.Bitset.And | container.c:65-70 | bitset_and: a bit stays set exactly when it was set in both |
| Container.Bitset.Or | container.c:72-77 | bitset_or: a bit is set exactly when it was set in either |
| Container.Bitset.Differs | container.c:79-82 | bitset_cmp reports a difference exactly when some bit differs |
| Container.CeilPow2 | container.c:84-93 | round2power(x) is a power of two r with x <= r < 2x, so the least such |
| Container.Worklist.constructor | container.c:95-99 | new_worklist(n) is an empty queue for ids below n |
| Container.Worklist.Empty | container.c:109-111 | worklist_empty holds exactly when nothing is queued |
| Container.Worklist.Add | container.c:101-107 | worklist_add appends x unless it is already queued, so the queue never holds an id twice |
| Container.Worklist.RoomFor | container.c:101-107 | an id that is not queued always finds room: at most n distinct ids below n can be queued |
| Container.Worklist.Pop | container.c:113-118 | worklist_pop returns the oldest id, removes it, and clears its membership |
| Container.QueueBound | container.c:101-118 | a duplicate-free queue of ids below n holds at most n ids, and all of them when it holds n |
| Container.RingPush | container.c:101-107 | writing the slot after the last queued id (mod capacity) appends to the ring's queue |
| Container.RingPop | container.c:113-118 | the start slot holds the oldest id, and advancing start drops it |
| Container.AssocMap.Find | container.c:132-140 | map_find gives the position of the node holding the key, or -1 exactly when the key is absent |
| Container.AssocMap.Get | container.c:171-175 | map_get gives the value bound to the key, or NULL |
| Container.AssocMap.Remove | container.c:177-184 | map_remove unbinds the key and returns its old value |
| Container.AssocMap.Put | container.c:155-169 | map_put with NULL removes the key and returns -1; otherwise it binds the value and returns 0 when the key was bound and 1 when it was new |
| Container.AssocMap.RemoveIf | container.c:186-197 | map_removeif drops exactly the bindings satisfying the condition and returns how many |
| Container.AssocMap.RemoveAll | container.c:199-202 | map_removeall empties the map |
| Container.AssocMap.Combine | container.c:204-219 | map_combine recombines every dst key with src's value (dropping NULL results), then adds the src-only keys whose combination is not NULL |
| Container.AssocMap.CopyFrom | container.c:221-226 | map_copy makes dst hold exactly src's bindings |
| Container.CombineAndIsIntersect | container.c:228-238 | combining with map_and_comb keeps exactly the keys bound in both maps to equal values |
| Container.AssocMap.And | container.c:236-238 | map_and leaves the intersection of the two maps |
| Container.AssocMap.Differs | container.c:240-250 | map_cmp reports a difference exactly when the two maps differ |
| Container.MeetTopIdentity | container.c:382-388 | top is the identity of the intersection meet on both sides |
| Container.MeetCommutes | container.c:382-388 | the intersection meet is commutative |
| Container.MeetAssociates | container.c:382-388 | the intersection meet is associative |
| Container.MeetIdempotent | container.c:382-388 | the intersection meet is idempotent |
| Container.MeetIsLowerBound | container.c:382-388 | every binding of the meet is a binding of each non-top side |
| Container.HashMap.constructor | container.c:256-266 | new_hmap gives an empty map, top or not as asked |
| Container.HashMap.Put | container.c:299-304 | hmap_put needs a non-top map; NULL unbinds the key, any other value binds it |
| Container.HashMap.Get | container.c:306-310 | hmap_get gives ANY on top, else the bound value or NULL |
| Container.HashMap.Remove | container.c:312-318 | hmap_remove needs a non-top map, unbinds the key and returns its old value |
| Container.HashMap.RemoveIf | container.c:320-328 | hmap_removeif needs a non-top map, drops exactly the bindings satisfying the condition and returns how many |
| Container.HashMap.RemoveAll | container.c:330-336 | hmap_removeall needs a non-top map and empties it |
| Container.HashMap.Combine | container.c:357-363 | hmap_combine is map_combine on the entries; neither map may be top |
| Container.HashMap.CopyFrom | container.c:365-380 | hmap_copy makes dst top exactly when src is top, and otherwise gives it src's entries |
| Container.HashMap.And | container.c:382-388 | hmap_and leaves the meet of the two maps, top being the identity |
| Container.HashMap.Differs | container.c:390-400 | hmap_cmp reports equal exactly when both are top or both are non-top with the same entries |
| IrProgram.FindLabel | ir.c:105-120 | the position of a placed `LABEL l`, or none exactly when no instruction is that label |
| IrProgram.Register | ir.c:93-103 | add_branch_goto on a label: its count goes up by one, the jump is appended to its `ins` list, every other label is unchanged |
| IrProgram.Release | ir.c:105-120 | remove_branch_goto on a label: its count goes down by one, and the label instruction becomes a nop exactly when the count reaches zero; nothing else changes |
| IrProgram.ZeroRefUnreferenced | ir.c:105-120 | under the label protocol, a label whose count is zero has no jump targeting it, so turning it into a nop loses no target |
| IrProgram.RemoveKeepsLabelsOk | ir.c:105-120 | removing a jump and releasing its label keeps the label protocol: counts cover the jumps left, labels stay unique and known |
| IrProgram.PlaceJumpKeepsLabelsOk | ir.c:93-103 | a new jump registered on its label keeps the label protocol |
| IrProgram.BranchToGotoKeepsLabelsOk | ir.c:93-120 | a branch replaced by a goto to the same label, with the goto added before the branch is removed, keeps the label protocol and the label's count |
| IrProgram.RetargetKeepsLabelsOk | ir.c:93-103 | pointing a jump at another label and registering it there keeps the label protocol |
| IrProgram.LabelToNopKeepsLabelsOk | ir.c:105-120 | a label turned into a nop keeps the label protocol |
| IrProgram.AppendJumpKeepsLabelsOk | ir.c:133-144 | appending a fresh jump and registering it keeps the label protocol |
| IrProgram.AppendLabelKeepsLabelsOk | ir.c:133-144 | appending a known label not yet placed keeps the label protocol |
| IrProgram.Cfg.constructor | ir.c:72-79 | a new graph is reachable and holds only its function header, with no labels, no jumps and an empty expression map |
| IrProgram.Cfg.AddBranchGoto | ir.c:93-103 | the graph's labels become `Register` of the old ones; the instructions and the expression map do not change |
| IrProgram.Cfg.RemoveBranchGoto | ir.c:105-120 | the jump becomes a nop, its label is released, the protocol still holds, and a label left at zero has no jumps to it |
| IrProgram.Cfg.AppendJump | ir.c:133-144 | a jump is appended under the next identity and registered on its label, keeping the protocol |
| IrProgram.Cfg.BranchToGoto | ir.c:93-120 | a branch becomes a goto to the same label; the label keeps its count and records the new jump |
| IrProgram.Cfg.Retarget | ir.c:93-103 | the jump at q now targets l, registered on l with one more reference, and the protocol holds |
| IrProgram.Cfg.LabelToNop | ir.c:105-120 | the label at p becomes a nop and the protocol holds |
| IrProgram.AppendGraph | ir.c:72-79 | appending a new, valid, label-free graph and mapping its name to its number keeps every graph valid |
| IrProgram.Program.constructor | ir.c:67-70 | init_ir_program: no graphs, both counters at zero, an empty function table |
| IrProgram.Program.AddCfg | ir.c:72-79 | add_cfg appends a fresh graph numbered by its position, starting with the function header, and maps the name to it |
| IrProgram.Program.NewVarId | ir.c:81-87 | new_var_id and gen_temp_var return the counter and advance it, so no id is handed out twice |
| IrProgram.Program.GenLabel | ir.c:89-91 | gen_label returns the counter and advances it; the label is new to the graph, with no references and no jumps |
| IrProgram.Program.AddIr | ir.c:133-144 | add_ir into the last graph: an arithmetic becomes `t := a op b; x := t` with t the temporary of an equal expression or a fresh one; a jump gets a fresh identity and is registered; the label protocol holds |
| IrProgram.Program.AddArth | ir.c:122-131 | split_ir_arth: reuses the temporary recorded for an equal expression, or records a fresh one, and appends the arithmetic into it and the move out of it |
| IrProgram.SameExprSameTemp | ir.c:122-131 | once an expression is recorded, any expression same_ir_arth calls equal finds the same temporary |
| CfgBuild.OpenedBy | ir.c:213-249 | the label that opens the block starting at s: some exactly when the instruction before s is a label, and then that label |
| CfgBuild.AddBb | ir.c:204-211 | add_bb appends the block and, when a label opens it, points that label at the new block's number |
| CfgBuild.ScanTerminator | ir.c:213-249 | a goto, branch or return closes the block in progress after itself, keeping the partition invariant |
| CfgBuild.ScanLabelClose | ir.c:213-249 | a label closes the non-empty block in progress before itself and opens the next, keeping the partition invariant |
| CfgBuild.ScanLabelOpen | ir.c:213-249 | a label with no block in progress opens the next block |
| CfgBuild.ScanOther | ir.c:213-249 | any other instruction extends the block in progress |
| CfgBuild.ScanEnd | ir.c:213-249 | closing what is left at the end yields a non-empty partition, with the exit block the empty range at the end, opened by a trailing label |
| CfgBuild.BuildBb | ir.c:213-249 | build_bb splits the list into blocks that partition the instructions: no block holds a label or a terminator before its end, blocks are maximal, the gaps are labels, and every label maps to the block it opens |
| CfgBuild.ScanBlocks | ir.c:213-249 | the scan of build_bb yields a non-empty partition of the list |
| CfgBuild.BlocksCover | ir.c:213-249 | every instruction that is not a label lies in some block |
| CfgBuild.Succs | ir.c:305-343 | the successors build_cfg links a block to: a branch's target block and the fall-through, a goto's target block only, the exit for a return, the next block otherwise; nothing else |
| CfgBuild.Edges | ir.c:305-343 | the out-lists are the successors and the in-lists hold exactly the matching predecessors, every edge in both directions |
| CfgBuild.EnterEdges | ir.c:305-343 | block i enters the in-list of exactly its successors and no other in-list changes |
| CfgBuild.NopRange | ir.c:286-290 | the instructions of an unreachable block become nops and nothing else changes |
| CfgBuild.CheckCfgReachable | ir.c:251-303 | check_cfg_reachable marks exactly the blocks reachable from the entry block, and only unreachable blocks are emptied, their jumps released |
| CfgBuild.PruneBlocks | ir.c:283-302 | every block not marked reachable is emptied, and the label protocol holds |
| CfgBuild.BuildCfg | ir.c:305-343 | build_cfg links each block to its successors, with in-edges matching out-edges, marks exactly the reachable blocks and empties the rest |
| CfgBuild.Callees | ir.c:167-202 | the graphs a function calls: each called function's graph, and only those |
| CfgBuild.CallSuccs | ir.c:167-202 | the call graph is computed function by function |
| CfgBuild.CheckProgramReachable | ir.c:167-202 | a function is marked reachable exactly when `main` reaches it through calls; without `main` nothing is; the code and graphs do not change |
| CfgBuild.CallReach | ir.c:167-202 | the marks are exactly the functions that `main` reaches through calls |
| Reach.ClosedHoldsReachable | ir.c:266-283 | a marking closed under successors that holds the root holds every node reachable from it |
| Reach.MarkedIffReachable | ir.c:266-283 | when the worklist drains, the marks are exactly the nodes reachable from the root |
| Reach.Expand | ir.c:270-282 | expanding a popped node marks its unmarked successors and queues those that are not the exit, and the search measure decreases |
| Reach.Search | ir.c:266-283 | draining the worklist keeps every mark witnessed by a path and leaves every marked node expanded |
| Reach.Bfs | ir.c:251-283 | the worklist search marks the root and exactly the nodes reachable from it, and the marking is closed under successors |
| Dataflow.Seeds | ir.c:372-384 | the seeding order holds exactly the reachable blocks, ascending when forward and descending when backward |
| Dataflow.Seed | ir.c:372-384 | the fresh worklist is seeded with exactly that order |
| Dataflow.MeetInto | ir.c:397-401 | the meet loop meets every reachable neighbour into the accumulator, in list order, and the result absorbs each of them |
| Dataflow.Requeue | ir.c:404-409 | queues the reachable non-exit neighbours and nothing else; everything queued before stays queued |
| Dataflow.VisitKeeps | ir.c:385-411 | visiting a block makes it solve its equation; a changed fact only disturbs the downstream blocks, and those are queued again |
| Dataflow.Visit | ir.c:385-411 | one turn of the loop keeps every block outside the queue solving its equation and leaves unreachable blocks untouched |
| Dataflow.IterCfg | ir.c:364-412 | ir_iter_cfg leaves the facts of unreachable blocks alone, and when the queue drains every reachable block solves its dataflow equation (meet of reachable neighbours, then transfer) |
| Dataflow.Drain | ir.c:385-411 | the main loop: when it drains, every reachable block solves its equation |
| Sweep.Place | ir.c:355-362 | a rewrite placed at one position keeps the graph's labels, jumps, shape and protocol |
| Sweep.SweepBlock | ir.c:355-362 | every position of a block is rewritten in order, the graph bookkeeping is kept, and the flag is raised exactly when something changed |
| Sweep.SweptFit | ir.c:355-362 | a swept list fits the original position by position, so the blocks and edges stay valid |
| Sweep.SweepCfg | ir.c:355-362 | ir_analyse_cfg rewrites every reachable block in block order, leaves the rest alone, keeps the bookkeeping, and reports a change exactly when the list changed |
| Passes.Rebuild | ir.c:305-343 | build_cfg rerun after a rewrite: the graph is ready again, only nops were added, and the marks are exactly the reachable blocks |
| Passes.Recheck | ir.c:167-202 | check_program_reachable at the end of a pass changes no code and marks exactly the functions `main` reaches |
| ConstantPass.EncodingRoundTrip | ir_constant.c:8-13 | only constants carry tag 3 in the low word, and `CON2I(I2CON(c))` is c for a C `int` |
| ConstantPass.EncodingInjective | ir_constant.c:8-13 | distinct lattice values have distinct words, so comparing words compares values |
| ConstantPass.CombIsJoin | ir_constant.c:143-155 | consmap_comb is the least upper bound of the flat lattice UNDEF < constants < NAC: commutative, associative, idempotent, UNDEF the unit, NAC absorbing, distinct constants meet to NAC |
| ConstantPass.CombSound | ir_constant.c:143-155 | meeting two true facts about a value gives a true fact |
| ConstantPass.Put | container.c:155-169 | hmap_put with a NULL value (UNDEF) removes the key: the variable reads back as the value put and nothing else changes |
| ConstantPass.MeetPointwise | ir_constant.c:157-159 | the meet of two maps works variable by variable through consmap_comb and yields a canonical map |
| ConstantPass.MeetIsSemilattice | ir_constant.c:157-159 | the meet of maps satisfies the laws the worklist driver relies on |
| ConstantPass.CalcSound | ir_constant.c:111-141 | calc_constant is sound for 32-bit C arithmetic and relations: `0 * x` is 0, `x / 0` is UNDEF, two constants fold to the wrapped result, otherwise UNDEF or NAC; UNDEF only from an UNDEF operand or a division by zero |
| ConstantPass.GetC | ir_constant.c:73-80 | map_get_constant: an immediate is its own constant, a variable is looked up |
| ConstantPass.GetCSound | ir_constant.c:73-80 | under a true in-map, the constant read for an operand is true of its value |
| ConstantPass.Transfer | ir_constant.c:167-242 | the transfer visitors change only the variables the instruction defines |
| ConstantPass.TransferSound | ir_constant.c:167-242 | true facts before an instruction give true facts after it, for every instruction kind |
| ConstantPass.TransferSeqSound | ir_constant.c:250-261 | a block's transfer is sound for every straight-line run of the block |
| ConstantPass.ToConstSound | ir_constant.c:93-109 | to_constant keeps the operand's value when the variable is not UNDEF, and it rewrites exactly the variables known to be constant |
| ConstantPass.MakeMov | ir_constant.c:286-292 | make_mov: a move of a variable to itself becomes a nop, which can stand in for the move |
| ConstantPass.FoldPlusSound | ir_constant.c:294-348 | the `+` rewrites (adding 0, two immediates) keep the arithmetic's outcome |
| ConstantPass.FoldMinusSound | ir_constant.c:294-348 | the `-` rewrites (`x - x`, subtracting 0, subtracting an immediate as adding its negation) keep the outcome |
| ConstantPass.FoldStarSound | ir_constant.c:294-348 | the `*` rewrites (times 0, times 1) keep the outcome |
| ConstantPass.FoldDivSound | ir_constant.c:294-348 | the `/` rewrites (`x / x`, divide by 1) keep the outcome |
| ConstantPass.FoldArthSound | ir_constant.c:294-348 | folding an arithmetic keeps its outcome, including replacing it by a move of the destination's known constant |
| ConstantPass.Fold | ir_constant.c:294-425 | ir_consfold changes no instruction's shape: jumps keep their target and identity, a call keeps its callee, labels, gotos, nops and headers are untouched, and only a branch can be removed |
| ConstantPass.FoldBranchSound | ir_constant.c:367-393 | a branch whose relation the facts decide is removed when false and becomes a goto when true, agreeing with the store; otherwise its operands are folded and it still decides alike |
| ConstantPass.FoldOprsSound | ir_constant.c:412-416 | folding the arguments of a call keeps the values it passes |
| ConstantPass.FoldSound | ir_constant.c:294-425 | under a true in-map with no UNDEF operand, a folded instruction can stand in for the original and a decided branch goes the way the store decides |
| ConstantPass.FoldOne | ir_constant.c:294-425 | the visitor at position p leaves there what FoldAt decides and keeps every other position or turns it into a nop |
| ConstantPass.FoldBlock | ir_constant.c:426-437 | ir_consfold_bb folds the block's positions in order, each under the in-map the transfer gives it, and raises the flag exactly when some fold does |
| ConstantPass.FoldCfg | ir_constant.c:439-453 | every reachable block is folded under its in-map, unreachable blocks are left intact, and the flag is raised exactly when some fold raised it |
| ConstantPass.EdgeSound | ir_constant.c:157-159 | at a solution, running a predecessor from a true in-map makes the successor's in-map true of every variable defined along the edge |
| ConstantPass.FoldedPositionSound | ir_constant.c:426-437 | inside a block, what the fold left at a position can stand in for the original in every store execution reaches there from a true in-map |
| ConstantPass.ConstantCfg | ir_constant.c:439-453 | one function: the forward analysis, then, when the driver drains, the fold under its solution; then build_cfg; the flag is raised exactly when the analysis drained and some fold raised it |
| ConstantPass.ConstantProgram | ir_constant.c:439-453 | ir_constant analyses and folds every reachable function, rechecks reachability, and returns `do_opt` raised exactly when some function's fold raised it |
| AvexprPass.FindSound | ir_avexpr.c:234-247 | what a lookup in the in-map returns holds the expression's value in every store the map holds in |
| AvexprPass.CopyHeld | ir_avexpr.c:74-88 | a recorded copy `o + #0` held by n means n has o's value |
| AvexprPass.Kill | ir_avexpr.c:120-131 | ir_avexpr_kill removes exactly the entries that mention the variable, as result or operand, and keeps the others unchanged |
| AvexprPass.KillHolds | ir_avexpr.c:120-131 | the entries that survive a kill of v stay true when only v changes |
| AvexprPass.ChainSound | ir_avexpr.c:74-88 | every variable on an operand's chain of copies holds the operand's value |
| AvexprPass.WalkChain | ir_avexpr.c:81-86 | the loop of `hmap_get` on `cur + #0` until NULL walks exactly the chain |
| AvexprPass.MovKeysHeld | ir_avexpr.c:74-88 | after `l := r`, every key ir_avexpr_gen_mov records is held by l |
| AvexprPass.Opr2KeysHeld | ir_avexpr.c:90-103 | after `l := a op b`, every key ir_avexpr_arth_opr2 records for a copy of a is held by l |
| AvexprPass.ArthKeysHeld | ir_avexpr.c:105-118 | after `l := a op b`, every key the corrected ir_avexpr_gen_arth records is held by l |
| AvexprPass.TransferSound | ir_avexpr.c:143-228 | the corrected transfer is sound: a map true before an instruction gives a map true after it |
| AvexprPass.AsWrittenRecordsStaleFact | ir_avexpr.c:105-118 | the transfer as written records `v0 - v1` held by v1 after `v1 := v0 - v1`, which is false once v1 has changed |
| AvexprPass.AsWrittenMiscompiles | ir_avexpr.c:264-283 | with that stale fact, a later `v2 := v0 - v1` is eliminated into `v2 := v1`, which computes a different value |
| AvexprPass.TransferSeqSound | ir_avexpr.c:217-228 | a block's transfer is sound for every straight-line run of it |
| AvexprPass.AvailableSound | ir_avexpr.c:249-262 | what ir_avexpr_get_arth finds, through copies of either operand, holds the expression's value |
| AvexprPass.GetArth2 | ir_avexpr.c:234-247 | the loop of ir_avexpr_arth_get2 computes the lookup through the copies of the second operand |
| AvexprPass.GetArth | ir_avexpr.c:249-262 | the loop of ir_avexpr_get_arth computes the lookup through the copies of both operands |
| AvexprPass.Elim | ir_avexpr.c:264-283 | elimination changes only arithmetic, into a move or a nop, and keeps the block shape |
| AvexprPass.ElimRefines | ir_avexpr.c:264-283 | in a store the in-map holds in, the eliminated instruction can stand in for the original |
| AvexprPass.FoldOprSound | ir_avexpr.c:285-299 | reverse_fold replaces a variable by the end of its chain of copies, which has the same value |
| AvexprPass.ReverseFold | ir_avexpr.c:285-299 | the loop of reverse_fold computes the end of the chain |
| AvexprPass.RevefoldFits | ir_avexpr.c:306-383 | the fold visitors keep the instruction's kind and shape |
| AvexprPass.RevefoldRefines | ir_avexpr.c:306-383 | in a store the in-map holds in, the folded instruction can stand in for the original |
| AvexprPass.RevefoldKeepsDecisions | ir_avexpr.c:354-358 | a folded branch decides the same way, and a folded load reads the same address |
| AvexprPass.AvMeetLaws | ir_avexpr.c:133-135 | the intersection meet with top as its identity obeys the laws the worklist driver needs |
| AvexprPass.EdgeSound | ir_avexpr.c:133-135 | at a solution, running a predecessor from a true in-map makes the successor's in-map true |
| AvexprPass.RewriteSound | ir_avexpr.c:264-400 | what elimination and folding leave at a position can stand in for the original in every store execution reaches there, and a branch decides alike |
| AvexprPass.EntryMaps | ir_avexpr.c:37-68 | the entry block starts empty and every other block starts at top |
| AvexprPass.Sweeps | ir_avexpr.c:402-415 | elimination sweeps every reachable block, and on the final round folding sweeps them again; the flag is raised exactly when something changed |
| AvexprPass.AvexprCfg | ir_avexpr.c:402-415 | one function: the analysis, then, when the driver drains, elimination and (on the final round) folding under its solution; otherwise the code is untouched; the graph stays as it was and the flag is raised exactly when code changed |
| AvexprPass.AvexprProgram | ir_avexpr.c:402-415 | ir_avexpr returns `do_opt`, raised exactly when some instruction changed; by AllEliminated, each reachable function whose driver drained was eliminated and, on the final round, folded under a solution of its equations, and every other function keeps its code |
| ArthCval.Sign16 | ir_arthprog.c:66-73 | `(int16_t)(uint16_t)` reads a 16-bit field back as the signed value congruent to it |
| ArthCval.DecodeIvi | ir_arthprog.c:66-73 | decode_ivi succeeds exactly when bit 0 is 1, and gives a 15-bit variable, a 16-bit signed multiplier and a C `int` addend |
| ArthCval.DecodeVv | ir_arthprog.c:75-82 | decode_vv succeeds exactly when bit 0 is 0, and gives two 15-bit variables and a 3-bit operator |
| ArthCval.DecodersExclusive | ir_arthprog.c:66-82 | exactly one of the two decoders succeeds on any word |
| ArthCval.ContainVarFields | ir_arthprog.c:57-64 | contain_var tests exactly the variable fields of whichever form the word has |
| ArthCval.UnpackIvi | ir_arthprog.c:17-31 | the bit fields of a packed ivi word read back as the values stored, each kept modulo its width |
| ArthCval.UnpackVv | ir_arthprog.c:17-31 | the bit fields of a packed vv word read back as the values stored, each kept modulo its width |
| ArthCval.AsWrittenIviLosesVar | ir_arthprog.c:34 | make_ivi as written accepts variable 32768, and the word reads back as variable 0 |
| ArthCval.AsWrittenVvLosesVar | ir_arthprog.c:41 | make_vv as written accepts variable 32768: `v32768 - v1` reads back as `v0 - v1` |
| ArthCval.MakeIvi | ir_arthprog.c:33-37 | the corrected make_ivi fails exactly when the variable does not fit 15 bits or the multiplier does not fit 16 |
| ArthCval.MakeIviDecodes | ir_arthprog.c:33-37 | a word made by make_ivi decodes to its variable (0 when the multiplier is 0), its multiplier and its addend as a C `int` |
| ArthCval.MakeVvDecodes | ir_arthprog.c:39-55 | make_vv fails exactly when a variable does not fit; `v + v` decodes as `2*v`, `v - v` as 0, `+` with its operands in order, `-` unchanged |
| ArthFold.MakeIviDenotes | ir_arthprog.c:33-37 | a word made by make_ivi stands for `mul * v + add` as a C `int` |
| ArthFold.MakeVvDenotes | ir_arthprog.c:39-55 | a word made by make_vv stands for `v1 op v2` as a C `int` |
| ArthFold.GetSound | ir_arthprog.c:228-245 | what the fact map returns about x is true of x in every store the map holds in |
| ArthFold.FoldV2vSound | ir_arthprog.c:352-366 | fold_v2v is sound: a word it makes says how `from` is `mul * to + add` in 32-bit arithmetic |
| ArthFold.FoldV2vWalk | ir_arthprog.c:352-366 | the loop of fold_v2v computes that walk |
| ArthFold.VvStepSound | ir_arthprog.c:388-425 | every rewrite through a vv fact (splitting, folding the first or the second operand into the other side) keeps the term's value as a C `int` |
| ArthFold.IviStepIs | ir_arthprog.c:426-470 | the ivi rewrite either merges side i into the other side or substitutes the fact's variable into side i |
| ArthFold.IviStepSound | ir_arthprog.c:426-470 | every rewrite through an ivi fact keeps the term's value as a C `int` |
| ArthFold.SearchSound | ir_arthprog.c:380-518 | every rewrite the search of one round finds keeps the term's value as a C `int` |
| ArthFold.ShapeTerm | ir_arthprog.c:520-543 | every shape written back has the term's value and multiplies only the variables of live sides |
| ArthFold.CommitSound | ir_arthprog.c:520-543 | the word written back stands for the term |
| ArthFold.CommitAvoids | ir_arthprog.c:520 | a word written back never uses the destination variable |
| ArthFold.CommitOperand | ir_arthprog.c:520-543 | at level 0 only a constant or a single variable is written back |
| ArthFold.FoldTo | ir_arthprog.c:368-371 | fold_to gives NULL exactly for NULL |
| ArthFold.FoldToSound | ir_arthprog.c:368-547 | in every store the facts hold in, the word fold_to gives stands for the same value as the original |
| ArthFold.FoldToAvoids | ir_arthprog.c:368-547 | a word other than the original does not use the destination variable |
| ArthFold.FoldToOperand | ir_arthprog.c:368-547 | at level 0 a word other than the original is a constant or a variable |
| ArthFold.RunFoldLoop | ir_arthprog.c:380-545 | the `while (1)` loop of fold_to computes FoldLoop |
| ArthFold.FoldToLoop | ir_arthprog.c:368-547 | fold_to as a method computes FoldTo |
| ArthprogPass.Put | container.c:155-169 | hmap_put of a packed fact: NULL removes the key, any other word is stored, and no other key changes |
| ArthprogPass.Kill | ir_arthprog.c:232-245 | ir_arthprog_kill removes exactly the facts whose word mentions the variable, and keeps the others unchanged |
| ArthprogPass.Arth2CvalSound | ir_arthprog.c:165-226 | the word arth2cval makes for `l := a op b` stands for the result as a C `int`, only for a defined operation, and never uses l |
| ArthprogPass.AddiSound | ir_arthprog.c:165-168 | `v + k` is recorded as `1 * v + k` |
| ArthprogPass.IsubSound | ir_arthprog.c:175-178 | `k - v` is recorded as `-1 * v + k` |
| ArthprogPass.MuliSound | ir_arthprog.c:170-173 | `v * k` is recorded as `k * v + 0` |
| ArthprogPass.KillPutHolds | ir_arthprog.c:228-245 | recording a true fact for the destination and then killing the facts that mention it leaves a map that holds after the assignment |
| ArthprogPass.GenMovSound | ir_arthprog.c:153-163 | what a move records about its destination stands for the moved value |
| ArthprogPass.TransferSound | ir_arthprog.c:257-330 | the transfer is sound: a map true before an instruction gives a map true after it |
| ArthprogPass.TransferSeqSound | ir_arthprog.c:335-346 | a block's transfer is sound for every straight-line run of it |
| ArthprogPass.Cval2Opr | ir_arthprog.c:549-559 | cval2opr gives an operand exactly for a word that is a constant or a single variable |
| ArthprogPass.Cval2OprSound | ir_arthprog.c:549-559 | that operand stands for the value the word stands for |
| ArthprogPass.OprWordRoundTrip | ir_arthprog.c:33-37 | a variable packed as `1 * v + 0`, or a constant as `0 * v + k`, comes back from cval2opr as itself |
| ArthprogPass.TryFoldSound | ir_arthprog.c:561-575 | in every store the facts hold in, try_fold gives an operand with the same value |
| ArthprogPass.TryFoldAvoids | ir_arthprog.c:561-575 | a fold guarded against the destination never brings the destination in |
| ArthprogPass.Cval2Ir | ir_arthprog.c:577-612 | cval2ir makes a nop, or a move or an arithmetic into the destination |
| ArthprogPass.Cval2IrSound | ir_arthprog.c:577-612 | the instruction cval2ir makes sets the destination to the value the word stands for and changes nothing else |
| ArthprogPass.SimpMovSound | ir_arthprog.c:632-648 | the simplified move can stand in for the move |
| ArthprogPass.SimpArthSound | ir_arthprog.c:650-663 | the simplified arithmetic can stand in for the arithmetic |
| ArthprogPass.DifferenceSound | ir_arthprog.c:690-693 | a difference `v1 - v2` that fold_to finds constant has the wrapped difference's value |
| ArthprogPass.SimpBranch | ir_arthprog.c:686-700 | the corrected branch simplification keeps the relation, target and identity |
| ArthprogPass.SimpBranchSound | ir_arthprog.c:686-700 | the corrected branch (folding the difference only for `==` and `!=`) jumps exactly when the original does |
| ArthprogPass.DiffDecides | ir_arthprog.c:686-700 | for `==` and `!=`, comparing the wrapped difference with 0 decides like comparing the operands |
| ArthprogPass.AsWrittenBranchMisfolds | ir_arthprog.c:686-700 | as written, `if v1 < v2` after `v1 := v2 + 5` becomes `if 5 < 0`; with v2 = 2147483645 the facts hold and the original branch is taken but the folded one is not |
| ArthprogPass.FoldVarSound | ir_arthprog.c:669-680 | a folded variable operand of a load or a store keeps its value |
| ArthprogPass.CallSimpSound | ir_arthprog.c:711-716 | a call with its arguments folded hands the callee the same values |
| ArthprogPass.SimpSound | ir_arthprog.c:620-725 | what ir_arthsimp puts in place of an instruction can stand in for it in every store the in-map holds in, a branch jumps exactly when the original does, and a load reads the same address |
| ArthprogPass.SimpFits | ir_arthprog.c:620-725 | what ir_arthsimp puts in place keeps the block shape, the jumps and the calls |
| ArthprogPass.ArthMeetLaws | ir_arthprog.c:247-249 | hmap_and with top as its identity obeys the laws the worklist driver needs |
| ArthprogPass.EdgeSound | ir_arthprog.c:247-249 | at a solution, running a predecessor from a true in-map makes the successor's in-map true |
| ArthprogPass.RewriteSound | ir_arthprog.c:733-744 | what the sweep leaves at a position can stand in for the original in every store execution reaches there, and a branch decides alike |
| ArthprogPass.EntryMaps | ir_arthprog.c:113-147 | the entry block starts empty and every other block starts at top |
| ArthprogPass.ArthprogCfg | ir_arthprog.c:746-759 | one function: the analysis, then, when the driver drains, ir_arthsimp_bb on every reachable block under its solution; then build_cfg; the flag is raised exactly when the sweep changed code |
| ArthprogPass.ArthprogProgram | ir_arthprog.c:746-759 | ir_arthprog simplifies every reachable function whose driver drained under a solution of its equations, rebuilds its graph, and returns `do_opt`, raised exactly when some function changed |
| LivevarPass.ArgVars | ir_livevar.c:171-179 | every variable among a call's arguments is live before the call |
| LivevarPass.ElimDead | ir_livevar.c:234-254 | a move, arithmetic, address, load or declaration becomes a nop exactly when its variable is dead after it; every other instruction is kept |
| LivevarPass.Follow | ir_livevar.c:203-214 | the store that takes the defined variables from the run and keeps the rest |
| LivevarPass.ElimSound | ir_livevar.c:105-195 | liveness is sound and elimination keeps meaning: from stores agreeing on the live-in set, the eliminated instruction reaches a store agreeing on the live-out set, hands out the same values and branches the same way; agreement is up to the array variables, which the instruction does not read for their value, and a declaration still live after it declares one of them |
| LivevarPass.LiveInCovers | ir_livevar.c:105-195 | what the eliminated instruction does not define is live before it, and what the original defines and is live after is still defined |
| LivevarPass.AgreeAfter | ir_livevar.c:203-214 | agreement on the live-in set carries over to the live-out set after a step |
| LivevarPass.KeptSound | ir_livevar.c:105-195 | a kept instruction that reads no array variable for its value steps alike from stores that agree on its live-in set outside the array variables |
| LivevarPass.KeptMov | ir_livevar.c:105-112 | a live move reads only variables live before it |
| LivevarPass.KeptArth | ir_livevar.c:114-125 | a live arithmetic reads only variables live before it |
| LivevarPass.KeptReads | ir_livevar.c:141-165 | a store, branch, return or write steps alike, hands out the same values and branches alike from stores that agree on what it reads |
| LivevarPass.KeptPlain | ir_livevar.c:90-103 | an instruction reading no variable steps alike from any store |
| LivevarPass.CallArgsSame | ir_livevar.c:171-179 | a call's arguments are live before it, so both stores pass the same values |
| LivevarPass.ElimSeq | ir_livevar.c:234-254 | elimination over a list keeps its length |
| LivevarPass.ElimSeqSound | ir_livevar.c:234-254 | elimination over a whole list is sound: from stores agreeing on the live-in set outside the array variables, the eliminated list ends in a store agreeing with the original run on the live-out set |
| LivevarPass.ElimSeqAt | ir_livevar.c:234-254 | elimination at each position uses the live-out set of that position |
| LivevarPass.DefVar | ir_livevar.c:267-275 | the variable defined by exactly the kinds ir_livevar_elim2_bb may rename |
| LivevarPass.Renamed | ir_livevar.c:277-283 | the renamed instruction keeps its kind and defines the new variable |
| LivevarPass.RenamedFits | ir_livevar.c:277-283 | renaming and turning the move into a nop keep the block shape |
| LivevarPass.NextReal | ir_livevar.c:260-262 | the next position that is not a nop, with only nops skipped |
| LivevarPass.Pair | ir_livevar.c:263-283 | coalescing a pair keeps the list length |
| LivevarPass.Coalesce | ir_livevar.c:256-285 | the walk of ir_livevar_elim2_bb keeps the list length |
| LivevarPass.CoalesceAt | ir_livevar.c:256-285 | one step of that walk keeps the list length |
| LivevarPass.KeepsCompose | ir_livevar.c:277-283 | two steps together keep what neither defines |
| LivevarPass.PairSound | ir_livevar.c:256-285 | coalescing `x; y := l` into x defining y, when l is dead after the move and y is live, reaches a store agreeing on every variable live afterwards and hands out the same values |
| LivevarPass.RenamedStep | ir_livevar.c:277-283 | the renamed definition computes from the other store what the original computed |
| LivevarPass.ElimFits | ir_livevar.c:234-254 | elimination only puts fitting instructions in place |
| LivevarPass.UnionLaws | ir_livevar.c:81-83 | the union meet is commutative, associative and idempotent |
| LivevarPass.EdgeSound | ir_livevar.c:81-83 | agreement on a block's live-out set gives agreement on the live-in set of every reachable successor |
| LivevarPass.BlockSound | ir_livevar.c:234-254 | after the sweep every reachable block, run from stores agreeing on the variables live at its entry, ends agreeing with the old block's run on the variables live at its exit; agreement is up to the block's array variables |
| LivevarPass.SweptBlockIs | ir_livevar.c:234-254 | after the sweep a reachable block holds its eliminated original |
| LivevarPass.SliceElim | ir_livevar.c:234-254 | a stretch holding each position's elimination is the elimination of the stretch |
| LivevarPass.SweptAt | ir_livevar.c:234-254 | after the sweep each position of a reachable block holds its elimination |
| LivevarPass.BlockOuts | ir_livevar.c:256-285 | the live-out sets the coalescing reads, one per position of the block |
| LivevarPass.Elim2Blocks | ir_livevar.c:256-285 | coalescing every reachable block keeps the list length |
| LivevarPass.Elim2Block | ir_livevar.c:256-285 | ir_livevar_elim2_bb in place: the block becomes the coalescing walk from its last position, labels and shape kept |
| LivevarPass.Elim2Step | ir_livevar.c:259-284 | one turn of that loop keeps the walk's invariant and stops exactly at a position with no real successor |
| LivevarPass.PlacePair | ir_livevar.c:263-283 | the pair is coalesced in place exactly as the pure definition says |
| LivevarPass.PairFits | ir_livevar.c:263-283 | a coalesced pair still fits the block shape |
| LivevarPass.Elim2Cfg | ir_livevar.c:296 | every reachable block is coalesced, shape kept |
| LivevarPass.Elim2Next | ir_livevar.c:296 | one turn of the block loop coalesces block i exactly when it is reachable |
| LivevarCoalesce.CoalesceSound | ir_livevar.c:234-285 | ir_livevar_elim_bb and then ir_livevar_elim2_bb on one block are sound together: from stores agreeing on the block's live-in set outside the array variables, the coalesced block can end in a store agreeing, on the set live after the block, with wherever the original block ends |
| LivevarCoalesce.ElimSim | ir_livevar.c:256-285 | the coalescing walk over an eliminated block, with the live sets computed before elimination, can do whatever that block does |
| LivevarCoalesce.CoalesceSim | ir_livevar.c:259-284 | the walk from position i on can do whatever the block does when it starts, as long as the walk's invariant holds |
| LivevarCoalesce.Turn | ir_livevar.c:260-283 | one turn of the walk, coalescing or not, keeps the invariant one position lower and the new block can do what the old one did |
| LivevarCoalesce.StepPair | ir_livevar.c:273-282 | a pair the test accepts: after `x; y := l` becomes x defining y, the invariant holds at i - 1 and the block can do what it did |
| LivevarCoalesce.StepKept | ir_livevar.c:264-276 | a pair the test turns down leaves the invariant holding at i - 1 |
| LivevarCoalesce.PairSimulates | ir_livevar.c:273-282 | from the defining instruction on, the coalesced pair can do what the pair did, when l is not needed after the move and y is |
| LivevarCoalesce.PairRun | ir_livevar.c:273-282 | one run of the pair and the code after it is matched by a run of the coalesced code ending in an agreeing store |
| LivevarCoalesce.PairSim | ir_livevar.c:273-282 | the coalesced pair can do what the pair did from the block's start on |
| LivevarCoalesce.AnnotNops | ir_livevar.c:260-262 | the nops the walk skips were nops before the walk, so the live set above them is the one below the next real instruction |
| LivevarCoalesce.ShapeLive | ir_livevar.c:277-283 | a passed instruction, renamed or not, needs no more than the original, is kept by elimination and reads the same variables |
| LivevarCoalesce.LiveSoundCons | ir_livevar.c:105-195 | a kept instruction in front of code that needs W needs only what the instruction reads and W keeps |
| LivevarCoalesce.NopsRun | ir_livevar.c:260-262 | nops in front of a list change nothing of its runs, both ways |
| LivevarCoalesce.ElimInv | ir_livevar.c:234-254 | the eliminated block meets the walk's invariant at its last position |
| LivevarCoalesce.ElimRun | ir_livevar.c:234-254 | the eliminated block can end where the original one does, on the live set after the block |
| LivevarCoalesce.InvStart | ir_livevar.c:258-259 | the walk's invariant holds at the block's last position before any turn |
| LivevarCoalesce.PassedLater | ir_livevar.c:273-282 | positions after the coalesced move keep what the invariant says of them |
| LivevarCoalesce.SimPrefix | ir_livevar.c:256-285 | a change past a common prefix that can do what the old code did extends to the whole block |
| LivevarPass.SiteCrossIs | ir_livevar.c:216-232 | a call, read or write site adds exactly the variables live both before and after it |
| LivevarPass.CrossUpToHas | ir_livevar.c:216-232 | every site's contribution is collected |
| LivevarPass.CrossUpToOnly | ir_livevar.c:216-232 | nothing but sites' contributions is collected |
| LivevarPass.CrossBlocksHas | ir_livevar.c:216-232 | the cross-call set holds every variable live across some call, read or write in a reachable block |
| LivevarPass.CrossBlocksOnly | ir_livevar.c:216-232 | and each of its variables is live across such a site |
| LivevarPass.CrossBlock | ir_livevar.c:216-232 | ir_livevar_cross_call_bb's loop computes the block's contribution |
| LivevarPass.CrossCall | ir_livevar.c:297 | the sweep over the reachable blocks computes the cross-call set |
| LivevarPass.EmptySets | ir_livevar.c:63 | every block starts with an empty live set |
| LivevarPass.LiveSweeps | ir_livevar.c:295-297 | elimination in every reachable block, coalescing on the final round, the cross-call set only when final and nothing changed; the flag is raised exactly when code changed |
| LivevarPass.LivevarCfg | ir_livevar.c:287-298 | one function: when the driver drains, the sets solve the backward equations and the sweeps follow them; otherwise the code is untouched; the graph is kept and the flag is raised exactly when code changed |
| LivevarPass.LivevarCfgs | ir_livevar.c:290-298 | the loop over the functions: AllPruned holds (each reachable function whose driver drained was eliminated, and coalesced on the final round, under a solution; a non-empty cross-call set is the one of that solution), and every change is reported |
| LivevarPass.LivevarNext | ir_livevar.c:291-297 | turn i of the loop rewrites function i, extends AllPruned by its outcome and keeps the cross-call rule |
| LivevarPass.RecordedStep | ir_livevar.c:291-297 | one more function's outcome extends AllPruned, and its cross-call set, empty unless nothing changed so far, keeps the cross-call rule |
| LivevarPass.AllPrunedAt | ir_livevar.c:290-298 | the per-function outcome read back at function i: Pruned when reachable, untouched code and no cross-call set otherwise |
| LivevarPass.AllPrunedSnoc | ir_livevar.c:290-298 | appending one function's outcome extends AllPruned by one |
| LivevarPass.CrossesPrefix | ir_livevar.c:297 | a function with a cross-call set comes on a final round after no change up to it |
| LivevarPass.CrossesStep | ir_livevar.c:297 | one more function keeps that property |
| LivevarPass.LivevarOne | ir_livevar.c:291-297 | an unreachable function is skipped with no cross-call set; a reachable one is Pruned: rewritten under the solution when its driver drained; a cross-call set comes only on a final round with nothing changed |
| LivevarPass.LivevarProgram | ir_livevar.c:287-301 | ir_livevar returns `do_opt`, raised exactly when some instruction changed; by AllPruned, each reachable function whose driver drained was rewritten under a solution of its equations; the cross-call sets come only on a final round before any change, each the one of its function's solution |
| HolePass.HoleArth | ir_hole.c:62-92 | the arithmetic stays an arithmetic or becomes a move to the same variable; two immediates always fold to a C `int`; a kept `+` or `*` has its variable first and keeps its operands |
| HolePass.HoleBranch | ir_hole.c:93-131 | a kept branch compares a variable first over the same operands; two immediates always decide the branch |
| HolePass.HoleArthRefines | ir_hole.c:62-92 | the rewritten arithmetic refines the original: wherever the original is defined it steps the same way |
| HolePass.HoleArthStep | ir_hole.c:62-92 | every step of the original arithmetic is a step of the rewrite |
| HolePass.FoldedStep | ir_hole.c:64-74 | two immediates: the move of the folded value steps as the arithmetic did |
| HolePass.CommutedStep | ir_hole.c:75-83 | `+` and `*` with operands swapped, and `x * #0` as `#0`, step as the original |
| HolePass.SelfQuotient | ir_hole.c:87-88 | a non-zero C `int` divided by itself is one |
| HolePass.HoleBranchSound | ir_hole.c:93-131 | a branch turned into a goto was always taken, a removed one never, and a kept one is taken exactly when the original was |
| HolePass.Landing | ir.c:154-165 | the first position at or after p that is not a nop or label, with only such positions skipped |
| HolePass.LandingAt | ir.c:154-165 | the landing is the only position with those two properties |
| HolePass.SameInertLands | ir.c:154-165 | lists inert at the same positions land alike |
| HolePass.BypassLands | ir.c:154-165 | making one active position inert changes only landings through it |
| HolePass.FoundAt | ir.c:93-103 | a label at k in a list with unique labels is found at k |
| HolePass.FoundAlike | ir.c:93-103 | a label at the same positions of two lists is found at the same place |
| HolePass.JumpHoldsRef | ir.c:105-120 | a jump to a label holds one of its references |
| HolePass.JumpsHoldRefs | ir.c:105-120 | two jumps to one label hold two of its references |
| HolePass.Unjump | ir.c:105-120 | remove_branch_goto: the jump becomes a nop, its label loses one reference and is turned into a nop only when that was its last; nothing else changes |
| HolePass.PlaceNew | ir.c:93-103 | add_branch_goto for a new jump put at p: its label gains one reference and nothing else changes |
| HolePass.HoleConstant | ir_hole.c:60-133 | hole_constant keeps the listing well formed, its length and its label set |
| HolePass.FoldArth | ir_hole.c:62-92 | the arithmetic at p is replaced by its rewrite and nothing else changes |
| HolePass.FoldBranch | ir_hole.c:93-131 | a kept branch is rewritten in place, a taken one becomes a goto to its label, a dropped one a nop, and otherwise only a label left without jumps turns into a nop |
| HolePass.Jump1 | ir_hole.c:7-15 | hole_elim_jump1 keeps the listing well formed, its length and its label set |
| HolePass.Inverted | ir_hole.c:24-25 | the new branch tests the negated comparison and targets the goto's label |
| HolePass.Jump2 | ir_hole.c:17-32 | hole_elim_jump2 keeps the listing well formed, its length and its label set |
| HolePass.Jump2Cleared | ir_hole.c:27 | the old branch's removal leaves a nop and keeps the goto and its label |
| HolePass.Jump2Placed | ir_hole.c:24-28 | the inverted branch is placed and recorded on the goto's label |
| HolePass.RetargetOne | ir_hole.c:38-55 | only the recorded jump to the first label is retargeted to the second |
| HolePass.RetargetAll | ir_hole.c:38-55 | only jumps to the first label recorded in its list are retargeted to the second |
| HolePass.MergeLabels | ir_hole.c:34-58 | hole_elim_label keeps the listing well formed, its length and its label set |
| HolePass.Merged | ir_hole.c:38-55 | the jumps to the first label, retargeted to the second, which differs from it |
| HolePass.HoleConstantSound | ir_hole.c:60-133 | after hole_constant the instruction at p stands for the old one from every store, anything but an arithmetic or branch is untouched, and no other position changes but a label left without jumps |
| HolePass.FoldArthSound | ir_hole.c:62-92 | the rewritten arithmetic stands for the original from every store |
| HolePass.FoldBranchSound | ir_hole.c:93-131 | the rewritten branch stands for the original from every store |
| HolePass.ControlOnlyRefines | ir_hole.c:107-130 | nops and jumps never fault and change no variable |
| HolePass.FoldBranchOthers | ir_hole.c:93-131 | folding a branch leaves a nop or a jump and touches no other position but a label left without jumps |
| HolePass.HoleConstantLands | ir_hole.c:60-133 | landings are unchanged except through a branch that was removed |
| HolePass.Jump1Lands | ir_hole.c:7-15 | the removed goto's label was the next instruction, so control falls through to where the goto went, and every other landing is unchanged |
| HolePass.Jump2Sound | ir_hole.c:17-32 | the inverted branch is taken exactly when the old one was not and goes to the goto's label, which stays put; not taken, control falls through to where the old branch went |
| HolePass.Jump2Shape | ir_hole.c:17-32 | hole_elim_jump2 changes only the branch and the goto, and the goto's label stays put |
| HolePass.Jump2KeepsLabel | ir_hole.c:17-32 | the goto's label is never turned into a nop |
| HolePass.PlacedKeepsLabel | ir_hole.c:28 | after the new branch is recorded the goto's label holds at least two references |
| HolePass.ClearedKeepsLabel | ir_hole.c:27 | after the old branch is removed the goto's label still holds a reference |
| HolePass.UnjumpKeepsLabel | ir.c:105-120 | removing a jump keeps a label that held another reference |
| HolePass.UnjumpInert | ir.c:105-120 | removing a jump changes no other position between inert and active |
| HolePass.Jump2Inert | ir_hole.c:17-32 | hole_elim_jump2 makes only the goto's position inert |
| HolePass.InertAfterPlaced | ir_hole.c:24-28 | placing the inverted branch changes no position between inert and active |
| HolePass.MergeSound | ir_hole.c:34-58 | after hole_elim_label no jump targets the first label, each that did targets the second, which stood right after it, every other label stays put and every landing is unchanged |
| HolePass.MergeShape | ir_hole.c:34-58 | merging puts a nop where the first label was and retargets only jumps to it |
| HolePass.MergeEmptiesLabel | ir_hole.c:38-56 | no jump targets the first label afterwards |
| HolePass.MergeFinds | ir_hole.c:34-58 | the second label is found where it was, as is every label but the first |
| HolePass.MergeKeepsLabels | ir_hole.c:34-58 | merging keeps labels unique and every label but the first in place |
| HolePass.MergeInert | ir_hole.c:34-58 | merging changes no landing |
| HolePass.RetargetCovers | ir_hole.c:38-55 | every recorded jump to the first label targets the second afterwards |
| HolePass.HoleConstantAt | ir_hole.c:60-133 | hole_constant on the graph in place: its listing becomes the pure rewrite, its shape and expression table kept |
| HolePass.FoldBranchAt | ir_hole.c:93-131 | the branch fold in place, as the pure rewrite says |
| HolePass.ElimJump1At | ir_hole.c:7-15 | hole_elim_jump1 in place, as the pure rewrite says |
| HolePass.ElimJump2At | ir_hole.c:17-32 | hole_elim_jump2 in place, as the pure rewrite says |
| HolePass.MergeLabelsAt | ir_hole.c:34-58 | hole_elim_label in place, as the pure rewrite says |
| HolePass.RetargetPrefix | ir_hole.c:38-55 | one more recorded jump retargeted extends the prefix by one |
| HolePass.RetargetOneAt | ir_hole.c:39-51 | one recorded jump retargeted in place |
| HolePass.Width | ir_hole.c:135-140 | window widths are 1, 2 or 3 |
| HolePass.Apply | ir_hole.c:135-140 | each rewrite keeps the listing well formed |
| HolePass.SweepTo | ir.c:161-163 | the windows in order keep the listing well formed |
| HolePass.Sweep | ir.c:161-163 | every window that fits, in order, keeps the listing well formed |
| HolePass.ApplyAt | ir_hole.c:135-140 | one rewrite in place, as the pure rewrite says |
| HolePass.SweepCfg | ir.c:161-163 | the window slides over the whole list in place, as the pure sweep says |
| HolePass.ListingsOf | ir.c:154-165 | the graphs' listings, in order |
| HolePass.SweptIf | ir.c:159 | a listing is swept exactly when its function is reachable |
| HolePass.HoleProgram | ir.c:154-165 | ir_hole sweeps every reachable function and leaves the others alone, shapes kept |
| HolePass.SweepCfgs | ir.c:157-164 | the loop over the graphs sweeps each in order |
| HolePass.HoleOpt | ir_hole.c:135-140 | the four sweeps in order keep the listing well formed |
| HolePass.IrHoleOpt | ir_hole.c:135-140 | ir_hole_opt applies the four sweeps in order to every reachable function and leaves the others alone |
| Mips.RegText | mips.c:29-38 | a register prints as `$` followed by its name from the register table |
| Mips.EntryName | mips.c:69-76 | the label a function starts at: `main` keeps its name, every other function gets a leading underscore |
| Mips.Line | mips.c:83-168 | every instruction but `ret` prints one non-empty line |
| Mips.Lines | mips.c:145-151 | `ret` prints the function's exit code, one line per instruction, then `jr $ra`; every other instruction prints its one line |
| Mips.PlainLines | mips.c:145-151 | a list with no `ret` prints one line per instruction, in order |
| Mips.ListLines | mips.c:191-196 | the loop over a function's instructions prints exactly their lines in order |
| Mips.MipsDump | mips.c:176-200 | mips_dump writes the fixed preamble and then every reachable function's entry code and body |
| Mips.BodyLinesNext | mips.c:194-196 | one more instruction appends its lines |
| Mips.BodyLinesSnoc | mips.c:194-196 | the lines of a list with one more instruction are the old lines then the new instruction's |
| Mips.RegNamesRoundTrip | mips.c:29-38 | each register's name in the table reads back as that register |
| Mips.RegTextInjective | mips.c:29-38 | different registers print differently |
| Mips.CallReachesEntry | mips.c:69-76 | a `jal` and the function it calls name the same entry label, which is `main` only for `main` |
| Mips.EntryNameInjective | mips.c:69-76 | different functions get different entry labels |
| Mips.OnlyMainIsMain | mips.c:69-76 | only `main` starts at the label `main` |
| Mips.BranchMnemonicInjective | mips.c:153-162 | different comparisons branch with different mnemonics |
| Mips.ArthMnemonicInjective | mips.c:83-90 | different operators print with different mnemonics |
| IrMips.GrowsTrans | ir_mips.c:70-78 | the record only grows: code appended, slots kept, across any chain of steps |
| IrMips.Find | ir_mips.c:61-68 | find_var_reg answers the lowest register holding the variable, or -1 exactly when none does |
| IrMips.FindIffResident | ir_mips.c:61-68 | a register is found exactly when the variable is held |
| IrMips.Offset | ir_mips.c:54-59 | get_offset gives the variable a slot, changing only its own slot and the frame size |
| IrMips.OffsetOnce | ir_mips.c:50-59 | a variable without a slot gets one 4 bytes past the frame, which grows to include it and which no other variable uses; a variable with a slot keeps it, so asking twice answers the same |
| IrMips.WriteBack | ir_mips.c:70-78 | write_back frees the register and, exactly when its variable is dirty, stores it to its slot and clears its dirty bit; otherwise nothing is emitted |
| IrMips.WriteBackList | ir_mips.c:80-94 | writing back a list of registers frees exactly those and clears the dirty bit of exactly the variables they held |
| IrMips.WriteBackAll | ir_mips.c:80-86 | write_back_all keeps the record well formed |
| IrMips.WriteBackCaller | ir_mips.c:88-94 | write_back_caller keeps the record well formed |
| IrMips.WriteBackAllClears | ir_mips.c:80-86 | after write_back_all every register is free and no variable is dirty, every dirty value having been stored |
| IrMips.WriteBackCallerFrees | ir_mips.c:88-94 | after write_back_caller no caller-saved register, `$v0` included, holds a variable, and the others are as they were |
| IrMips.FirstFree | ir_mips.c:99-105 | the first position of a class whose register is free, or -1 exactly when none is |
| IrMips.ClassesUsable | ir_mips.c:35-48 | every register of both classes may be given to variables |
| IrMips.AllocCaller | ir_mips.c:98-107 | alloc_caller gives the variable the first free caller-saved register and makes its position the cursor; with none free nothing changes |
| IrMips.AllocCallee | ir_mips.c:109-119 | alloc_callee does the same over the `$s` registers, sets the register's bit in the saved mask and makes the cursor its position in reg_canuse |
| IrMips.UsableIsCanUse | ir_mips.c:44-48 | reg_canuse lists exactly the registers that may hold variables |
| IrMips.AllTaken | ir_mips.c:121-131 | with neither class free every register of reg_canuse is taken |
| IrMips.Evict | ir_mips.c:132-135 | the register after the cursor is written back and given to the variable, the cursor advances, and only its dirty bit is cleared |
| IrMips.AllocReg | ir_mips.c:121-136 | alloc_reg: the variable gets a register and nothing else changes but the record of the register it had and the evicted variable |
| IrMips.GrantCaller | ir_mips.c:98-107 | the register alloc_caller found free is an allocation: the variable holds it, the cursor names it in reg_canuse, no other register changes and no variable stops being dirty |
| IrMips.GrantCallee | ir_mips.c:109-119 | the same for the register alloc_callee found free |
| IrMips.EvictFull | ir_mips.c:131-135 | the end of alloc_reg, reached when neither class has a free register, is a sound allocation |
| IrMips.EvictFullIsEvict | ir_mips.c:131-135 | with neither class free, the register after the cursor holds a variable, and that register is the one evicted |
| IrMips.EvictAllocated | ir_mips.c:132-135 | evicting the register after the cursor is an allocation |
| IrMips.AllocRegTakesCallee | ir_mips.c:122-129 | a free `$s` register goes to a variable live across a call, or to any variable when no caller-saved one is free, and its bit is set |
| IrMips.AllocRegTakesCaller | ir_mips.c:124-128 | otherwise the first free caller-saved register is taken |
| IrMips.AllocRegRoundRobin | ir_mips.c:131-135 | with both classes full, the victim is the next register of the round-robin over the 23 usable ones |
| IrMips.AllocRegFull | ir_mips.c:131 | the assert of alloc_reg holds: with no register free all eight bits of the saved mask are set |
| IrMips.LoadReg | ir_mips.c:153-157 | a variable not held is given a register and loaded from its slot |
| IrMips.LoadInto | ir_mips.c:155 | the load from the slot into the register alloc_reg gave |
| IrMips.LoadRegSteps | ir_mips.c:153-157 | LoadReg is alloc_reg followed by that load |
| IrMips.LoadRegFacts | ir_mips.c:153-157 | what LoadReg promises follows from what alloc_reg and get_offset promise |
| IrMips.GetRReg | ir_mips.c:138-160 | get_rreg keeps the record well formed and never adds a dirty variable |
| IrMips.GetRRegImm | ir_mips.c:139-146 | immediate 0 is read from `$zero`, any other value from `$v1` after a move; only code is added |
| IrMips.GetRRegHeld | ir_mips.c:149-152 | a held variable is read from its register with nothing emitted |
| IrMips.GetRRegLoads | ir_mips.c:153-157 | a variable not held is not dirty, so the assert holds and its slot is current; it is loaded |
| IrMips.GetROpr | ir_mips.c:162-170 | an immediate stays an immediate; a variable is get_rreg |
| IrMips.GetLReg | ir_mips.c:172-180 | after get_lreg the returned register holds the variable |
| IrMips.GetLRegHeld | ir_mips.c:173-176 | a held variable keeps its register, now dirty, with nothing emitted |
| IrMips.GetLRegUnheld | ir_mips.c:174-178 | a variable not held is marked dirty and given a register by alloc_reg |
| IrMips.GetLRegDirty | ir_mips.c:174 | the variable written is dirty afterwards, even after an eviction |
| IrMips.CleanUpTo | ir_mips.c:182-190 | clean_reg over the first registers frees exactly those holding a variable not live and clears its dirty bit, without a store |
| IrMips.Clean | ir_mips.c:182-190 | clean_reg keeps the record well formed |
| IrMips.CleanFrees | ir_mips.c:182-190 | clean_reg keeps the invariant, emits nothing, and leaves only live variables held, every live one where it was |
| IrMips.Vacate | ir_mips.c:197-198 | a taken register is written back; a free one is left alone |
| IrMips.Fill | ir_mips.c:200-214 | once the register is free, a variable is moved in from a register holding it or loaded from its slot, an immediate is moved in |
| IrMips.PassReg | ir_mips.c:192-216 | pass_reg keeps the record well formed and adds no dirty variable |
| IrMips.PassRegInv | ir_mips.c:192-216 | pass_reg into `$v0` or an argument register keeps the invariant |
| IrMips.Params | ir_mips.c:233-244 | parameters 0-3 arrive dirty in `$a0`-`$a3`; later ones get a slot in the caller's frame |
| IrMips.PassArg | ir_mips.c:328-341 | argument i < 4 goes in `$a<i>`; a later one is stored below `$sp` from its register or through `$v1` |
| IrMips.PassArgs | ir_mips.c:328-342 | the arguments in order keep the record well formed |
| IrMips.CallCode | ir_mips.c:320-354 | the call visitor keeps the record well formed |
| IrMips.CallArgs | ir_mips.c:321-342 | `$sp` lowered for arguments past the fourth, then the arguments passed |
| IrMips.MovCode | ir_mips.c:246-255 | the move visitor keeps the record well formed |
| IrMips.ArthCode | ir_mips.c:257-264 | the arithmetic visitor keeps the record well formed |
| IrMips.AddrCode | ir_mips.c:266-273 | the address visitor fails exactly when the variable has no slot (its assert) |
| IrMips.LoadCode | ir_mips.c:275-281 | the load visitor keeps the record well formed |
| IrMips.StoreCode | ir_mips.c:283-288 | the store visitor keeps the record well formed |
| IrMips.BranchCode | ir_mips.c:297-305 | the branch visitor keeps the record well formed |
| IrMips.ReadCode | ir_mips.c:356-362 | the read visitor keeps the record well formed |
| IrMips.WriteCode | ir_mips.c:364-370 | the write visitor keeps the record well formed |
| IrMips.GotoCode | ir_mips.c:290-295 | the goto visitor keeps the record well formed |
| IrMips.RetCode | ir_mips.c:307-312 | the return visitor keeps the record well formed |
| IrMips.Translate | ir_mips.c:225-370 | one instruction fails exactly on a label, a second declaration of a variable, or the address of a variable without a slot |
| IrMips.Body | ir_mips.c:387-393 | the block loop keeps the record well formed and ends the block exactly at a goto, branch or return |
| IrMips.BodyStep | ir_mips.c:388-392 | one turn frees the registers of variables not live, translates the instruction and fails after an instruction that ended the block |
| IrMips.BlockStart | ir_mips.c:382-386 | a block's code starts with every register free and nothing dirty |
| IrMips.FreeAll | ir_mips.c:382 | the cleared register file holds no variable |
| IrMips.BlockCode | ir_mips.c:378-398 | ir_mips_bb keeps the record well formed |
| IrMips.Blocks | ir_mips.c:405-409 | the reachable blocks in order keep the record well formed |
| IrMips.SavedRegs | ir_mips.c:411-415 | the `$s` registers whose bit is set, among the first k |
| IrMips.SavedRegsExact | ir_mips.c:425-431 | those listed are exactly the registers whose bit is set |
| IrMips.SavedRegsAscending | ir_mips.c:425-431 | listed in ascending order, each once |
| IrMips.Exec1 | ir_mips.c:416-435 | one frame instruction on a machine keeps it well formed |
| IrMips.Exec | ir_mips.c:416-435 | a run of frame instructions keeps the machine well formed |
| IrMips.ExecAppend | ir_mips.c:416-435 | running two lists is running one after the other |
| IrMips.ExecThen | ir_mips.c:416-435 | a run continues from where the first part ended |
| IrMips.ExecCons | ir_mips.c:416-435 | a run starts with its first instruction |
| IrMips.SavedAreCallee | ir_mips.c:411-415 | the saved registers are among `$s0`-`$s7` |
| IrMips.ExecSaves | ir_mips.c:425-430 | the saves store the registers' values in consecutive words from `$sp` and touch no register |
| IrMips.ExecRestores | ir_mips.c:425-430 | the restores load those words back into the registers and keep memory |
| IrMips.ExecPrologue | ir_mips.c:416-424 | the prologue lowers `$sp` by the frame, sets `$fp`, and saves `$ra` and the caller's `$fp` |
| IrMips.ExecEpilogue | ir_mips.c:432-435 | the epilogue puts `$sp` back and reloads `$ra` and `$fp` |
| IrMips.EntryLayout | ir_mips.c:410-431 | what the entry code leaves: the frame, `$ra` and `$fp` saved, each saved register in its slot from `$sp` up, every other register as it was |
| IrMips.EntryList | ir_mips.c:416-431 | the same for any list of `$s` registers whose slots fit the frame |
| IrMips.ExitRestores | ir_mips.c:425-435 | the exit code reloads the saved registers, `$sp`, `$ra` and `$fp` |
| IrMips.CalleeApart | ir_mips.c:40-42 | ascending `$s` registers are distinct and none is `$sp`, `$fp` or `$ra` |
| IrMips.ExitList | ir_mips.c:425-435 | the exit code for any ascending list of `$s` registers |
| IrMips.RestoredRegs | ir_mips.c:425-435 | the restores and epilogue together give back the words the frame holds |
| IrMips.FrameRestores | ir_mips.c:410-435 | the entry and exit code pair up: whatever the body does, while it keeps `$sp`, `$fp` and the frame's words, the exit gives the caller back its `$sp`, `$fp`, `$ra` and every `$s` register the function used |
| IrMips.FrameList | ir_mips.c:410-435 | the same for any ascending list of `$s` registers |
| IrMips.FrameWordsBack | ir_mips.c:410-435 | the frame's words read back give the caller's registers |
| IrMips.BodyStoresApart | ir_mips.c:54-59 | a variable's slot, a parameter slot and an outgoing argument never land on the frame's saved words |
| IrMips.ParamMeetsArg | ir_mips.c:240 | a callee finds its fifth and later parameters where its caller stored them, at 4 * (i - 4) above its stack pointer |
| IrMips.AllRegsInOrder | ir_mips.c:81-85 | write_back_all visits the registers in order |
| IrMips.FindNotZero | ir_mips.c:151 | find_var_reg never answers `$zero`, so its `> 0` test means held |
| IrMips.WriteBackInv | ir_mips.c:70-78 | write_back keeps the invariant |
| IrMips.WriteBackListInv | ir_mips.c:80-94 | writing back a list keeps the invariant |
| IrMips.CalleeInOrder | ir_mips.c:40-48 | reg_callee is `$s0`-`$s7` and reg_canuse is the caller-saved then the callee-saved registers |
| IrMips.AllBitsSet | ir_mips.c:131 | a mask with all eight bits set is 0xff |
| IrMips.BindKeepsResident | ir_mips.c:99-120 | binding a free register keeps every variable held where it was |
| IrMips.BindInv | ir_mips.c:99-120 | binding a free usable register keeps the invariant when the `$s` bits cover it |
| IrMips.CallerNotCallee | ir_mips.c:35-42 | no caller-saved register is an `$s` register |
| IrMips.AllocCallerInv | ir_mips.c:98-107 | alloc_caller keeps the invariant |
| IrMips.AllocCalleeInv | ir_mips.c:109-119 | alloc_callee keeps the invariant |
| IrMips.CalleeIndex | ir_mips.c:40-42 | the k-th callee-saved register is `$s<k>` |
| IrMips.MaskKeepsAll | ir_mips.c:112 | setting a bit keeps every bit already set |
| IrMips.MaskKeeps | ir_mips.c:112 | a bit is set afterwards exactly when it was or is the one set |
| IrMips.EvictInv | ir_mips.c:132-135 | eviction keeps the invariant |
| IrMips.AllocRegInv | ir_mips.c:121-136 | alloc_reg keeps the invariant |
| IrMips.SlotsKeepInv | ir_mips.c:54-59 | giving slots or emitting code keeps the invariant |
| IrMips.LoadKeepsInv | ir_mips.c:153-157 | loading a variable not held keeps the invariant |
| IrMips.GetLRegAllocs | ir_mips.c:174-178 | get_lreg on a variable not held keeps the invariant |
| IrMips.EvictsOther | ir_mips.c:132-135 | an eviction clears the dirty bit only of another variable |
| IrMips.MarkDirtyInv | ir_mips.c:174 | marking the variable dirty before it is held breaks the invariant for it only |
| IrMips.GetRRegInv | ir_mips.c:138-160 | get_rreg keeps the invariant |
| IrMips.GetROprInv | ir_mips.c:162-170 | get_ropr keeps the invariant |
| IrMips.GetLRegInv | ir_mips.c:172-180 | get_lreg keeps the invariant |
| IrMips.GotoWritesBack | ir_mips.c:290-295 | at the jump no register holds a variable and none is dirty; the jump comes last |
| IrMips.BranchWritesBack | ir_mips.c:297-305 | after its operands every register is written back and the conditional jump comes last |
| IrMips.FillInv | ir_mips.c:200-214 | filling a free argument register keeps the invariant |
| IrMips.MovInv | ir_mips.c:246-255 | the move visitor keeps the invariant |
| IrMips.ArthInv | ir_mips.c:257-264 | the arithmetic visitor keeps the invariant |
| IrMips.AddrInv | ir_mips.c:266-273 | the address visitor keeps the invariant |
| IrMips.LoadInv | ir_mips.c:275-281 | the load visitor keeps the invariant |
| IrMips.StoreInv | ir_mips.c:283-288 | the store visitor keeps the invariant |
| IrMips.RetInv | ir_mips.c:307-312 | the return visitor keeps the invariant |
| IrMips.WriteInv | ir_mips.c:364-370 | the write visitor keeps the invariant |
| IrMips.ResultInv | ir_mips.c:351-352 | binding the free `$v0` to the result, dirty, keeps the invariant |
| IrMips.ReadInv | ir_mips.c:356-362 | the read visitor keeps the invariant |
| IrMips.PassArgInv | ir_mips.c:332-340 | an argument past the fourth keeps the invariant; `$v1` holds no variable before or after |
| IrMips.PassArgsInv | ir_mips.c:328-342 | passing the arguments keeps the invariant |
| IrMips.CallArgsInv | ir_mips.c:321-342 | the first half of the call visitor keeps the invariant |
| IrMips.CallInv | ir_mips.c:320-354 | the call visitor keeps the invariant and leaves the result dirty in `$v0` |
| IrMips.ParamsInv | ir_mips.c:233-244 | the function visitor keeps the invariant when `$a0`-`$a3` are free, and the later ones stay free |
| IrMips.ResultArgInv | ir_mips.c:237-238 | binding a free argument register to a parameter, dirty, keeps the invariant |
| IrMips.AllocInv | ir_mips.c:314-318 | the declaration visitor keeps the invariant |
| IrMips.TranslateInv | ir_mips.c:225-370 | every visitor keeps the invariant of the allocator |
| IrMips.JumpLeavesClean | ir_mips.c:290-305 | a goto or branch never fails and leaves no register holding a variable and nothing dirty |
| IrMips.CleanKeepsFree | ir_mips.c:182-190 | clean_reg on a free register file leaves it free |
| IrMips.BodyStepInv | ir_mips.c:388-392 | one turn of the block loop keeps the invariant |
| IrMips.BodyInv | ir_mips.c:387-393 | the block loop keeps the invariant from a free register file |
| IrMips.BlockInv | ir_mips.c:378-398 | ir_mips_bb keeps the invariant |
| IrMips.BlockLeavesClean | ir_mips.c:290-305 | a block not ended by a return, whether it ends in a jump or runs to its end, leaves no register holding a variable and nothing dirty |
| IrMips.FallLeavesClean | ir_mips.c:394-397 | a block run to its end is cleaned and written back there |
| IrMips.BodyJumpLeavesClean | ir_mips.c:387-393 | a block ending in a jump leaves every register free and nothing dirty |
| IrMips.Fresh | ir_mips.c:14-23 | ir_mips_init's record: no slots, no code, no saved registers, and the invariant holds |
| IrMips.FrameNoRet | ir_mips.c:416-435 | entry and exit code hold no return |
| IrMips.Translated | ir_mips.c:400-436 | a translated function is printable, and its body is the code emitted |
| IrMips.MipsProgram | ir_mips.c:438-447 | ir_mips translates the functions in order, carrying the round-robin cursor from one to the next; each result is printable and reachable exactly when its function is |
| IrMips.MipsProgramNoneStays | ir_mips.c:438-447 | once translation fails on a function it stays failed |
| MipsResClass.MipsRes.constructor | ir_mips.c:8-25 | ir_mips_init's record for one function: no register taken, no slot, an empty frame, no code, the invariant holding; the cursor starts where the previous function left it |
| MipsResClass.MipsRes.GetOffset | ir_mips.c:50-59 | get_offset in place: the slot and the new record are those of IrMips.Offset |
| MipsResClass.MipsRes.FindVarReg | ir_mips.c:61-68 | the register loop answers the lowest register holding the variable, or -1 |
| MipsResClass.MipsRes.WriteBack | ir_mips.c:70-78 | write_back in place, as IrMips.WriteBack says |
| MipsResClass.MipsRes.WriteBackOrder | ir_mips.c:80-94 | the loop over a register list in place, as IrMips.WriteBackList says |
| MipsResClass.MipsRes.WriteBackAll | ir_mips.c:80-86 | write_back_all in place |
| MipsResClass.MipsRes.WriteBackCaller | ir_mips.c:88-94 | write_back_caller in place |
| MipsResClass.MipsRes.AllocCaller | ir_mips.c:98-107 | alloc_caller in place, the loop over reg_caller proved to return what IrMips.AllocCaller returns, with the same new state and cursor |
| MipsResClass.MipsRes.AllocCallee | ir_mips.c:109-119 | alloc_callee in place, as IrMips.AllocCallee says, including the saved-mask bit |
| MipsResClass.MipsRes.EvictNext | ir_mips.c:131-135 | the eviction in place, from a state where the register after the cursor holds a variable, ending as IrMips.Evict says |
| MipsResClass.MipsRes.AllocReg | ir_mips.c:121-136 | alloc_reg in place: register, record and cursor as IrMips.AllocReg says |
| MipsResClass.MipsRes.AllocCrossing | ir_mips.c:122-125 | alloc_reg for a variable live across a call, in place: `$s` first, then the others, then the eviction, ending as IrMips.AllocReg says |
| MipsResClass.MipsRes.AllocLocal | ir_mips.c:126-135 | alloc_reg for any other variable, in place: caller-saved first, then `$s`, then the eviction, as IrMips.AllocReg says |
| MipsResClass.MipsRes.LoadReg | ir_mips.c:153-157 | allocation and load in place, as IrMips.LoadReg says |
| MipsResClass.MipsRes.LoadSlot | ir_mips.c:155 | the load from the slot in place, as IrMips.LoadInto says |
| MipsResClass.MipsRes.GetRReg | ir_mips.c:138-160 | get_rreg in place, as IrMips.GetRReg says |
| MipsResClass.MipsRes.GetROpr | ir_mips.c:162-170 | get_ropr in place, as IrMips.GetROpr says |
| MipsResClass.MipsRes.GetLReg | ir_mips.c:172-180 | get_lreg in place, as IrMips.GetLReg says |
| MipsResClass.MipsRes.CleanReg | ir_mips.c:182-190 | clean_reg in place, as IrMips.Clean says |
| MipsResClass.MipsRes.PassReg | ir_mips.c:192-216 | pass_reg in place, as IrMips.PassReg says |
| MipsResClass.MipsRes.VisitFunc | ir_mips.c:233-244 | the function visitor in place, as IrMips.Params says |
| MipsResClass.MipsRes.VisitMov | ir_mips.c:246-255 | the move visitor in place, as IrMips.MovCode says |
| MipsResClass.MipsRes.VisitArth | ir_mips.c:257-264 | the arithmetic visitor in place, as IrMips.ArthCode says |
| MipsResClass.MipsRes.VisitAddr | ir_mips.c:266-273 | the address visitor in place; it fails exactly where its assert does |
| MipsResClass.MipsRes.VisitLoad | ir_mips.c:275-281 | the load visitor in place |
| MipsResClass.MipsRes.VisitStore | ir_mips.c:283-288 | the store visitor in place |
| MipsResClass.MipsRes.VisitGoto | ir_mips.c:290-295 | the goto visitor in place |
| MipsResClass.MipsRes.VisitBranch | ir_mips.c:297-305 | the branch visitor in place |
| MipsResClass.MipsRes.VisitRet | ir_mips.c:307-312 | the return visitor in place |
| MipsResClass.MipsRes.VisitAlloc | ir_mips.c:314-318 | the declaration visitor in place; it fails exactly when the variable already has a slot |
| MipsResClass.MipsRes.PassArg | ir_mips.c:329-341 | one argument in place, as IrMips.PassArg says |
| MipsResClass.MipsRes.PassArgs | ir_mips.c:321-342 | `$sp` lowered, then every argument passed |
| MipsResClass.MipsRes.PassAll | ir_mips.c:328-342 | the argument loop in place |
| MipsResClass.MipsRes.PassNext | ir_mips.c:329-341 | one turn of the argument loop |
| MipsResClass.MipsRes.FinishCall | ir_mips.c:343-352 | the rest of the call visitor in place |
| MipsResClass.MipsRes.VisitCall | ir_mips.c:320-354 | the call visitor in place, as IrMips.CallCode says |
| MipsResClass.MipsRes.VisitRead | ir_mips.c:356-362 | the read visitor in place |
| MipsResClass.MipsRes.VisitWrite | ir_mips.c:364-370 | the write visitor in place |
| MipsResClass.MipsRes.Visit | ir_mips.c:372-376 | dispatch through the visitor table: it fails exactly where IrMips.Translate does, and otherwise performs it |
| MipsResClass.MipsRes.StartBlock | ir_mips.c:381-386 | every register and dirty bit cleared, then the block's label |
| MipsResClass.MipsRes.BlockStep | ir_mips.c:388-392 | one turn of the block loop extends the run, or the whole block fails |
| MipsResClass.MipsRes.MipsBb | ir_mips.c:378-398 | ir_mips_bb in place, as IrMips.BlockCode says, failing exactly where it does |
| MipsResClass.MipsRes.BlockBody | ir_mips.c:387-393 | the block loop in place, as IrMips.Body says |
| MipsResClass.MipsRes.FrameTotal | ir_mips.c:410-415 | the frame size: the slots and a word per saved register |
| MipsResClass.MipsRes.SaveCode | ir_mips.c:425-431 | a store and a load per saved register, in ascending order |
| MipsResClass.MipsRes.FrameCode | ir_mips.c:410-435 | the entry and exit code from the frame size and saved mask, the record unchanged |
| MipsResClass.MipsRes.CfgStep | ir_mips.c:405-409 | one turn of the block loop of ir_mips_cfg |
| MipsResClass.MipsRes.MipsBlocks | ir_mips.c:405-409 | the reachable blocks in order, as IrMips.Blocks says |
| MipsResClass.MipsRes.MipsCfg | ir_mips.c:400-436 | ir_mips_cfg in place: the blocks, then the entry and exit code; it fails exactly where IrMips.Blocks does |
| MipsResClass.MipsFunc | ir_mips.c:440-445 | one reachable function from a fresh record with the cursor carried over, as IrMips.Translated says |
| MipsResClass.IrMipsRun | ir_mips.c:438-447 | ir_mips over every function computes IrMips.MipsProgram, the result and the final cursor |
| MipsResClass.ProgramStep | ir_mips.c:442-446 | one turn of the ir_mips loop on a reachable function |
| MipsResClass.ProgramSkip | ir_mips.c:444 | an unreachable function emits nothing and leaves the cursor |
| MipsResClass.WriteBackListSnoc | ir_mips.c:80-94 | writing back one more register is one more turn of the loop |
| MipsResClass.CallCodeSplit | ir_mips.c:320-354 | the call visitor is its arguments, then the rest |
| MipsResClass.BodyNoneStays | ir_mips.c:387-393 | once the block loop has failed it stays failed |
| MipsResClass.BodyAtStep | ir_mips.c:388-392 | a translated instruction extends the run |
| MipsResClass.BodyAtFails | ir_mips.c:388-392 | a failing instruction fails the whole block |
| MipsResClass.BlocksNoneStays | ir_mips.c:405-409 | once the block loop of ir_mips_cfg has failed it stays failed |
| MipsResClass.SavesSnoc | ir_mips.c:425-431 | one more saved register adds a store and a load at the next word |
| MipsResClass.SaveStep | ir_mips.c:427 | the store at the next word |
| MipsResClass.RestoreStep | ir_mips.c:428 | the load from that word |
| MipsResClass.SavedRegsStep | ir_mips.c:425-426 | the mask scan over one more register |
| MipsResClass.Lowered | ir_mips.c:323-327 | lowering `$sp` only adds code, and only with more than four arguments |
| MipsResClass.CallArgsIsPassArgs | ir_mips.c:321-342 | the first half of the call visitor is `$sp` lowered, then every argument |
| MipsResClass.PassArgsStep | ir_mips.c:328-342 | one more argument is one more PassArg |
| Semantics.Kind | type.h:10 | the type kind, numbered as in the typeid enumeration, one of seven |
| Semantics.SameType | semantics.c:35-49 | is_same_type: 2 when either side is the error type, 0 when the kinds differ, and for two structs 1 exactly when both name the same definition |
| Semantics.SameTypeIsSameShape | semantics.c:35-49 | on types without errors, is_same_type answers 1 exactly when both types have the same shape (array lengths ignored, structs by identity) that does not end in a function type, and 0 otherwise |
| Semantics.SameTypeSymmetric | semantics.c:35-49 | is_same_type does not depend on the order of its arguments |
| Semantics.Innermost | semantics.c:51-61 | the element type under every array level is not an array |
| Semantics.WithDim | semantics.c:51-61 | add_array adds the new length as the innermost array level and keeps the element type |
| Semantics.WithDimSized | semantics.c:51-61 | after add_array the sizes stay consistent: the whole type is num times as large |
| Semantics.AddVar | semantics.c:13-17 | add_var puts the variable in front, at the frame's old size as its offset, grows the frame by the variable's size, and keeps the variables laid out without overlap |
| Semantics.FindVar | semantics.c:19-26 | the position of the most recently added variable of that name, and none exactly when no variable has it |
| Semantics.LookupVar | semantics.c:19-26 | lookup_var's walk returns the variable FindVar finds, or null |
| Semantics.AddedVarShadows | semantics.c:13-26 | a variable added with the name hides every older one of that name, and leaves the others where they were |
| Semantics.FindDeep | semantics.c:28-34 | the first frame of the chain holding the name, with the variable's position in it |
| Semantics.LookupVarDeep | semantics.c:28-34 | lookup_var_deep's walk from the frame outward returns the variable FindDeep finds, or null |
| Semantics.FindDeepFrom | semantics.c:28-34 | when no frame before k holds the name and frame k does, the search stops at k |
| Semantics.StructTable.AddStruct | semantics.c:74-76 | add_struct puts the definition in front of the list |
| Semantics.FindStruct | semantics.c:78-85 | the most recently added named struct of that name, and none exactly when no named struct has it |
| Semantics.StructTable.LookupStruct | semantics.c:78-85 | lookup_struct's walk returns the struct FindStruct finds, or null |
| Semantics.StructTable.IsNameDup | semantics.c:87-89 | is_name_dup holds exactly when a struct or a variable of the frame has the name |
| Semantics.StructTable.IsNameDupDeep | semantics.c:91-92 | is_name_dup_deep holds exactly when a struct or a variable of some frame of the chain has the name |
| AstIr.Plain | ir.h:11-15 | an operand as an instruction holds it, with the type dropped: variables stay variables with their id, constants keep their value |
| AstIr.Emit | ir.c:121-144 | add_ir only appends, and appends a label as it is |
| AstIr.NewVar | ir.c:81-87 | new_var_id returns the next variable id and counts it |
| AstIr.NewLabel | ir.c:89-91 | gen_label returns the next label number, known to the graph and placed nowhere |
| AstIr.FindField | ast_ir.c:439-454 | the field of that name in the struct's field list, and none exactly when no field has the name |
| AstIr.Steps | ast_ir.c:218-236 | the number of 4-byte words copy_ref copies covers the size and no word more |
| AstIr.CopyLoad | ast_ir.c:225-231 | the first half of a copy step: three instructions that load the word at the offset past the source into a temporary |
| AstIr.CopyStore | ast_ir.c:231-234 | the second half: three instructions that store the temporary at the offset past the destination |
| AstIr.CopyN | ast_ir.c:218-236 | the first k steps of copy_ref copy the words at offsets 0, 4, ... 4(k-1) in order |
| AstIr.CopyRef | ast_ir.c:218-236 | copy_ref copies as many words as cover the smaller of the two sizes, each a load then a store through fresh temporaries; with either side not a reference the lowering fails |
| AstIr.CopiedEach | ast_ir.c:222-235 | step j of the copy moves the word at offset 4j, six instructions per step |
| AstIr.Min | ast_ir.c:219 | the smaller of two sizes |
| AstIr.DeclVar | ast_ir.c:104-115 | a declared variable gets an id, and only the id table changes |
| AstIr.ParamV | ast_ir.c:128-138 | a parameter gets an id without any code |
| AstIr.ParamsV | ast_ir.c:122-127 | the parameters get their ids in order without any code |
| AstIr.V | ast_ir.c:345-483 | lowering an expression for its value only appends to the graph |
| AstIr.B | ast_ir.c:345-399 | lowering an expression as a condition only appends to the graph |
| AstIr.FunS | ast_ir.c:70-75 | a function definition opens a graph, and the graph is left alone when the lowering cannot go on |
| AstIr.Top | ast_ir.c:51-69 | only function definitions produce code |
| AstIr.Lowerer.constructor | ir.c:67-71 | init_ir_program: an empty program with no variable given an id |
| AstIr.Lowerer.Add | ir.c:133-144 | add_ir in place, as Emit says |
| AstIr.Lowerer.NewLabelM | ir.c:89-91 | gen_label in place, as NewLabel says |
| AstIr.Lowerer.NewVarM | ir.c:81-87 | gen_temp_var in place, as NewVar says |
| AstIr.Lowerer.ToAtom | ast_ir.c:11-31 | iropr2atom in place: a reference to a non-aggregate is loaded into a temporary, as Atom says |
| AstIr.Lowerer.Value | ast_ir.c:345-483 | the visitor with `branch == 0` in place, as V says |
| AstIr.Lowerer.Cond | ast_ir.c:345-399 | the visitor with `branch == 1` in place, as B says |
| AstIr.Lowerer.CondValue | ast_ir.c:263-277 | ast_ir_exp_v2b in place, as V2B says |
| AstIr.Lowerer.SetFlag | ast_ir.c:268-276 | the end of ast_ir_exp_v2b in place, as Materialize says |
| AstIr.Lowerer.ValueCond | ast_ir.c:278-286 | ast_ir_exp_b2v in place, as B2V says |
| AstIr.Lowerer.Assign | ast_ir.c:287-305 | ast_ir_exp__mov_v in place, as MovV says |
| AstIr.Lowerer.Arith | ast_ir.c:306-314 | ast_ir_exp__2oparth_v in place, as ArthV says |
| AstIr.Lowerer.Negate | ast_ir.c:369-376 | ast_ir_exp__minus_v in place, as MinusV says |
| AstIr.Lowerer.CallFun | ast_ir.c:400-420 | ast_ir_exp__call for a value in place, as CallV says |
| AstIr.Lowerer.Arguments | ast_ir.c:484-489 | ast_ir_args in place, as ArgsV says |
| AstIr.Lowerer.Index | ast_ir.c:421-438 | ast_ir_exp__array for a value in place, as ArrayV says |
| AstIr.Lowerer.Member | ast_ir.c:439-455 | ast_ir_exp__dot for a value in place, as DotV says |
| AstIr.Lowerer.Ident | ast_ir.c:456-472 | ast_ir_exp__id for a value in place, as IdV says |
| AstIr.Lowerer.And | ast_ir.c:315-324 | ast_ir_exp__and_b in place, as AndB says |
| AstIr.Lowerer.Or | ast_ir.c:325-334 | ast_ir_exp__or_b in place, as OrB says |
| AstIr.Lowerer.Compare | ast_ir.c:335-344 | ast_ir_exp__relop_b in place, as RelopB says |
| AstIr.Lowerer.Not | ast_ir.c:377-385 | ast_ir_exp__not_b in place, as NotB says |
| AstIr.Lowerer.CopyWord | ast_ir.c:222-235 | one turn of copy_ref's loop in place |
| AstIr.Lowerer.LoadWord | ast_ir.c:225-231 | the load half of a copy step in place, as CopyLoad says |
| AstIr.Lowerer.StoreWord | ast_ir.c:231-234 | the store half of a copy step in place, as CopyStore says |
| AstIr.Lowerer.Copy | ast_ir.c:218-236 | copy_ref in place, as CopyRef says |
| AstIr.Lowerer.CopyWords | ast_ir.c:222-235 | the loop of copy_ref: as many steps as cover the size, as CopyN says |
| AstIr.Lowerer.VarDec | ast_ir.c:104-115 | ast_ir_var_dec__id and __array in place, as DeclVar says |
| AstIr.Lowerer.Param | ast_ir.c:128-138 | ast_ir_param_dec in place, as ParamV says |
| AstIr.Lowerer.Params | ast_ir.c:122-127 | ast_ir_var_list in place, as ParamsV says |
| AstIr.Lowerer.Declare | ast_ir.c:237-262 | ast_ir_dec in place, as DecS says |
| AstIr.Lowerer.DeclareBlock | ast_ir.c:241-254 | the array and struct case of ast_ir_dec in place, as BlockDecS says, leaving the open and finished functions alone |
| AstIr.Lowerer.Return | ast_ir.c:161-166 | ast_ir_stmt__ret in place, as RetS says |
| AstIr.Lowerer.If | ast_ir.c:167-176 | ast_ir_stmt__if in place, as IfS says |
| AstIr.Lowerer.IfElse | ast_ir.c:177-189 | ast_ir_stmt__ifelse in place, as IfElseS says |
| AstIr.Lowerer.While | ast_ir.c:190-200 | ast_ir_stmt__while in place, as WhileS says |
| AstIr.Lowerer.Stmt | ast_ir.c:139-160 | the visitor on a node of a function body in place, as S says |
| AstIr.Lowerer.Function | ast_ir.c:70-75 | ast_ir_ext_def__fun in place, as FunS says |
| AstIr.Lowerer.Walk | ast_ir.c:51-69 | the visitor over the top of the tree in place, as Top says |
| AstIr.Lower | ast_ir.c:496-501 | ast_ir: the program of the whole tree, as Top says from the empty program |
| LowerFlow.Find | ast_ir.c:167-200 | the first position of a label in the code, and none exactly when the label is not placed |
| LowerFlow.FindConcat | ast_ir.c:167-200 | the first position of a label in two pieces of code put together |
| LowerFlow.FlowPrefix | ast_ir.c:167-200 | running code with more code after it is running the first piece, then going on as its exit says |
| LowerFlow.FlowSuffix | ast_ir.c:167-200 | running inside the second piece, when nothing there jumps into the first, is running that piece alone |
| LowerFlow.LeafValue | ast_ir.c:456-479 | a constant or an integer variable lowers to no code, and its operand evaluates to the leaf's value |
| LowerFlow.JumpPair | ast_ir.c:335-344 | a conditional jump to t and a jump to f go to t exactly when the relation holds |
| LowerFlow.CondCode | ast_ir.c:315-399 | the code of a pure condition places only fresh labels, jumps only to its own labels or t and f, and run from its start goes to t exactly when the condition holds and to f otherwise |
| LowerFlow.JunctionCode | ast_ir.c:315-334 | the same for the logical and and or operators, whose left side jumps to a fresh label where the right side decides |
| LowerFlow.JoinRun | ast_ir.c:315-334 | the code of the logical and and or operators runs into its right side exactly when the left side goes to the fresh label |
| LowerFlow.FlagRun | ast_ir.c:263-277 | the end of v2b sets the flag to 1 when the condition went to the true label and to 0 when it went to the false one, then falls through |
| LowerFlow.MaterializeCode | ast_ir.c:263-277 | v2b appends the six instructions of the flag after the code of the condition |
| LowerFlow.FlagFlow | ast_ir.c:263-277 | v2b on a pure condition leaves a fresh variable holding 1 exactly when the condition holds and 0 otherwise, and falls through |
| LowerFlow.IfFlow | ast_ir.c:167-176 | ast_ir_stmt__if on a pure condition: the code is condition, true label, body, false label; it enters the body when the condition holds and otherwise falls past its end with the store unchanged |
| LowerFlow.IfElseFlow | ast_ir.c:177-189 | ast_ir_stmt__ifelse on a pure condition: it enters the then branch when the condition holds and the else branch when it does not, and the jump after the then branch leaves through the end |
| LowerFlow.IfElseCond | ast_ir.c:177-189 | the runs of the code of an if-else from the run of its condition |
| LowerFlow.WhileFlow | ast_ir.c:190-200 | ast_ir_stmt__while on a pure condition: test, body label, body, test again, end label; it enters the body when the condition holds, falls past the end when it does not, and the second test goes back to the body label exactly when the condition holds after the body |
| LowerFlow.LoopRuns | ast_ir.c:190-200 | the runs of the code of a loop from the run of its test |
| LowerFlow.EmitArth | ir.c:121-131 | add_ir's split of an arithmetic leaves the destination holding the operation's value in C `int` arithmetic, and changes only the destination and the temporary |
| LowerFlow.RunSplit | ir.c:133-144 | running two pieces of appended code is running one and then the other |
| LowerFlow.ArrayAddress | ast_ir.c:421-438 | indexing gives a variable exactly when the base is a reference to an array; then four instructions follow and leave the result holding base plus index times element size |
| LowerFlow.DotAddress | ast_ir.c:439-455 | member access gives a variable exactly when the base is a reference to a struct with that field; then two instructions follow and leave the result holding base plus the field's offset |
| AstPrinter.ProgramLines | ast_printer.c:15-21 | the `program` handler prints the Program heading, then the external definitions; every child and word two spaces deeper than the heading |
| AstPrinter.ExtDefListLines | ast_printer.c:23-30 | the `ext_def_list` handler prints the ExtDefList heading, then the definition and the rest of the list; every child and word two spaces deeper than the heading |
| AstPrinter.ExtDefVarLines | ast_printer.c:32-40 | the `ext_def__var` handler prints the ExtDef heading, then the specifier, the declarators and SEMI; every child and word two spaces deeper than the heading |
| AstPrinter.ExtDefNoneLines | ast_printer.c:42-49 | the `ext_def__none` handler prints the ExtDef heading, then the specifier and SEMI; every child and word two spaces deeper than the heading |
| AstPrinter.ExtDefFunLines | ast_printer.c:51-59 | the `ext_def__fun` handler prints the ExtDef heading, then the specifier, the function head and the body; every child and word two spaces deeper than the heading |
| AstPrinter.ExtDecListLines | ast_printer.c:61-71 | the `ext_dec_list` handler prints the ExtDecList heading, then the declarator, and COMMA and the rest only when the list goes on; every child and word two spaces deeper than the heading |
| AstPrinter.SpecTypeLines | ast_printer.c:73-79 | the `specifier__type` handler prints the Specifier heading, then `TYPE: ` and the type's name; every child and word two spaces deeper than the heading |
| AstPrinter.SpecStructLines | ast_printer.c:81-87 | the `specifier__struct` handler prints the Specifier heading, then the struct specifier; every child and word two spaces deeper than the heading |
| AstPrinter.StructDefLines | ast_printer.c:89-99 | the `struct_specifier__def` handler prints the StructSpecifier heading, then STRUCT, the optional tag, LC, the fields and RC; every child and word two spaces deeper than the heading |
| AstPrinter.StructTagLines | ast_printer.c:101-108 | the `struct_specifier__tag` handler prints the StructSpecifier heading, then STRUCT and the tag; every child and word two spaces deeper than the heading |
| AstPrinter.OptTagLines | ast_printer.c:110-116 | the `opt_tag` handler prints the OptTag heading, then `ID: ` and the name; every child and word two spaces deeper than the heading |
| AstPrinter.TagLines | ast_printer.c:118-124 | the `tag` handler prints the Tag heading, then `ID: ` and the name; every child and word two spaces deeper than the heading |
| AstPrinter.VarDecIdLines | ast_printer.c:126-132 | the `var_dec__id` handler prints the VarDec heading, then `ID: ` and the name; every child and word two spaces deeper than the heading |
| AstPrinter.VarDecArrayLines | ast_printer.c:134-143 | the `var_dec__array` handler prints the VarDec heading, then the inner declarator, LB, `INT: ` and the size in `%d`, and RB; every child and word two spaces deeper than the heading |
| AstPrinter.FunDecLines | ast_printer.c:145-154 | the `fun_dec` handler prints the FunDec heading, then `ID: ` and the name, LP, the parameters and RP; every child and word two spaces deeper than the heading |
| AstPrinter.VarListLines | ast_printer.c:156-166 | the `var_list` handler prints the VarList heading, then the parameter, and COMMA and the rest only when the list goes on; every child and word two spaces deeper than the heading |
| AstPrinter.ParamDecLines | ast_printer.c:168-175 | the `param_dec` handler prints the ParamDec heading, then the specifier and the declarator; every child and word two spaces deeper than the heading |
| AstPrinter.CompStLines | ast_printer.c:177-186 | the `comp_st` handler prints the CompSt heading, then LC, the definitions, the statements and RC; every child and word two spaces deeper than the heading |
| AstPrinter.StmtListLines | ast_printer.c:188-195 | the `stmt_list` handler prints the StmtList heading, then the statement and the rest of the list; every child and word two spaces deeper than the heading |
| AstPrinter.StmtExpLines | ast_printer.c:197-204 | the `stmt__exp` handler prints the Stmt heading, then the expression and SEMI; every child and word two spaces deeper than the heading |
| AstPrinter.StmtCompLines | ast_printer.c:206-212 | the `stmt__comp` handler prints the Stmt heading, then the block; every child and word two spaces deeper than the heading |
| AstPrinter.StmtRetLines | ast_printer.c:214-222 | the `stmt__ret` handler prints the Stmt heading, then RETURN, the expression and SEMI; every child and word two spaces deeper than the heading |
| AstPrinter.StmtIfLines | ast_printer.c:224-234 | the `stmt__if` handler prints the Stmt heading, then IF, LP, the test, RP and the statement; every child and word two spaces deeper than the heading |
| AstPrinter.StmtIfElseLines | ast_printer.c:236-248 | the `stmt__ifelse` handler prints the Stmt heading, then IF, LP, the test, RP, the then-branch, ELSE and the else-branch; every child and word two spaces deeper than the heading |
| AstPrinter.StmtWhileLines | ast_printer.c:250-260 | the `stmt__while` handler prints the Stmt heading, then WHILE, LP, the test, RP and the body; every child and word two spaces deeper than the heading |
| AstPrinter.DefListLines | ast_printer.c:262-269 | the `def_list` handler prints the DefList heading, then the definition and the rest of the list; every child and word two spaces deeper than the heading |
| AstPrinter.DefLines | ast_printer.c:271-279 | the `def` handler prints the Def heading, then the specifier, the declarators and SEMI; every child and word two spaces deeper than the heading |
| AstPrinter.DecListLines | ast_printer.c:281-291 | the `dec_list` handler prints the DecList heading, then the declarator, and COMMA and the rest only when the list goes on; every child and word two spaces deeper than the heading |
| AstPrinter.DecLines | ast_printer.c:293-303 | the `dec` handler prints the Dec heading, then the declarator, and ASSIGNOP and the initialiser only when there is one; every child and word two spaces deeper than the heading |
| AstPrinter.Exp2Lines | ast_printer.c:305-313 | the `exp__2op` handler prints the Exp heading, then the left operand, the operator's token name and the right operand; every child and word two spaces deeper than the heading |
| AstPrinter.ExpParaLines | ast_printer.c:315-323 | the `exp__para` handler prints the Exp heading, then LP, the inner expression and RP; every child and word two spaces deeper than the heading |
| AstPrinter.Exp1Lines | ast_printer.c:325-332 | the `exp__1op` handler prints the Exp heading, then the unary operator's token name and the operand; every child and word two spaces deeper than the heading |
| AstPrinter.ExpCallLines | ast_printer.c:334-343 | the `exp__call` handler prints the Exp heading, then `ID: ` and the callee, LP, the arguments and RP; every child and word two spaces deeper than the heading |
| AstPrinter.ExpArrayLines | ast_printer.c:345-354 | the `exp__array` handler prints the Exp heading, then the array, LB, the index and RB; every child and word two spaces deeper than the heading |
| AstPrinter.ExpDotLines | ast_printer.c:356-364 | the `exp__dot` handler prints the Exp heading, then the structure, DOT and `ID: ` and the field; every child and word two spaces deeper than the heading |
| AstPrinter.ExpIdLines | ast_printer.c:366-372 | the `exp__id` handler prints the Exp heading, then `ID: ` and the name; every child and word two spaces deeper than the heading |
| AstPrinter.ExpIntLines | ast_printer.c:374-380 | the `exp__int` handler prints the Exp heading, then `INT: ` and the literal in `%u`, the 32-bit pattern read as unsigned; every child and word two spaces deeper than the heading |
| AstPrinter.ExpFloatLines | ast_printer.c:382-388 | the `exp__float` handler prints the Exp heading, then `FLOAT: ` and the literal's text; every child and word two spaces deeper than the heading |
| AstPrinter.ArgsLines | ast_printer.c:390-400 | the `args` handler prints the Args heading, then the argument, and COMMA and the rest only when the list goes on; every child and word two spaces deeper than the heading |
| AstPrinter.Printer.PrintProgram | ast_printer.c:15-21 | the `program` handler appends exactly the lines its node prints at the current indentation and leaves the indentation as it found it |
| AstPrinter.Printer.PrintExtDefList | ast_printer.c:23-30 | the `ext_def_list` handler appends exactly the lines its node prints at the current indentation and leaves the indentation as it found it |
| AstPrinter.Printer.PrintExtDefVar | ast_printer.c:32-40 | the `ext_def__var` handler appends exactly the lines its node prints at the current indentation and leaves the indentation as it found it |
| AstPrinter.Printer.PrintExtDefNone | ast_printer.c:42-49 | the `ext_def__none` handler appends exactly the lines its node prints at the current indentation and leaves the indentation as it found it |
| AstPrinter.Printer.PrintExtDefFun | ast_printer.c:51-59 | the `ext_def__fun` handler appends exactly the lines its node prints at the current indentation and leaves the indentation as it found it |
| AstPrinter.Printer.PrintExtDecList | ast_printer.c:61-71 | the `ext_dec_list` handler appends exactly the lines its node prints at the current indentation and leaves the indentation as it found it |
| AstPrinter.Printer.PrintSpecType | ast_printer.c:73-79 | the `specifier__type` handler appends exactly the lines its node prints at the current indentation and leaves the indentation as it found it |
| AstPrinter.Printer.PrintSpecStruct | ast_printer.c:81-87 | the `specifier__struct` handler appends exactly the lines its node prints at the current indentation and leaves the indentation as it found it |
| AstPrinter.Printer.PrintStructDef | ast_printer.c:89-99 | the `struct_specifier__def` handler appends exactly the lines its node prints at the current indentation and leaves the indentation as it found it |
| AstPrinter.Printer.PrintStructTag | ast_printer.c:101-108 | the `struct_specifier__tag` handler appends exactly the lines its node prints at the current indentation and leaves the indentation as it found it |
| AstPrinter.Printer.PrintOptTag | ast_printer.c:110-116 | the `opt_tag` handler appends exactly the lines its node prints at the current indentation and leaves the indentation as it found it |
| AstPrinter.Printer.PrintTag | ast_printer.c:118-124 | the `tag` handler appends exactly the lines its node prints at the current indentation and leaves the indentation as it found it |
| AstPrinter.Printer.PrintVarDecId | ast_printer.c:126-132 | the `var_dec__id` handler appends exactly the lines its node prints at the current indentation and leaves the indentation as it found it |
| AstPrinter.Printer.PrintVarDecArray | ast_printer.c:134-143 | the `var_dec__array` handler appends exactly the lines its node prints at the current indentation and leaves the indentation as it found it |
| AstPrinter.Printer.PrintFunDec | ast_printer.c:145-154 | the `fun_dec` handler appends exactly the lines its node prints at the current indentation and leaves the indentation as it found it |
| AstPrinter.Printer.PrintVarList | ast_printer.c:156-166 | the `var_list` handler appends exactly the lines its node prints at the current indentation and leaves the indentation as it found it |
| AstPrinter.Printer.PrintParamDec | ast_printer.c:168-175 | the `param_dec` handler appends exactly the lines its node prints at the current indentation and leaves the indentation as it found it |
| AstPrinter.Printer.PrintCompSt | ast_printer.c:177-186 | the `comp_st` handler appends exactly the lines its node prints at the current indentation and leaves the indentation as it found it |
| AstPrinter.Printer.PrintStmtList | ast_printer.c:188-195 | the `stmt_list` handler appends exactly the lines its node prints at the current indentation and leaves the indentation as it found it |
| AstPrinter.Printer.PrintStmtExp | ast_printer.c:197-204 | the `stmt__exp` handler appends exactly the lines its node prints at the current indentation and leaves the indentation as it found it |
| AstPrinter.Printer.PrintStmtComp | ast_printer.c:206-212 | the `stmt__comp` handler appends exactly the lines its node prints at the current indentation and leaves the indentation as it found it |
| AstPrinter.Printer.PrintStmtRet | ast_printer.c:214-222 | the `stmt__ret` handler appends exactly the lines its node prints at the current indentation and leaves the indentation as it found it |
| AstPrinter.Printer.PrintStmtIf | ast_printer.c:224-234 | the `stmt__if` handler appends exactly the lines its node prints at the current indentation and leaves the indentation as it found it |
| AstPrinter.Printer.PrintStmtIfElse | ast_printer.c:236-248 | the `stmt__ifelse` handler appends exactly the lines its node prints at the current indentation and leaves the indentation as it found it |
| AstPrinter.Printer.PrintStmtWhile | ast_printer.c:250-260 | the `stmt__while` handler appends exactly the lines its node prints at the current indentation and leaves the indentation as it found it |
| AstPrinter.Printer.PrintDefList | ast_printer.c:262-269 | the `def_list` handler appends exactly the lines its node prints at the current indentation and leaves the indentation as it found it |
| AstPrinter.Printer.PrintDef | ast_printer.c:271-279 | the `def` handler appends exactly the lines its node prints at the current indentation and leaves the indentation as it found it |
| AstPrinter.Printer.PrintDecList | ast_printer.c:281-291 | the `dec_list` handler appends exactly the lines its node prints at the current indentation and leaves the indentation as it found it |
| AstPrinter.Printer.PrintDec | ast_printer.c:293-303 | the `dec` handler appends exactly the lines its node prints at the current indentation and leaves the indentation as it found it |
| AstPrinter.Printer.PrintExp2 | ast_printer.c:305-313 | the `exp__2op` handler appends exactly the lines its node prints at the current indentation and leaves the indentation as it found it |
| AstPrinter.Printer.PrintExpPara | ast_printer.c:315-323 | the `exp__para` handler appends exactly the lines its node prints at the current indentation and leaves the indentation as it found it |
| AstPrinter.Printer.PrintExp1 | ast_printer.c:325-332 | the `exp__1op` handler appends exactly the lines its node prints at the current indentation and leaves the indentation as it found it |
| AstPrinter.Printer.PrintExpCall | ast_printer.c:334-343 | the `exp__call` handler appends exactly the lines its node prints at the current indentation and leaves the indentation as it found it |
| AstPrinter.Printer.PrintExpArray | ast_printer.c:345-354 | the `exp__array` handler appends exactly the lines its node prints at the current indentation and leaves the indentation as it found it |
| AstPrinter.Printer.PrintExpDot | ast_printer.c:356-364 | the `exp__dot` handler appends exactly the lines its node prints at the current indentation and leaves the indentation as it found it |
| AstPrinter.Printer.PrintExpId | ast_printer.c:366-372 | the `exp__id` handler appends exactly the lines its node prints at the current indentation and leaves the indentation as it found it |
| AstPrinter.Printer.PrintExpInt | ast_printer.c:374-380 | the `exp__int` handler appends exactly the lines its node prints at the current indentation and leaves the indentation as it found it |
| AstPrinter.Printer.PrintExpFloat | ast_printer.c:382-388 | the `exp__float` handler appends exactly the lines its node prints at the current indentation and leaves the indentation as it found it |
| AstPrinter.Printer.PrintArgs | ast_printer.c:390-400 | the `args` handler appends exactly the lines its node prints at the current indentation and leaves the indentation as it found it |
| IrDumper.OprText | ir_dumper.c:12-18 | `dump_opr` writes a variable as `v` and its number and an immediate as `#` and its value, so the first character tells which it is |
| IrTypes.LabelText | ir_dumper.c:24-27 | a label is written `.L` followed by its number; mips.c:78-81 prints MIPS labels the same way |
| IrDumper.ArgWords | ir_dumper.c:104-110 | `dump_arg` recurses on the rest of the list before printing, so the k-th ARG line holds the k-th argument from the end |
| IrDumper.ParamWords | ir_dumper.c:29-35 | a function heading is followed by one PARAM line per parameter, in order |
| IrDumper.Listings | ir_dumper.c:138-140 | the dump visits, per graph, its reachability flag and its instruction list, graph by graph |
| IrDumper.IrDump | ir_dumper.c:142-152 | `ir_dump` succeeds exactly when no reachable graph holds a jump whose label is gone (the assertions of ir_dumper.c:77 and :87), and then writes the listing of every reachable graph in order |
| IrDumper.DumpGraph | ir_dumper.c:138-140 | a graph prints exactly when it is unreachable or printable; an unreachable graph prints nothing |
| IrDumper.DumpListing | ir_dumper.c:138-140 | visiting a graph's instructions one at a time succeeds exactly when every jump lands on a label, and then writes their listing |
| IrDumper.InstrText | ir_dumper.c:24-128 | one visit writes the lines of its instruction, each ended by a line break |
| IrDumper.CheckJump | ir_dumper.c:76-90 | the check a GOTO or IF makes before printing: true exactly when the jump's label is present |
| IrDumper.LandsStep | ir_dumper.c:76-90 | the jumps checked so far land, extended by one more that lands |
| IrDumper.ParseOprOf | ir_dumper.c:12-18 | an operand's text reads back as the operand |
| IrDumper.ParseVarOf | ir_dumper.c:118-121 | a `v<id>` word reads back as the variable |
| IrDumper.ParseLabelOf | ir_dumper.c:24-27 | a `.L<n>` word reads back as the label |
| IrDumper.ParseFuncLine | ir_dumper.c:29-35 | each line of a function heading and its PARAM lines reads back as its piece |
| IrDumper.ParseCallLine | ir_dumper.c:112-116 | each ARG line of a call and its CALL line reads back as its piece |
| IrDumper.ParseArgLine | ir_dumper.c:104-110 | an `ARG` line reads back as the argument |
| IrDumper.ParseCallToLine | ir_dumper.c:112-116 | a `v := CALL f` line reads back as the call's destination and callee |
| IrDumper.ParseLabelLine | ir_dumper.c:24-27 | a `LABEL .Ln :` line reads back as the label |
| IrDumper.ParseMovLine | ir_dumper.c:37-42 | a move line reads back as the move |
| IrDumper.ParseArthInstr | ir_dumper.c:44-57 | an arithmetic line reads back as the instruction, operator included |
| IrDumper.ParseAddrLine | ir_dumper.c:59-62 | an `&` line reads back as the address-of |
| IrDumper.ParseLoadLine | ir_dumper.c:64-67 | a `*` load line reads back as the load |
| IrDumper.ParseStoreLine | ir_dumper.c:69-74 | a `*v :=` store line reads back as the store |
| IrDumper.ParseGotoLine | ir_dumper.c:76-80 | a `GOTO` line reads back as the jump, its identity erased |
| IrDumper.ParseBranchInstr | ir_dumper.c:82-90 | an `IF … GOTO` line reads back as the branch, relational operator included, its identity erased |
| IrDumper.ParseRetLine | ir_dumper.c:92-97 | a `RETURN` line reads back as the return |
| IrDumper.ParseAllocLine | ir_dumper.c:99-102 | a `DEC` line reads back as the allocation and its size |
| IrDumper.ParseReadLine | ir_dumper.c:118-121 | a `READ` line reads back as the read |
| IrDumper.ParseWriteLine | ir_dumper.c:123-128 | a `WRITE` line reads back as the write |
| IrDumper.InstrReadsBack | ir_dumper.c:24-128 | the lines one visit writes hold no line break and read back as the instruction's pieces |
| IrDumper.ListingReadsBack | ir_dumper.c:138-140 | the listing of a whole instruction list reads back line by line as the pieces of its instructions |
| IrDumper.AssembleAll | ir_dumper.c:29-35 | the pieces, PARAM and ARG lines included, assemble back into the instruction list with nops dropped and jump identities zeroed |
| IrDumper.DumpRoundTrip | ir_dumper.c:24-128 | reading a graph's dump back gives its instructions, nops dropped and jump identities zeroed, when no function name holds a space or a line break |
| IrDumper.DumpIsListing | ir_dumper.c:142-152 | the whole file is the listing of the reachable graphs' code, one graph after the other |
| IrDumper.DumpTextRoundTrip | ir_dumper.c:142-152 | reading the whole file back gives the code of the reachable graphs, nops dropped and jump identities zeroed |
| AstPrinter.Spaces | ast_printer.c:10 | `PRINT_INDEX` writes exactly k spaces |
| AstPrinter.LineDecodes | ast_printer.c:10-13 | a printed line gives back its indentation and its word |
| AstPrinter.Unsigned | ast_printer.c:374-380 | `%u` shows the 32-bit pattern of the value: the value itself when it is in range, the value plus 2^32 when it is a negative 32-bit value |
| AstPrinter.TypeIndex | ast_printer.c:76 | a base type indexes the `int`/`float` name table within bounds |
| AstPrinter.Op2Index | ast_printer.c:309 | a binary operator indexes the eight-name token table within bounds |
| AstPrinter.Op1Index | ast_printer.c:328 | a unary operator indexes its token table within bounds |
| AstPrinter.Name | ast_printer.c:13 | the name each handler puts in its heading is one word with no parenthesis |
| AstPrinter.Parts | ast_printer.c:15-400 | each handler's steps visit only the node's own children and print only clean words |
| AstPrinter.HeaderOk | ast_printer.c:13 | a heading is one word-line holding the line number in parentheses |
| AstPrinter.Nested | ast_printer.c:15-400 | a visit at indentation k prints its heading at depth k and everything else at least two spaces deeper, every line an indentation and a word |
| AstPrinter.VisitLevel | ast_printer.c:15-400 | at its own depth a visit shows only the node's heading, and nothing for a null child |
| AstPrinter.Level | ast_printer.c:15-400 | one step under a node's heading the printer shows exactly the node's steps in order: each present child's heading and each word |
| AstPrinter.WordIffTail | ast_printer.c:61-71 | for a node made of a first child and an optional tail, the separating word shows under it exactly when the tail is present |
| AstPrinter.CommaIffTail | ast_printer.c:61-71 | ExtDecList, VarList, DecList and Args print COMMA under them exactly when the list goes on (also ast_printer.c:156-166, 281-291, 390-400) |
| AstPrinter.AssignIffInit | ast_printer.c:293-303 | a declaration prints ASSIGNOP under it exactly when it has an initialiser |
| AstPrinter.AstPrint | ast_printer.c:408-411 | `ast_print` starts at indentation 0 and prints the lines of the root |
| AstPrinter.Printer.constructor | ast_printer.c:409 | the printer starts at indentation 0 with nothing written |
| AstPrinter.Printer.PutLine | ast_printer.c:10-12 | a word goes out on a line of its own at the current indentation; the indentation stays |
| AstPrinter.Printer.Visit | ast_printer.c:404-406 | `ast_visit` prints nothing for a null child and otherwise the lines of the node's handler, restoring the indentation |
| IrEval.Val | ir.h:14 | a variable holds a C `int`; an unset one reads as 0 |
| IrEval.OprVal | ir.h:14-15 | a variable operand denotes the variable's value, an immediate its value as a C `int` |
| IrEval.ArthVal | ir.h:35 | an `ir_arth` computes in C `int`: the result always fits 32 bits (wrapped; division truncating toward zero, by zero left undefined at run time) |
| IrEval.Defs | ir_livevar.c:240-246 | a move, an arithmetic, an address-of and a load define exactly their left-hand side; a function heading defines its parameters, a call and a read their destination |
| IrEval.StepMov | ir.h:34 | a move changes only its destination, which takes the operand's value |
| IrEval.StepArth | ir.h:35 | an arithmetic changes only its destination, which takes the operation's C `int` value |
| IrEval.RefinesAtTrans | ir_hole.c:60-94 | an instruction that stands in for a second which stands in for a third stands in for the third, so rewrites chain |
| IrTypes.Code | type.h:12 | `+`, `-`, `*`, `/` are numbered 4 to 7 in the operator enum |
| IrTypes.RelopIndex | type.h:11 | there are six relations, numbered from 0 |
| IrTypes.CodeLowBits | ir.c:37-45 | the low two bits of an operator's enum value number `+`, `-`, `*`, `/` from 0 |
| IrTypes.BaseCommutes | ir.c:37-45 | for `+` and `*` the hash of the operands does not depend on their order |
| IrTypes.CodesDiffer | ir.c:37-45 | different operators put different values in the low two bits of the hash |
| IrTypes.Canon | ir.c:28-35 | the canonical form of an expression is one same_ir_arth calls equal to it, with the same operator |
| IrTypes.OprVars | ir.h:14-15 | a variable operand mentions exactly its variable and an immediate none |
| Base.Wrap32Congruent | mips.c:85-86 | integers congruent modulo 2^32 wrap to the same C `int` |
| Base.Wrap32Negate | ir_constant.c:319-323 | subtracting a wrapped value is adding its wrapped negation |
| Base.NatToString | ir_dumper.c:12-18 | `%d` of a natural number is a non-empty run of decimal digits |
| Base.IntToString | ir_dumper.c:12-18 | `%d` of an integer starts with a minus sign exactly when it is negative |
| Base.NatToStringRoundTrip | ir_dumper.c:12-18 | the digits of a natural number read back as the number |
| Base.Text | ir_dumper.c:24-128 | every line printed ends in a line break |
| Base.TextAppend | ir_dumper.c:138-152 | writing two runs of lines one after the other writes their concatenation |
| Base.IndexOf | ir_dumper.c:12-18 | the first position of a character, or its absence |
| Base.Split | ir_dumper.c:44-57 | splitting a line at a separator gives at least one word |
| Base.JoinAvoids | ir_dumper.c:44-57 | a character in no word and not the separator is not in the joined line |
| Reach.MarkOne | ir.c:275-276 | marking an unmarked block lowers the number of unmarked blocks by one, so the search ends |
| Reach.MarkStep | ir.c:273-280 | marking a successor of a marked block keeps every mark witnessed by a path from the root |
| Reach.ExpandMark | ir.c:275-279 | marking the next unmarked successor, queued unless it is the exit, moves the expansion on by one |
| Reach.ExpandSkip | ir.c:275 | an already marked successor is passed over |
| Reach.ExpandDone | ir.c:273-281 | once every successor of the popped block is marked, the block counts as expanded |
| Reach.Visit | ir.c:275-280 | marks the j-th successor of the popped block and queues it unless it is the exit |
| Reach.SearchStart | ir.c:266-267 | the search starts with only the entry marked and the entry queued |
| Sweep.FitsTrans | ir.c:355-362 | two rewrites of one position in a row fit as one |
| Sweep.AllFitRelates | ir.c:355-362 | a list that fits the original position by position keeps the graph ready |
| Sweep.SweptBlocksStep | ir.c:357-360 | rewriting reachable block i extends the sweep by one block |
| Sweep.SweptBlocksSkip | ir.c:359 | an unreachable block is passed over |
| Sweep.UnsweptNoLabel | ir.c:355-362 | a block not yet swept still holds no label inside it |
| Sweep.SweepNext | ir.c:357-360 | one turn of the block loop: block i is rewritten when reachable, the bookkeeping is kept, and the flag tracks whether the list changed |
| Dataflow.LinkedFlip | ir.c:364-412 | read backwards, the in- and out-edge lists are linked the same way, so the backward analyses run on the same loop |
| Dataflow.SeedForward | ir.c:373-378 | a forward analysis queues the reachable blocks in block order |
| Dataflow.SeedBackward | ir.c:379-384 | a backward analysis queues the reachable blocks in reverse block order |
| Dataflow.AbsorbStep | ir.c:397-401 | one more meet keeps every earlier neighbour absorbed and absorbs the new one |
| Dataflow.SkipKeeps | ir.c:385-411 | a block `skip` holds for goes back into the queue and no other block's equation is disturbed |
| ConstantPass.Enc | ir_constant.c:8-13 | a lattice value packs into one 64-bit word |
| ConstantPass.CanonicalExt | container.c:155-169 | two maps without UNDEF entries are equal exactly when they agree on every variable |
| ConstantPass.Calc | ir_constant.c:111-141 | calc_constant of well-formed values is well formed |
| ConstantPass.PutAll | ir_constant.c:174-179 | every parameter of a function heading gets NAC, and every other variable keeps its fact |
| ConstantPass.ArthTransferSound | ir_constant.c:186-197 | after an arithmetic, the fact recorded for its destination is true of the value it holds |
| ConstantPass.TransferSeq | ir_constant.c:250-261 | the transfer of a block keeps the map free of UNDEF entries |
| ConstantPass.TransferSeqFront | ir_constant.c:250-261 | a block's transfer is its first instruction's transfer followed by the rest's |
| ConstantPass.FoldArth | ir_constant.c:294-348 | folding an arithmetic leaves a move, an arithmetic or a nop |
| ConstantPass.FoldDestSound | ir_constant.c:294-300 | after the arithmetic the destination's fact is a constant its value equals, or NAC |
| ConstantPass.MinusImmSound | ir_constant.c:319-323 | subtracting an immediate k has the outcome of adding the immediate -k, in 32-bit arithmetic |
| ConstantPass.FoldOprs | ir_constant.c:412-416 | each argument of a call goes through to_constant, in order |
| ConstantPass.FoldOneSound | ir_constant.c:294-425 | a move, store, return or write whose operand is folded can stand in for the original |
| ConstantPass.FoldArthRefines | ir_constant.c:294-348 | a folded arithmetic can stand in for the original |
| ConstantPass.FoldAt | ir_constant.c:294-425 | a replacement keeps the instruction's shape and never makes a label out of a non-label |
| ConstantPass.InAtStep | ir_constant.c:426-437 | the in-map at position p + 1 is the transfer of position p's in-map through position p |
| ConstantPass.FoldingStart | ir_constant.c:426-437 | before the first position nothing is folded and the in-map is the block's |
| ConstantPass.FoldBlockStep | ir_constant.c:426-437 | folding position p moves the block fold on by one and raises the flag when p raised it |
| ConstantPass.RaisesStep | ir_constant.c:426-437 | the flag after position p is raised exactly when it was before or position p raised it |
| ConstantPass.BlockAgree | ir_constant.c:426-437 | two lists that agree on a block fold it alike |
| ConstantPass.FoldCfgStep | ir.c:355-362 | folding reachable block i extends what is folded and keeps the rest as it was |
| ConstantPass.AnyRaisesStep | ir.c:355-362 | the flag after block i is raised exactly when it was before or reachable block i raised it |
| ConstantPass.SkipBlockStep | ir.c:359 | an unreachable block is passed over by the fold |
| ConstantPass.IntactNoLabel | ir.c:355-362 | a block not yet folded holds no label |
| ConstantPass.AllAnalysedAt | ir_constant.c:443-451 | after the loop, every reachable function is analysed and folded and an unreachable one raises no flag |
| ConstantPass.AllAnalysedSnoc | ir_constant.c:443-451 | one more turn of the loop extends what is analysed by one function |
| ConstantPass.ConstantOne | ir_constant.c:444-450 | one turn of the loop: a reachable function is analysed, folded under the solution when its driver drains, and rebuilt; an unreachable one is skipped and raises no flag |
| ConstantPass.ConstantCfgs | ir_constant.c:443-451 | every function is analysed and folded when reachable; the returned flag is raised exactly when some function raised it |
| ConstantPass.ConstantFuncs | ir_constant.c:439-452 | the loop of `ir_constant` keeps the program ready, relates each function's new code to the old, and returns exactly the flags of the functions |
| AvexprPass.CanonHeld | ir.c:28-35 | an expression and its canonical form are held by the same variables |
| AvexprPass.PutHolds | ir_avexpr.c:74-118 | recording an entry that is true keeps the whole map true |
| AvexprPass.OprKept | ir_avexpr.c:120-131 | an operand that is not redefined keeps its value |
| AvexprPass.HeldKept | ir_avexpr.c:120-131 | an entry none of whose variables is redefined stays true |
| AvexprPass.KeptHolds | ir_avexpr.c:143-228 | a true map stays true in any store that agrees on every variable |
| AvexprPass.Chain | ir_avexpr.c:81-86 | the walk along the recorded copies takes at most its fuel in steps |
| AvexprPass.PutAllHolds | ir_avexpr.c:74-118 | recording a run of true entries keeps the map true |
| AvexprPass.Avail2Sound | ir_avexpr.c:234-247 | what the lookup through the copies of the second operand finds holds the expression's value |
| AvexprPass.AvailFromSound | ir_avexpr.c:249-262 | what the lookup through the copies of the first operand finds holds the expression's value |
| AvexprPass.ChainEndSound | ir_avexpr.c:290-294 | in a true map the end of a variable's chain of copies holds the variable's value |
| AvexprPass.FoldOpr | ir_avexpr.c:285-299 | reverse_fold keeps an immediate an immediate and a variable a variable |
| AvexprPass.FoldOprs | ir_avexpr.c:369-375 | the arguments of a call are folded one for one |
| AvexprPass.OtherFoldRefines | ir_avexpr.c:306-383 | a folded instruction that is not a move, an arithmetic or a call can stand in for the original |
| AvexprPass.OutFoldRefines | ir_avexpr.c:360-385 | a return or a write of a folded operand that keeps its value can stand in for the original |
| AvexprPass.StoreFoldRefines | ir_avexpr.c:343-349 | a folded store can stand in for the original |
| AvexprPass.ArthFoldRefines | ir_avexpr.c:327-332 | a folded arithmetic can stand in for the original |
| AvexprPass.MovFoldRefines | ir_avexpr.c:318-326 | a folded move can stand in for the original |
| AvexprPass.CallFoldRefines | ir_avexpr.c:369-375 | a call with folded arguments can stand in for the original |
| AvexprPass.ElimFits | ir_avexpr.c:264-283 | elimination only ever puts an instruction of a fitting shape in place |
| AvexprPass.FoldFits | ir_avexpr.c:306-383 | folding only ever puts an instruction of a fitting shape in place |
| AvexprPass.FoldKeepsElim | ir_avexpr.c:410-412 | when elimination changed the list, the list after folding still differs from the original |
| AvexprPass.AvexprOne | ir_avexpr.c:406-413 | one turn of the loop: a reachable function is Eliminated (rewritten under the solution when its driver drained, untouched otherwise); an unreachable one keeps its code; the flag is raised exactly when its code changed |
| AvexprPass.AvexprCfgs | ir_avexpr.c:405-414 | the loop over the functions: AllEliminated holds of the final code, and the flag is raised exactly when some function's code changed |
| AvexprPass.AvexprNext | ir_avexpr.c:406-413 | turn i of the loop rewrites function i and extends AllEliminated by its outcome |
| AvexprPass.AllEliminatedAt | ir_avexpr.c:405-414 | the per-function outcome read back at function i: Eliminated when reachable, untouched code otherwise |
| AvexprPass.AllEliminatedSnoc | ir_avexpr.c:405-414 | appending one function's outcome extends AllEliminated by one |
| ArthprogPass.MakeIviUses | ir_arthprog.c:33-37 | an affine word `mul * v + add` mentions no variable but v |
| ArthprogPass.DenotesKept | ir_arthprog.c:232-245 | a word that mentions none of the redefined variables keeps its value |
| ArthprogPass.HoldsMinus | ir_arthprog.c:232-245 | dropping facts from a true map leaves a true map |
| ArthprogPass.KillHolds | ir_arthprog.c:232-245 | after the destination changes, the map with its facts killed and its own true fact kept stays true |
| ArthprogPass.KeptHolds | ir_arthprog.c:257-330 | a true map stays true in any store that agrees on every variable |
| ArthprogPass.IviIrSound | ir_arthprog.c:593-610 | each affine case of cval2ir sets the destination to `mul * v + add` in 32-bit arithmetic |
| ArthprogPass.TwiceStep | ir_arthprog.c:597-598 | `v + v` computes `2 * v` |
| ArthprogPass.TimesStep | ir_arthprog.c:599-602 | `v * k` computes `k * v` |
| ArthprogPass.MovOutSound | ir_arthprog.c:269-273 | the fact a move records for its destination is the value it moves |
| ArthprogPass.SimpMov | ir_arthprog.c:632-648 | a simplified move is a nop, or a move or an arithmetic into the same destination |
| ArthprogPass.SimpArth | ir_arthprog.c:650-663 | a simplified arithmetic is a nop, or a move or an arithmetic into the same destination |
| ArthprogPass.Difference | ir_arthprog.c:690-693 | a difference is only ever looked for between two variables whose `v1 - v2` word can be packed |
| ArthprogPass.FoldArgs | ir_arthprog.c:711-716 | each argument of a call goes through try_fold, in order |
| ArthprogPass.ArthRebuiltSound | ir_arthprog.c:650-663 | the arithmetic rebuilt from its folded word can stand in for it |
| ArthprogPass.ArthOperandsSound | ir_arthprog.c:650-663 | the arithmetic with its operands folded can stand in for it |
| ArthprogPass.Wrap32DiffZero | ir_arthprog.c:686-700 | two C `int`s are equal exactly when their wrapped difference is 0, so `==` and `!=` may compare the difference with 0 |
| ArthprogPass.PlainFits | ir_arthprog.c:620-725 | any straight-line instruction other than a call may be replaced by a nop, move, arithmetic, load, store or write |
| ArthprogPass.ExampleFacts | ir_arthprog.c:165-168 | after `v1 := v2 + 5` the map records `1 * v2 + 5` for v1 |
| ArthprogPass.ExampleOperandsStay | ir_arthprog.c:561-575 | try_fold on that map leaves v1 and v2 as they are |
| ArthprogPass.ExampleDifference | ir_arthprog.c:690-693 | fold_to on that map finds that `v1 - v2` is the constant 5 |
| ArthprogPass.ExampleHolds | ir_arthprog.c:165-168 | the fact about v1 is true where v2 is 2147483645 and v1 is v2 + 5 wrapped |
| ArthprogPass.ExampleBranch | ir_arthprog.c:686-700 | on that map the branch as written becomes `if #5 < #0` |
| ArthprogPass.SimpRewriteFits | ir_arthprog.c:733-744 | simplification only ever puts an instruction of a fitting shape in place |
| ArthprogPass.AllSimplifiedAt | ir_arthprog.c:750-758 | after the loop every reachable function is analysed and simplified, and an unreachable one is left alone with no flag |
| ArthprogPass.AllSimplifiedSnoc | ir_arthprog.c:750-758 | one more turn of the loop extends what is simplified by one function |
| ArthprogPass.ArthprogOne | ir_arthprog.c:751-757 | one turn of the loop: a reachable function is analysed, simplified under the solution when its driver drains, and rebuilt; an unreachable one is skipped and raises no flag |
| ArthprogPass.ArthprogNext | ir_arthprog.c:750-758 | turn i of the loop simplifies function i and appends its flag |
| ArthprogPass.ArthprogCfgs | ir_arthprog.c:750-758 | every reachable function is simplified and rebuilt; the returned flag is raised exactly when some function raised it |
| ArthFold.Denotes | ir_arthprog.c:66-82 | what a fact word stands for in a store is a C `int` |
| ArthFold.FoldV2vFrom | ir_arthprog.c:352-366 | the walk of fold_v2v from `mul * from + imm` gives NULL or a word that decodes as an affine fact |
| ArthFold.FoldV2v | ir_arthprog.c:352-366 | fold_v2v gives NULL or a word that decodes as an affine fact |
| ArthFold.IviFact | ir_arthprog.c:228-245 | an affine fact in a true map gives its variable's value as `mul * v + add` modulo 2^32 |
| ArthFold.V2vUnfold | ir_arthprog.c:355-364 | one step of the fold_v2v loop replaces `from` by the variable of its fact and rescales the multiplier and the constant in 32-bit arithmetic |
| ArthFold.FoldV2vFromSound | ir_arthprog.c:352-366 | every step of the walk keeps `mul * from + imm` the same C `int`, so the word it ends with states `from` in terms of `to` |
| ArthFold.InitSound | ir_arthprog.c:368-379 | the term fold_to starts from has the value the original word stands for |
| ArthFold.VvSplitSound | ir_arthprog.c:388-425 | splitting side i through a `v1 op v2` fact, the other side empty, keeps the term's value |
| ArthFold.VvFoldFirstCore | ir_arthprog.c:388-425 | folding the first operand of a `v1 op v2` fact into the other side keeps the term's value |
| ArthFold.VvFoldSecondCore | ir_arthprog.c:388-425 | folding the second operand of a `v1 op v2` fact into the other side keeps the term's value |
| ArthFold.VvStepSplit | ir_arthprog.c:388-425 | at tier 3 against an empty other side the vv step splits side i into the fact's two operands |
| ArthFold.VvStepFirst | ir_arthprog.c:388-425 | when the first operand folds and the result is accepted, the vv step gives that fold |
| ArthFold.VvStepSecond | ir_arthprog.c:388-425 | otherwise, when the second operand folds, the vv step gives that fold |
| ArthFold.VvStepFirstSound | ir_arthprog.c:388-425 | the first-operand fold of a vv step keeps the term's value |
| ArthFold.VvStepSecondSound | ir_arthprog.c:388-425 | the second-operand fold of a vv step keeps the term's value |
| ArthFold.IviMergeSound | ir_arthprog.c:426-470 | an affine fact relating side i to the other side's variable merges side i into it and keeps the term's value |
| ArthFold.IviSubstSound | ir_arthprog.c:426-470 | an affine fact about side i's variable substituted into side i keeps the term's value |
| ArthFold.TierAtSound | ir_arthprog.c:380-518 | every rewrite a tier finds keeps the term's value modulo 2^32 |
| ArthFold.ShapeOf | ir_arthprog.c:520-543 | a two-variable shape written back uses only `+` or `-` |
| ArthFold.ShapeOperand | ir_arthprog.c:520-543 | at level 0 only a constant or a single variable has a shape |
| ArthFold.Commit | ir_arthprog.c:520-543 | a shape that fits is written back as a word other than NULL |
| ArthFold.FoldLoop | ir_arthprog.c:380-545 | once the loop holds a word it never returns NULL |
| ArthFold.FoldLoopUnfold | ir_arthprog.c:380-545 | one round of the loop: the search finds a rewrite and the loop goes on from it |
| ArthFold.FoldLoopSound | ir_arthprog.c:380-545 | every word the loop keeps stands for the original value |
| ArthFold.FoldLoopAvoids | ir_arthprog.c:380-545 | a word the loop keeps, other than the one it started with, does not use the destination |
| ArthFold.FoldLoopOperand | ir_arthprog.c:380-545 | at level 0 a word the loop keeps, other than the one it started with, is a constant or a variable |
| ArthCval.Field | ir_arthprog.c:17-31 | storing into an unsigned bit field gives a value below the field's size |
| ArthCval.Sign16Field | ir_arthprog.c:67 | a multiplier in the signed 16-bit range reads back from its field unchanged |
| ArthCval.Wrap32Field | ir_arthprog.c:68 | the 32-bit constant field read back as an `int` is the constant wrapped to 32 bits |
| Semantics.Frame.constructor | semantics.c:11 | a new frame has the given parent, no variables and size 0 |
| Semantics.Var.constructor | semantics.c:13-17 | a variable is made with its name and type, its offset set when it is added |
| Semantics.StructDef.constructor | semantics.c:74-76 | a struct definition holds its optional name and its frame of fields |
| Semantics.StructTable.constructor | semantics.c:68 | the struct list starts empty |
| LivevarCoalesce.CoalesceUnfold | ir_livevar.c:259-263 | the walk stops for good when only nops follow position i, and otherwise tries the pair of i and the next non-nop j and goes on at i - 1 |
| LivevarCoalesce.SimRun | ir_livevar.c:256-285 | a run of the old block carries over to a run of the coalesced block that agrees on every live variable that is not an array |
| LivevarCoalesce.ElimKeepsLive | ir_livevar.c:234-254 | elimination leaves each instruction's live-in set as it was |
| LivevarCoalesce.KillDef | ir_livevar.c:268-276 | an instruction of the kinds the walk renames kills exactly the variable it defines |
| LivevarCoalesce.RenamedSelf | ir_livevar.c:279 | renaming a definition into its own variable changes nothing |
| LivevarCoalesce.LiveInKeeps | ir_livevar.c:105-195 | what is live after an instruction, minus what it kills, is live before it |
| LivevarCoalesce.LiveSoundNops | ir_livevar.c:260-262 | nops in front of a list need what the list needs |
| Container.Fill | container.c:52-58 | memset with 0 or 0xff gives a word whose every bit is that value |
| Container.WordAnd | container.c:65-70 | bitwise and on words sets a bit exactly when both words set it |
| Container.WordOr | container.c:72-77 | bitwise or on words sets a bit exactly when either word sets it |
| Container.SplitIndex | container.c:37-45 | bit n lives in word n / 64 at position n % 64, and two bits share both exactly when they are the same bit |
| Container.DistinctTail | container.c:113-118 | popping the head of a duplicate-free queue removes exactly that id |
| Container.Below | container.c:95-99 | the ids a worklist for n can hold are exactly the n ids below n |
| Container.RingSlotsDiffer | container.c:101-118 | distinct offsets below the capacity land on distinct slots of the ring |
| Container.Worklist.Full | container.c:101-107 | the test worklist_add asserts against: the queue holds as many ids as there are |
| Container.AsMapKeys | container.c:132-140 | a key is bound exactly when some node of the list holds it |
| Container.AsMapAt | container.c:132-140 | the node holding a key holds its bound value |
| Container.AsMapUpdate | container.c:155-169 | overwriting a node's value rebinds exactly that key |
| Container.AsMapDelete | container.c:177-184 | unlinking a node unbinds exactly its key |
| Container.AsMapSize | container.c:155-169 | a list with distinct keys binds as many keys as it has nodes |
| Container.AsMapSnoc | container.c:155-169 | a node with a new key adds exactly that binding |
| Container.FilterMapStep | container.c:186-197 | removeif on a map with one more binding keeps it exactly when the condition rejects it |
| Container.FirstPassStep | container.c:204-219 | the first pass of map_combine recombines each dst key with src's binding for it |
| Container.SecondPassStep | container.c:204-219 | the second pass of map_combine adds each src key that dst lacks, when the combination keeps it |
| Container.AssocMap.constructor | container.c:123-129 | a new map is empty |
| CfgBuild.NewLabelFresh | ir.c:230-235 | a label opening the next block is not yet in the label-to-block map, so each label is placed once |
| CfgBuild.CloseSound | ir.c:204-211 | appending a block that holds no label and ends only at its last instruction keeps the blocks sound |
| CfgBuild.CloseMaximal | ir.c:204-211 | appending such a block keeps every block maximal |
| CfgBuild.CloseGaps | ir.c:204-211 | after closing a block, every position between blocks up to its end is a label |
| CfgBuild.CloseLabels | ir.c:204-211 | add_bb records the opening label of the new block and keeps every other label's block |
| CfgBuild.AppendLabelBlock | ir.c:208-210 | a block opened by a new label joins the map under its own number |
| CfgBuild.CloseBlock | ir.c:204-211 | closing the block in progress keeps the partition, now up to its end |
| CfgBuild.OpenAfterLabel | ir.c:230-235 | the label at j opens the block in progress, starting just after it |
| CfgBuild.ScanExit | ir.c:239-249 | the exit block, empty at the end of the list, completes the partition and takes the pending label |
| CfgBuild.ExitLabelOk | ir.c:246-248 | a label still pending at the end points at the exit block |
| CfgBuild.ScanAll | ir.c:217-238 | the loop of build_bb over the whole list keeps the scan invariant |
| CfgBuild.ScanStep | ir.c:218-237 | one turn of the loop keeps the scan invariant one position further |
| CfgBuild.CloseAfter | ir.c:221-228 | a goto, branch or return ends the open block just after itself and no block is then open |
| CfgBuild.OpenAt | ir.c:229-234 | a label ends a non-empty open block just before itself and opens its own |
| CfgBuild.CoveredFrom | ir.c:213-249 | a position that is not a label lies in some block |
| CfgBuild.LinkStep | ir.c:313-340 | linking block i adds its successors to its out-list and itself to their in-lists |
| CfgBuild.NopsKeepSound | ir.c:286-292 | turning instructions into nops keeps the blocks sound |
| CfgBuild.NopBlock | ir.c:286-294 | an unreachable block's instructions become nops, its final jump released, and the graph shape and other bookkeeping stay |
| CfgBuild.ReleaseNopped | ir.c:290-291 | releasing the jump at p and emptying p changes only p and the labels |
| CfgBuild.NoppedTwice | ir.c:286-294 | emptying the body and then the last position empties the whole block |
| CfgBuild.PruneStep | ir.c:283-302 | emptying block i when unmarked, or keeping it, extends the pruned prefix |
| CfgBuild.ShapeKeptReady | ir.c:305-343 | rewrites that keep every instruction's shape keep what build_cfg needs |
| CfgBuild.PartitionReady | ir.c:305-343 | a partition from build_bb gives build_cfg every jump target block it needs |
| CfgBuild.CallGraph | ir.c:183-199 | function i's successors in the call graph are exactly the functions it calls |
| CfgBuild.SetReachable | ir.c:167-202 | each function's reachability flag is set to its mark and nothing else about it changes |
| IrProgram.FindJump | ir.c:93-120 | the position of the jump with a given identity, or none exactly when no jump has it |
| IrProgram.JumpsToUpdate | ir.c:93-120 | replacing position p changes the jumps to a label only at p |
| IrProgram.NopsKeepLabelsOk | ir.c:105-120 | turning instructions into nops, with each label's count still covering its jumps, keeps the label protocol |
| IrProgram.ReleaseRefs | ir.c:105-120 | once the jump at p is gone, the count its label loses still covers the jumps left |
| IrProgram.PlaceJumpRefs | ir.c:93-103 | the counts still cover the jumps once a new jump is registered on its label |
| IrProgram.NopCovered | ir.c:119 | turning a position into a nop never adds a jump to any label |
| IrProgram.SameTargetCovered | ir.c:93-103 | a jump replaced by one to the same label keeps the counts covering the jumps |
| IrProgram.RetargetJids | ir.c:93-103 | pointing a jump at another label keeps jump identities unique |
| IrProgram.RetargetRecorded | ir.c:93-103 | a retargeted jump is recorded in the in-list of its new label |
| IrProgram.RetargetCovered | ir.c:93-103 | a retargeted jump is covered by its new label's count |
| IrProgram.ReplacePlainKeepsLabelsOk | ir.c:93-120 | replacing a non-jump, non-label instruction by another keeps the label protocol |
| IrProgram.ReplaceSameJumpKeepsLabelsOk | ir.c:93-120 | replacing a jump by one with the same identity and label keeps the label protocol |
| IrProgram.ReplaceSameJumpJids | ir.c:93-120 | such a replacement keeps jump identities and placed labels unique |
| IrProgram.ReplaceSameJumpRecorded | ir.c:93-120 | such a replacement keeps every jump recorded on its label and every label known |
| IrProgram.AppendPlainKeepsLabelsOk | ir.c:137-138 | appending an instruction that is neither a jump nor a label keeps the label protocol |
| IrProgram.AppendLabelUnique | ir.c:137-138 | a label not yet placed can be placed once |
| IrProgram.AppendLabelJumps | ir.c:137-138 | placing a known label adds no jump and keeps every label known |
| IrProgram.AppendLabelRefs | ir.c:137-138 | placing a label keeps the counts covering the jumps |
| IrProgram.Cfg.NewJid | ir.c:93-103 | a new jump takes the next identity and nothing else changes |
| IrProgram.Cfg.ReleaseJump | ir.c:105-118 | the jump's label loses one reference, and becomes a nop when none is left |
| IrProgram.Cfg.Append | ir.c:137-138 | list_append of an instruction that is not a jump: the list grows by it and the bookkeeping stays |
| IrProgram.Cfg.AppendArth | ir.c:122-131 | split_ir_arth appends `t := a op b; lhs := t` and records the expression under t |
| IrProgram.Cfg.RecordExpr | ir.c:124-127 | hmap_put on the expression map binds the expression to the temporary and changes nothing else |
| IrProgram.Cfg.AddLabel | ir.c:89-91 | a fresh label starts with no references and an empty in-list |
| IrProgram.Cfg.ReplacePlain | ir.c:93-120 | a non-jump instruction is replaced in place and the bookkeeping stays |
| IrProgram.Cfg.ReplaceJump | ir.c:93-120 | a jump's operands or relation change in place, keeping its identity and label |
| IrProgram.Cfg.PlaceJump | ir.c:93-103 | a new jump takes the next identity and is registered on its label |
| Passes.RelateThenNops | ir.c:283-302 | a rewrite that keeps every instruction's shape, followed by emptying unreachable blocks, still keeps every shape |
| Passes.RelateReady | ir.c:305-343 | a list related to one build_cfg accepted keeps every jump landing on a block, so build_cfg can run again |
| Passes.CallsStayKnown | ir.c:191-194 | calls that stay calls of the same function stay known to the function table, so the assertion on the callee holds |
| Passes.StillReady | ir_constant.c:439-452 | after a pass's loop the program is ready again and each function's code relates to what it was |
| Passes.RewrittenRelates | ir.c:355-362 | each rewritten list relates to its snapshot position by position |
| Passes.DiffersAll | ir_avexpr.c:402-415 | the lists differ below their end exactly when they differ, so the flag tracks any change |
| LowerFlow.JumpPrefix | ast_ir.c:167-200 | a jump out of a prefix runs on into the code appended after it exactly as the prefix's own run says |
| LowerFlow.JumpSuffix | ast_ir.c:167-200 | a jump inside appended code lands where it lands in that code alone, when the prefix places none of its targets |
| LowerFlow.LeafVal | ast_ir.c:456-479 | an identifier or integer literal operand evaluates to a 32-bit C int |
| LowerFlow.Frag | ir.c:133-144 | the instructions appended between two states are exactly the difference of their lists |
| LowerFlow.Apart | ast_ir.c:315-344 | code whose labels lie in a range above the targets of a branch cannot be entered by that branch |
| LowerFlow.Joined | ast_ir.c:315-334 | the code around a label placed between two emissions is the first fragment, the label, then the second |
| LowerFlow.PairFlow | ast_ir.c:335-344 | the conditional jump and goto emitted for a comparison leave to the true label when it holds and to the false label otherwise |
| LowerFlow.JoinShape | ast_ir.c:315-334 | the code of the logical and and or operators places labels only in its own range and jumps only to its two targets |
| LowerFlow.Outside | ast_ir.c:315-344 | a label below the range a fragment places is not placed by it |
| LowerFlow.FlagTail | ast_ir.c:263-277 | the tail of the value-from-condition lowering sets the temporary to 1 from the true label and to 0 from the false label |
| LowerFlow.FindAt | ast_ir.c:167-200 | the first position of a label is where the code places it first |
| LowerFlow.FirstAfter | ast_ir.c:167-200 | a label that a prefix does not place is found right after that prefix |
| LowerFlow.EnterAt | ast_ir.c:167-176 | a condition that jumps to a label continues at the instruction after that label |
| LowerFlow.ResumeTo | ast_ir.c:167-200 | resuming a jump to a label in the appended code continues after that label |
| LowerFlow.IfCode | ast_ir.c:167-176 | the code of an if statement is the condition, the true label, the body and the false label |
| LowerFlow.IfElseCode | ast_ir.c:177-189 | the code of an if-else is condition, true label, then branch, goto end, false label, else branch, end label |
| LowerFlow.ThreeLabels | ast_ir.c:178 | the three labels taken first are fresh consecutive numbers, declared, and nothing is emitted |
| LowerFlow.JumpOver | ast_ir.c:182-183 | the goto to the end label and the false label are appended after the then branch |
| LowerFlow.IfElseUnfold | ast_ir.c:177-189 | the lowering of an if-else is the composition of the lowerings of its parts in emission order |
| LowerFlow.IfElseRuns | ast_ir.c:177-189 | a true condition enters the then branch, a false one the else branch, and the then branch leaves through the end label |
| LowerFlow.GotoEnd | ast_ir.c:183 | the goto ending the then branch falls out of the whole statement |
| LowerFlow.WhileCode | ast_ir.c:190-200 | the code of a while loop is condition, body label, body, condition again, end label |
| LowerFlow.RunTwo | ir.c:133-144 | running two instructions is running the first and then the second from the state it leaves |
| AstIr.Fail | ast_ir.c:263-264 | a failed assertion of the lowering leaves the emitted code and the counters as they were and marks the state failed |
| AstIr.Atom | ast_ir.c:11-20 | turning an operand into an atom only appends code, keeps every declared label and never moves a counter back |
| AstIr.V2B | ast_ir.c:263-277 | the value of a condition only appends code, keeps declared labels and counters never go back |
| AstIr.Materialize | ast_ir.c:270-276 | the 1/0 tail of the value-from-condition lowering only appends code |
| AstIr.B2V | ast_ir.c:278-286 | a value used as a condition only appends code and keeps declared labels |
| AstIr.MovV | ast_ir.c:287-305 | an assignment only appends code and keeps declared labels |
| AstIr.ArthV | ast_ir.c:306-314 | an arithmetic expression only appends code and keeps declared labels |
| AstIr.MinusV | ast_ir.c:369-376 | a negation only appends code and keeps declared labels |
| AstIr.CallV | ast_ir.c:400-420 | a call only appends code and keeps declared labels |
| AstIr.ArgsV | ast_ir.c:484-491 | the argument list only appends code and keeps declared labels |
| AstIr.ArrayV | ast_ir.c:421-438 | an array access only appends code and keeps declared labels |
| AstIr.DotV | ast_ir.c:439-455 | a field access only appends code and keeps declared labels |
| AstIr.IdV | ast_ir.c:456-472 | an identifier only appends code and keeps declared labels |
| AstIr.AndB | ast_ir.c:315-324 | the jumps of `&&` only append code and keep declared labels |
| AstIr.OrB | ast_ir.c:325-334 | the jumps of a logical or only append code and keep declared labels |
| AstIr.RelopB | ast_ir.c:335-344 | the jumps of a comparison only append code and keep declared labels |
| AstIr.NotB | ast_ir.c:377-385 | the jumps of `!` only append code and keep declared labels |
| AstIr.RoundsFrom | ast_ir.c:224 | the loop of copy_ref entered at word j runs the remaining ceil(size/4) - j rounds |
| AstIr.CopyAtPrefix | ast_ir.c:224-235 | code appended after a copy step keeps that step in place |
| AstIr.CopiedMore | ast_ir.c:224-235 | k copy steps followed by one more step at offset 4k are k + 1 steps |
| AstIr.StepHalves | ast_ir.c:225-234 | one round of copy_ref is its load half followed by its store half, on three fresh temporaries |
| AstIr.StepJoin | ast_ir.c:228-234 | a load half at an offset followed by the store half at the same offset makes one copy step |
| AstIr.CopiedOnto | ast_ir.c:224-235 | after k steps, the two halves of the next round make k + 1 steps |
| AstIr.StepOnto | ast_ir.c:224-235 | a round after the first k only appends code and makes k + 1 copy steps |
| AstIr.CopyNMore | ast_ir.c:224-235 | k rounds followed by the round at offset 4k are the first k + 1 rounds |
| AstIr.DecS | ast_ir.c:237-262 | a declaration only appends code and keeps declared labels |
| AstIr.BlockDecS | ast_ir.c:241-254 | an array or struct declaration only appends code (its block, the address, the copied initialiser) and keeps declared labels |
| AstIr.RetS | ast_ir.c:161-165 | a return only appends code and keeps declared labels |
| AstIr.IfS | ast_ir.c:167-176 | an if statement only appends code and keeps declared labels |
| AstIr.IfElseS | ast_ir.c:177-189 | an if-else only appends code and keeps declared labels |
| AstIr.ElseS | ast_ir.c:184-187 | the end of an if-else only appends code and keeps declared labels |
| AstIr.WhileS | ast_ir.c:190-200 | a while loop only appends code and keeps declared labels |
| AstIr.S | ast_ir.c:139-200 | lowering any statement only appends code, keeps declared labels and never moves a counter back |
| AstIr.Lowerer.CopyNext | ast_ir.c:224-235 | one round of the copy loop at offset 4k takes the object from the first k rounds to the first k + 1 |
| AstIr.Lowerer.Else | ast_ir.c:183-187 | the goto, the false label, the else branch and the end label leave the object in the state ElseS gives |

Every pass method in the table runs the corrected members of "## Findings":
`AvexprPass.AvexprCfg` uses `AvexprPass.Transfer`, `ArthprogPass.Simp` uses
`ArthprogPass.SimpBranch`, and `ArthCval.MakeIvi` and `ArthCval.MakeVv` refuse variable
id 32768. The code as written is modelled beside each of them.

## Left out

- Dataflow.IterCfg: `ir_iter_cfg` (ir.c:364-412) loops until its worklist is empty. The model adds a `fuel` bound and reports `done` only when the worklist drained within it. No lemma shows that some fuel reaches `done`. Every graph-level result of the four passes (their `Solution`s and the soundness of their rewrites) is therefore promised only on the runs where the driver drained. On the other runs nothing is rewritten and `opt` is false.
- Dataflow.IterCfg: the C asserts that the worklist is not full in `worklist_add` (container.c:102). The model checks `Full()` first and stops with `done == false`, where the C would abort.
- HolePass.HoleArth: folding two immediates uses 32-bit wrap-around and truncating division for every pair, including INT_MIN / -1, which is undefined behaviour in the C host (a trap on x86). The model gives it the wrapped value.
- ConstantPass.Calc: the same for `calc_constant` (ir_constant.c:111-141): INT_MIN / -1 folds to the wrapped value instead of being undefined.
- IrEval.ArthVal: division by zero has no result in the reference semantics, while `hole_constant` folds `x / #0` to 0 (ir_hole.c). The soundness of that one rewrite is stated only for defined divisions.
- ArthFold.FoldTo: the `assert(res)` of `fold_to` (ir_arthprog.c:544) and the `decode_ivi` asserts inside it are not aborts here. A round that cannot decode keeps the word it has. `fold_to`'s `while (1)` loop takes a `fuel` bound (the drivers pass `steps`), and the result is promised only to denote the same value.
- ArthprogPass.Cval2Ir: the asserts of `cval2ir` (ir_arthprog.c:593-596) become a `None` result, and the caller keeps the original instruction.
- ArthprogPass.FoldVar: the asserts that a load or store address stays a variable (ir_arthprog.c:566, 671, 677) become "keep the original operand".
- HolePass.MergeLabels: the C asserts that a jump recorded on a label targets that label (ir_hole.c:42-53). A stale jump id is skipped instead.
- HolePass.RetargetOne: the same assert; a jump that is not found is skipped.
- AvexprPass.Chain: the walks along chains of copies (`ir_avexpr_arth_get2`, `ir_avexpr_get_arth`, `reverse_fold`) loop in the C for as long as links exist. The model bounds each walk by the size of the map. `AvexprPass.Avail2`, `AvexprPass.AvailFrom` and `AvexprPass.ChainEnd` are bounded the same way.
- ArthFold.FoldV2vFrom: `fold_v2v` follows affine facts for as long as they exist. The model bounds the walk by the number of facts.
- IrTypes.Opr: operands carry no C type. The IR's `type` pointers (int, ref, array, struct) are used only by the lowering, which keeps a typed operand (`AstIr.TOpr`) of its own.
- AstIr.ParamV: `ast_ir_param_dec` (ast_ir.c:128-138) wraps a struct or array parameter's type in a reference. The model drops that wrapper, because `IrTypes.Opr` has no types. A parameter is therefore not read through a load.
- IrEval.Step: `Load` and `Store` read and write an unconstrained memory. A load leaves its destination unconstrained and a store keeps the store. No pass is proved to preserve what memory holds.
- IrEval.Defs: `Alloc` (DEC) defines no variable in the reference semantics, while `ir_livevar.c:245` treats DEC as a definition that may be dropped.
- LivevarPass.BlockSound: it takes a set `A` of array variables with `ArrayVars(A, ...)`: no instruction reads one for its value, and a DEC still live after it declares one. Agreement of stores is stated up to `A`. The hypothesis is not derived from the lowering's output.
- LivevarPass.ElimSeqSound: it takes the same `ArrayVars(A, ...)` hypothesis as `LivevarPass.BlockSound`, and the stores after the eliminated run agree with the original's only up to the array variables `A`. The hypothesis is not derived from the lowering's output.
- LivevarCoalesce.CoalesceSound: it carries the same `ArrayVars` hypothesis, and its agreement is also up to the array variables.
- ConstantPass.FoldArthSound: it requires `NoUndefUses`: no operand read by the fold is UNDEF. The C pass replaces such an operand by `#0` (ir_constant.c:102-104) and drops a branch on UNDEF. Reading a variable that no definition reaches has no meaning in C, so the rewrite is proved only for programs that define before use, and nothing checks that the input does.
- ConstantPass.FoldDestSound: it requires `NoUndefUses` as well, so the destination rewrite (ir_constant.c:294-300) is proved only when no operand it reads is UNDEF; the C substitutes `#0` for such an operand.
- ConstantPass.FoldBranchSound: it requires `NoUndefUses`, so the branch fold (ir_constant.c:367-393) is proved only when neither compared operand is UNDEF; the C substitutes `#0` or drops the branch in that case.
- ConstantPass.FoldOprsSound: it requires `NoUndefUses`, so the operand substitution (ir_constant.c:412-416) is proved only when no operand is UNDEF; the C substitutes `#0` for such an operand.
- AvexprPass.TransferSeqSound: it requires `HeaderFirst`: a function header comes only first in a block, after the empty map. The C code never checks this; `build_bb` starts a block at each header.
- ArthprogPass.TransferSeqSound: it requires `HeaderFirst` as well, so soundness over a straight-line run (ir_arthprog.c:335-346) is promised only when a function header comes first in the run. The C code never checks this.
- LivevarPass.Live: the bitsets of ir_livevar.c are sets of variable ids. `Container.Bitset` models the 64-bit words as 64 booleans each, with no bit masking.
- Container.Worklist: the ring indexes are unbounded naturals taken modulo the capacity. The C keeps `uint32_t` indexes that wrap and masks them with `& (cap - 1)`.
- Container.CeilPow2: `round2power` is modelled by its value, the least power of two at least x. The bit smearing is not.
- Container.HashMap: `hmap` is modelled as a map with a top flag. Its hash buckets, collisions and resizing are not modelled.
- IrDumper.OprText: immediates and ids are printed from unbounded integers. `%d` of a 32-bit `int` agrees only for values in range, which the passes keep.
- Mips.Line: immediates and stack offsets are printed from unbounded integers (mips.c:83-168). The text equals the C's `%d` only for values that fit a 32-bit `int`, which the passes and the frame layout keep.
- AstPrinter.Parts: a float literal keeps its text as read. `ast_printer.c` prints the parsed `float` with `%f`, and the model has no floating point.
- AstIr.Lowerer: the lowering class keeps the graphs it builds as values (`seq<Code>`). It does not build them inside an `IrProgram.Program`.
- LivevarPass.LivevarCfg: like `ir_livevar`, it does not rerun `build_cfg`. Its coalescing walk reads the live sets of the code before dead-store elimination, as the C does.
- LowerFlow.ArrayAddress: the address is promised only when the four instructions do not redefine the base's variable before reading it.
- LowerFlow.DotAddress: the field address (ast_ir.c:439-455) is promised only when the emitted code does not redefine the base's variable before reading it.
- LowerFlow.IfFlow: it is stated for pure conditions (`PureCond`). It also needs the branch body not to place the statement's own labels.
- LowerFlow.IfElseFlow: it is stated for pure conditions (`PureCond`) only, and needs the branch bodies not to place the statement's own labels (ast_ir.c:177-189 lowers any condition).
- LowerFlow.WhileFlow: it is stated for pure conditions (`PureCond`) only, and needs the body not to place the loop's own labels (ast_ir.c:190-200 lowers any condition).
- Input and output are left out. That covers reading the source file, the parser and `main.c`'s file handling; `ir_dump`, `mips_dump` and `ast_print` produce text, not a `FILE *`.

## Findings

| source | as written | input that shows it | evidently intended | confidence | as-written member | corrected member |
|---|---|---|---|---|---|---|
| ir_avexpr.c:105-108 | `gen_arth` records `lhs := opr1 op opr2` as available unless `opr1` is `lhs`; it never checks `opr2` | `v1 := v0 - v1` with v0 = 5, v1 = 2 (livevar coalescing produces this shape), then `v2 := v0 - v1` is replaced by `v2 := v1`, giving 3 where the code computes 2 | do not record an expression that reads its own destination, in either operand | high, not executed | AvexprPass.AsWrittenMiscompiles (with AvexprPass.AsWrittenRecordsStaleFact on AvexprPass.TransferAsWritten) | AvexprPass.TransferSound (on AvexprPass.Transfer) |
| ir_arthprog.c:686-700 | a branch `a rel b` with affine facts for both sides becomes `(a - b) rel 0` for every relation | `v1 := v2 + 5; if v1 < v2` with v2 = 2147483645: v1 wraps to -2147483646 and the branch is taken, but `5 < 0` is not | fold the difference only for `==` and `!=`, which 32-bit wrap-around keeps | high, not executed | ArthprogPass.AsWrittenBranchMisfolds (on ArthprogPass.SimpBranchAsWritten) | ArthprogPass.SimpBranchSound (on ArthprogPass.SimpBranch) |
| ir_arthprog.c:34 | `make_ivi` and `make_vv` (ir_arthprog.c:41) accept a variable id up to 32768, which a 15-bit field cannot hold | variable 32768: `make_ivi` packs it and the word decodes as variable 0; `make_vv` of `v32768 - v1` decodes as `v0 - v1` | refuse ids of 32768 and above (`< 0x8000`) | high, not executed | ArthCval.AsWrittenIviLosesVar and ArthCval.AsWrittenVvLosesVar (on ArthCval.MakeIviAsWritten and ArthCval.MakeVvAsWritten) | ArthCval.MakeIviDecodes and ArthCval.MakeVvDecodes (on ArthCval.MakeIvi and ArthCval.MakeVv) |
