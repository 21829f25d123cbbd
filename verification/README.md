# The YAP engine core, verified

YAP is a Prolog system. This project models the parts of its engine that rewrite shared state in place, and proves what
the rest of the system relies on:

- **Backtracking.** Choice points, the trail and the fail loop (`Backtrack`, `Engine`): failing gives back the store a
  choice point was pushed over. Compiled head unification in read and write mode (`HeadUnify`, `HeadProof`,
  `HeadTrail`, `HeadEngine`) runs on the same store and the same trail.
- **Attributed variables.** The chain of attribute blocks as a map (`AttMap`, `AttOverwrite`, `AttEngine`), and which of
  its stores a failure takes back (`AttTrail`, `AttBack`).
- **The heap.** The boundary-tag allocator with its two-level free list (`FreeList`, `Tiling`, `HeapRows`, `HeapFrame`,
  `Heap`).
- **The assembler.** The two passes and their labels (`Pseudo`, `Assembler`, `Assembly`), the merging of instructions
  against the meaning of the opcodes (`Merge`, `MergeRules`), that the words written mean what the pseudo-code means
  (`Peephole`), and that the rest can be read back from its words (`Disassembly`).
- **Indexing.** The hash switches (`SwitchHash`) and BEAM's try chains (`EamIndex`).
- **Shared tables.** The atom table under its locks (`AtomTable`) and the predicate hash (`PredTable`).
- **Logical update.** The view a call has of its predicate (`LogicalUpdate`, `LogicalEngine`) and the reference counts
  that keep clauses and index blocks (`RefCounts`, `RefEngine`).
- **Two algorithms.** The term copier of arrays (`Copier`) and integer power and gcd (`IntPow`).

`Prelude`, `Cells` and `Terms` are shared by several of these. What the source updates in place is a class whose
methods are proved against functions and predicates on plain values; the theorems are lemmas about those. `dafny verify
dfyconfig.toml` checks everything.

## Findings

Some things the code is meant to keep it does not keep. Each is proved with a concrete input and the exact condition
under which the code does what is wanted. The model follows the code.

- **glist_valy** leaves SREG after the word the head's references end at, not after the head, when the head is a
  reference to a bound word and the permanent variable is bound: the code after it then reads the wrong tail
  (`MergeRules.GListValYIff`, `MergeRules.GListValYCounterexample`).
- **Exits before a blob.** The flags for blobs and database terms are not reset between the passes, so pass 1 protects
  an exit that pass 0 met too early and comes out two cells longer for each. C/compiler.c gives such a list for
  `p(X) :- (integer(X) -> true ; X = 1.5)` in a logical-update predicate: the first branch leaves the clause before the
  second loads its float (lines 1684-1790, 2006-2016 and 874-962) (`Assembler.SamePlaces`, `Assembler.ExitBeforeBlob`).
- **Retracting the last clause** puts the stamp of a predicate back to 0, except with threads; a call that still has the
  clause ahead, asserted at stamp 0, no longer sees it (`LogicalUpdate.EraseIff`, `LogicalUpdate.WipeCounterexample`).
- **Failing past a dirty index.** With threads the fail loop cleans up an index that another call is still using, and
  can free the instruction that call goes on from (`LogicalUpdate.DropIff`, `LogicalUpdate.CutCounterexample`,
  `LogicalUpdate.BusyReached`).
- **Nested index blocks.** When trust_logical frees the last use of an index block, the erased blocks around it go too;
  if the clause it jumps to is named by two or more of these and by nothing else, it is freed under the jump
  (`RefCounts.TrustIff`, `RefCounts.LostCounterexample`).
- **Attributes replaced in place.** Values are stored one after the other, so a value that is a variable in the block
  can be overwritten before it is read, and two places can become one variable; a copy of the block does not do that.
  The two branches agree exactly when `AttOverwrite.Agrees` holds (`AttOverwrite.InPlaceIff`,
  `AttEngine.SwapClash`). Storing one value has the same fault (`AttOverwrite.PutIff`, `AttEngine.PutClash`).
- **Old attribute blocks.** AddNewModule and the copy in ReplaceAtts fill in the caller's new block without trailing. If
  that block is older than the choice point the values stay after failure (`AttBack.ReplaceTakenBack`,
  `AttBack.AddTakenBack`, `AttBack.OldBlockStays`, `AttBack.OldBlockCounterexample`).
- **Linking with Bind_Global.** AddNewModule trails the link to the new block as if it had been an unbound variable: when
  it was the end of a chain kept elsewhere, as a copy in ReplaceAtts leaves it, the failure makes it a variable of its
  own (`AttBack.AddTakenBack`, `AttBack.LinkCounterexample`).
- **Multifile predicates of the prolog module.** Declaring one multifile renames its module from PROLOG_MODULE to
  TermProlog, which are meant to be one: PROLOG_MODULE then finds nothing, and the next call there makes a second entry
  that answers in the first one's place (`PredTable.DeclaredAnswers`, `PredTable.DeclaredLost`).
- **Copying an extension term.** The copier shares extension terms inside a term, but one that is the argument itself is
  taken for a compound whose arity is whatever its functor reads as (`Copier.GlobalStack.ReplaceReferences`,
  `Copier.ExtensionCounterexample`).

## Conditions on the pseudo-code

Three merges are right only under a condition on the code before them. Nothing in the assembler checks it; C/compiler.c
keeps it by the code it emits, which is not part of this model. Each has its exact condition and an input outside it.

- **put_xx_val** loads two registers at once: it is the two loads exactly when the second does not read what the first
  writes, or would have read the same (`MergeRules.PutXXValIff`, `MergeRules.PutXXValCounterexample`). The compiler
  moves a temporary out of a register that is to be loaded while it is still wanted (checktemp, lines 2688-2790).
- **gl_void_vary** sets the permanent variable before it binds the list, so it is not get_list, unify_void and
  unify_l_var exactly when the argument is a reference to that very slot (`MergeRules.GlVoidVarYIff`,
  `MergeRules.GlVoidVarYCounterexample`). The compiler emits unify_var for a first occurrence only, to which nothing
  refers yet (lines 362-391 and 2870-2880).
- **put_atom before get_atoms.** a_rc merges a put_atom into register 1 with the get_atoms after it, into an instruction
  that compares register 1: right exactly when the register holds the atom already, or the rest fails anyway and it
  holds some term (`MergeRules.PutAtomIff`, `MergeRules.PutAtomCounterexample`). In bodies the compiler emits get_atom
  only right after the put_val or put_var of c_eq (lines 874-962), and no put_atom in heads.

## Model

| member | source | states |
|---|---|---|
| Backtrack.FailureRestores | C/absmi.c:3173-3513 | After any legal run of bindings, multi-assignments, attribute stores, growth and nested choice points that leaves a choice point in place, failing to it gives every cell that existed when it was pushed the value it had then, and the trail, HR and ASP of that moment |
| Backtrack.StepKeepsInv | C/absmi.c:3173-3513 | Every machine step keeps, for all choice points at once, that undoing the trail to their mark gives back the store they were pushed over |
| Backtrack.FailedKeeps | C/absmi.c:3173-3513 | Failing needs only well-framed stacks and recoverable choice points, not that every new cell is written, and gives back the whole invariant |
| Backtrack.UntrailedStoreSafeIff | C/attvar.c:305-345 | A store that is not trailed leaves what undoing gives unchanged if and only if the trail names the cell already or the value is the one it had |
| Backtrack.OldCellPointingUpIsTrailed | C/attvar.c:363-388 | A cell older than a choice point that points above its H has been trailed since, which is why the untrailed stores over new blocks are safe |
| Engine.UndoWalk | C/absmi.c:3456-3513 | Walking the raw trail words, three for a multi-assignment, is undoing the logical entries one after the other |
| Engine.Emulator.Bind | H/amiops.h:206-258 | Stores the value in the cell and nothing elsewhere, and puts the cell on the trail exactly when it is older than HB or above B; then whatever stood for the cell stands for what the value stood for, and all else for what it did |
| Engine.Emulator.MaBind | H/amiops.h:226-262 | Stores the value, and for a cell that is older than HB or above B puts its old value on the trail in three words |
| Terms.BindingMeans | H/amiops.h:206-258 | In any store: once an unbound cell is bound, every cell that dereferenced to it dereferences to what the value did, every other one as before |
| Backtrack.StepStores | C/absmi.c:3173-3513 | Every word, the trail, HR and ASP after each step that is no failure: the value stored, the cells put on a stack, or what was there |
| Engine.Emulator.FailLoop | C/absmi.c:3387-3513 | The fail loop undoes the store to the top choice point's mark and cuts the trail there, keeping the marks of the others |
| Engine.Emulator.DifLoop | C/absmi.c:11995-12023 | p_dif's loop, which knows variables and multi-assignments only, undoes the same entries |
| Engine.Emulator.OrElse | C/absmi.c:7724-7760 | The next alternative has the choice point kept, HR, ASP and the trail as at its push, and every cell that existed then with the value it had |
| Engine.Emulator.OrLast | C/absmi.c:7761-7795 | The last alternative finds the same, with the choice point and its snapshot gone |
| Engine.Emulator.UndoDif | C/absmi.c:11963-12023 | p_dif's own undo loop gives back the cells, HR, ASP and trail of its pseudo choice point, as failing to it does |
| Engine.Emulator.EndDif | C/absmi.c:11963-12023 | With B put back, the choice points are those before p_dif, and the store is as it was then |
| Engine.Emulator.Probe | C/absmi.c:11960-11985 | p_dif's pseudo choice point with B and HB at HR is a choice point of the machine |
| Engine.Emulator.StoreAtts | C/attvar.c:305-345 | The untrailed store over a block newer than HB changes that word alone and is a legal step of the machine |
| HeadProof.HeadUnifiesIff | C/absmi.c:4743-4835 | For every linear pattern and every well-formed store the code of a head argument succeeds if and only if the argument and the pattern have a common instance |
| HeadProof.HeadSound | C/absmi.c:6893-7144 | After success every reading of the store makes the argument an instance of the pattern, puts in the registers the subterms its variables stand for, and is a reading of the store before |
| HeadProof.HeadComplete | C/absmi.c:6893-7144 | Every reading of the store before that makes the argument an instance survives, so nothing is bound that need not be |
| HeadProof.HeadKeeps | C/absmi.c:7801-7846 | The code never crashes; after success the store is well formed with no word unwritten, the mode stack is as it was and only the pattern's registers changed |
| HeadTrail.BindNoted | H/amiops.h:255-256 | A binding by YapBind in the head keeps it true that every change to a word older than the choice point has its trail entry |
| HeadTrail.FailsAsBefore | C/absmi.c:3173-3513 | Failing from any point within a head leaves the machine that failing before the head would have left, on every word the choice point knows |
| HeadEngine.Emulator.Instruction | C/absmi.c:6393-6447 | One get, unify or pop instruction in place, with its trailing, is a step of the specification |
| HeadEngine.Emulator.UnifyHead | C/absmi.c:4743-4835 | The head code run in place succeeds exactly when there is a common instance, leaves that instance in the store and registers, keeps the invariant of backtracking runs, and wherever it fails is taken back as if never entered |
| HeadUnify.RepeatedIs | C/absmi.c:6351-6495 | unify_n_atoms and unify_n_voids are n times the instruction for one, at any word and in either mode, failing where those fail |
| HeadUnify.PopsAre | C/absmi.c:7801-7846 | pop_n is n pops |
| Heap.Heap.constructor | C/alloc.c:1480-1503 | Two sentinels make an empty tiled heap with nothing used but the words below it |
| Heap.Heap.AllocHeap | C/alloc.c:649-738 | Refuses exactly when no free block is large enough and the top has no room, changing nothing but the overflow size; else returns a block of the rounded size, the smallest that fits before the top is raised, adds exactly that block, split where 25 words or more would be left over, to those in use, keeps every word of the others, and keeps the tiling, the size-ordered list and HeapUsed exact; HeapMax counts a reused block in full, what is split off it included |
| Heap.Heap.FreeBlock | C/alloc.c:560-617 | Takes exactly that block out of those in use, merges it with free neighbours on both sides, lowers HeapTop if it was under it, keeps every word in use, and keeps the tiling with no two free blocks adjacent; a block already free is refused unchanged |
| Heap.Heap.GetBlock | C/alloc.c:620-646 | Returns NIL exactly when no free block has n words, else unlinks a smallest one that has, with the list, HeapUsed and HeapMax it leaves |
| Heap.Heap.AddToFreeList | C/alloc.c:533-558 | The block becomes head of the chain of its size, or a new chain in the right place, and HeapUsed goes down by it |
| Heap.Heap.RemoveFromFreeList | C/alloc.c:501-531 | A block anywhere in any chain leaves it, and HeapUsed goes up by it |
| FreeList.InsertKeeps | C/alloc.c:533-558 | Linking a block keeps sizes strictly increasing, chains doubly linked and of one size, and blocks apart |
| FreeList.WithoutKeeps | C/alloc.c:501-531 | So does unlinking one, whether head, only block or inside a chain |
| Heap.WordsFit | C/alloc.c:649-676 | The rounded size has room for what was asked for and at most an eighth, a word or three words more |
| AttEngine.AttVar.Search | C/attvar.c:247-256 | Finds the block of a functor, or the end of the chain exactly when there is none |
| AttEngine.AttVar.AddNewModule | C/attvar.c:269-303 | Adds the new block's vector under its functor, free places void, and nothing else; without a value only on demand; says every store made |
| AttEngine.AttVar.ReplaceAtts | C/attvar.c:305-355 | The map gets the merged vector and no other change if and only if the block is copied or Agrees holds of the store before the call; says which block stays and every store made |
| AttEngine.AttVar.InPlace | C/attvar.c:305-325 | The loop in place leaves the store that storing the values one after the other gives, none of them trailed |
| AttEngine.AttVar.CopyOver | C/attvar.c:325-355 | The copy fills the new block, relinks the chain around the old one and always gives the merged map |
| AttEngine.AttVar.DelAtts | C/attvar.c:363-388 | The functor's vector leaves the map and nothing else changes, whether by trailing or not; the variable is bound when it was the last |
| AttEngine.AttVar.PutAtt | C/attvar.c:390-400 | The map is the old one with that value if and only if no other value comes to its place, or is that value anyway |
| AttEngine.AttVar.PutAtts | C/attvar.c:570-617 | put_module_atts as a map update: a new functor's vector added if it has a value, an old one's merged exactly when the two branches agree |
| AttEngine.AttVar.DelAttsOf | C/attvar.c:619-645 | del_all_module_atts takes the functor out of the map, if it was there |
| AttOverwrite.InPlaceIff | C/attvar.c:305-345 | The loop in place gives the merged map if and only if a condition on the store before it holds: no new value settles at a place that got another, and no place stored to held a value still wanted |
| AttOverwrite.PutIff | C/attvar.c:390-400 | The same for one stored value |
| AttMap.CopiedKeeps | C/attvar.c:305-345 | The copy relinked in the block's place gives the merged map always |
| AttEngine.SwapClash | C/attvar.c:305-345 | A valid store and a fresh block on which the branch in place gives another map than a copy |
| AttEngine.PutClash | C/attvar.c:390-400 | A valid store on which one put changes two values |
| AttTrail.TakenBackIff | C/absmi.c:3456-3513 | Stores to different cells are all taken back on failure if and only if each is to a newer cell, a cell trailed since, trailed with the right value, or no change |
| AttBack.ReplaceTakenBack | C/attvar.c:305-355 | A failure takes ReplaceAtts back if and only if it worked in place or what it filled into the new block is newer than the choice point, trailed, or was there |
| AttBack.AddTakenBack | C/attvar.c:269-303 | A failure takes AddNewModule back if and only if the places it voids are newer, trailed or void, and its link was unbound, trailed or new |
| AttBack.LinkCounterexample | C/attvar.c:269-303 | A machine in which the new block was linked at the end of a chain kept elsewhere, and a failure leaves that end unbound |
| AttBack.DelTakenBack | C/attvar.c:363-388 | A failure always takes DelAtts back, in every machine that keeps the invariant of runs |
| AttBack.PutTakenBack | C/attvar.c:390-400 | A failure always takes PutAtt back |
| AttBack.OldBlockStays | C/attvar.c:305-345 | With a new block older than the choice point and not trailed since, the copy is never taken back |
| AttBack.OldBlockCounterexample | C/attvar.c:305-345 | A machine on which that happens |
| Assembler.SamePlaces | C/amasm.c:3797-3913 | For every list pass 1 ends two cells after pass 0 for each exit met before the clause's first blob or term, and without such exits the passes meet the same instructions at the same addresses |
| Assembler.PassesAgree | C/amasm.c:2931-3722 | The same from any instruction on, although pass 0 rewrites loads after fetches to nops |
| Assembler.EmitNear | C/amasm.c:2363-2433 | What an instruction becomes depends on the list only up to the next fetch, so rewriting ahead is not seen behind |
| Assembler.FetchesDone | C/amasm.c:2363-2433 | In the list pass 0 leaves, every load after a fetch is one of a permanent variable, a put_var or a nop, so none is done twice |
| Assembler.LabelsResolve | C/amasm.c:2931-3722 | The address a label resolves to is where pass 1 itself comes to after the label's last definition, within the space measured |
| Assembler.ExitBeforeBlob | C/amasm.c:3797-3913 | A clause the compiler gives such a list for: its second pass is two cells longer than its first |
| Assembly.Assembly.Measure | C/amasm.c:2931-3722 | Pass 0 in place: the rewritten list, the end and the label table of the specification |
| Assembly.Assembly.Write | C/amasm.c:2931-3722 | Pass 1 in place writes exactly the specification's words, each right after the one before, its labels resolved by the table |
| Assembly.Assembly.Assemble | C/amasm.c:3797-3913 | Both passes: what is written, that it fits the space asked for, and that every label operand is the address of what follows its definition, unless an exit comes too early; which words those are is in Peephole.WordsRun and Disassembly.WrittenBack |
| Assembly.PutsLaidOut | C/amasm.c:2931-3722 | Everything pass 1 writes lies end to end from the origin, and each label operand is the table's address for that very label |
| Disassembly.WrittenBack | C/amasm.c:2931-3722 | Every pseudo-instruction that head and argument code does not have can be read back from its words: what it needs prepared, then its own opcode with its own width, operands and labels, the execute after a deallocate included |
| Disassembly.RoomForOperands | C/amasm.c:2139-2302 | Each word of head and argument code takes exactly a cell for its opcode, one for each operand and, for unify instructions, one for the opcode of write mode |
| Disassembly.RoundIs | C/amasm.c:2931-3722 | How far a round goes over such an instruction, passing over only what is part of the same one, and what it notes of blobs, terms, test labels, the environment and the end of code |
| MergeRules.PeepRuns | C/amasm.c:2139-2302 | On every run that comes to no merge in a state in which it means something else, code merged by the peephole does what the pseudo-code does, for registers but scratch register 0 when dead, store, mode and SREG; these states are the exact ones of the rules below |
| MergeRules.PeepChecked | C/amasm.c:2139-2302 | A list that passes a check made on the code alone may be merged whatever the state |
| MergeRules.PutXXValIff | C/absmi.c:7189-7214 | put_xx_val is its two loads if and only if the second does not read the first's target, or reads the same |
| MergeRules.PutXXValCounterexample | C/absmi.c:7189-7214 | Registers and two loads on which it is not |
| MergeRules.PutYValsExact | C/absmi.c:7216-7240 | put_y_vals is its two loads, in every state in which those run |
| MergeRules.GetYYVarExact | C/absmi.c:4111-4134 | get_yy_var is its two stores |
| MergeRules.AtomsExact | C/absmi.c:4310-4738 | get_2atoms to get_6atoms are the get_atoms they stand for |
| MergeRules.PutAtomIff | C/amasm.c:1214-1300 | For every list that does not crash, a put_atom merged into get_atoms means the same if and only if register 1 holds the atom already, or the rest fails and it holds some term |
| MergeRules.PutAtomCounterexample | C/amasm.c:1214-1300 | Registers on which the merged instruction fails and the two do not |
| MergeRules.GListValXExact | C/absmi.c:5051-5136 | glist_valx is get_list and unify_val |
| MergeRules.GListValYIff | C/absmi.c:5138-5224 | glist_valy is get_list and unify_val if and only if the head is no reference with both sides bound, or the unifier refuses the two words |
| MergeRules.GListValYCounterexample | C/absmi.c:5138-5224 | A list on which glist_valy leaves another SREG |
| MergeRules.GlVoidVarXRule | C/absmi.c:5227-5266 | gl_void_varx is get_list, unify_void and unify_l_var, but for what is dead |
| MergeRules.GlVoidVarYIff | C/absmi.c:5268-5303 | gl_void_vary is its three instructions if and only if the argument is not an unbound reference to that slot |
| MergeRules.GlVoidVarYCounterexample | C/absmi.c:5268-5303 | An argument that refers to the slot, on which it is not |
| MergeRules.GlVoidValXRule | C/absmi.c:5305-5386 | gl_void_valx is get_list, unify_void and unify_l_val |
| MergeRules.GlVoidValYRule | C/absmi.c:5388-5469 | gl_void_valy likewise, the slot itself as the list's variable included |
| MergeRules.VarX2Exact | C/absmi.c:5543-5586 | unify_x_var2 is its two instructions |
| MergeRules.NAtomsExact | C/absmi.c:6449-6495 | unify_n_atoms is n times unify_atom, in read and in write mode |
| MergeRules.WriteNAtomsExact | C/absmi.c:7526-7537 | write_n_atoms is n times write_atom |
| MergeRules.VoidsRule | C/absmi.c:6351-6391 | unify_n_voids and unify_l_n_voids are the voids they stand for |
| MergeRules.SwitchListIff | C/absmi.c:8939-8996 | switch_list_nl leads where switch_on_type and go_on_cons lead, for every argument, if and only if its table is about [] or about nothing that matters and misses go where compound terms do |
| Peephole.EmitsFirst | C/amasm.c:2139-2302 | On head and argument code do_pass merges exactly where the proved peephole does, as many pseudo-instructions, and the one word it writes stands for that very instruction, operands included |
| Peephole.WordsPeep | C/amasm.c:2931-3722 | Running what a whole pass over head and argument code writes, each opcode with its own meaning and its written operands, is running what the peephole makes of the pseudo-code |
| Peephole.WordsRun | C/amasm.c:2931-3722 | So the written words do what the pseudo-code does, on every run that comes to no merge in a state in which it means something else |
| Peephole.PutsWords | C/amasm.c:2931-3722 | Those are the words pass 1 puts in the code, but for the ystop that ends it |
| Peephole.ListSwitchMeans | C/amasm.c:1714-1757 | Whenever the assembler puts a switch_list_nl, it leads where the switches it replaces lead |
| SwitchHash.ProbesReach | C/absmi.c:9148-9240 | With a power-of-two size the first size probes meet every slot |
| SwitchHash.ProbesDistinct | C/absmi.c:9148-9240 | And none of them twice |
| SwitchHash.CellOffsets | C/absmi.c:9195-9240 | The emulator's offsets in cells are the entries' indices doubled |
| SwitchHash.Search | C/absmi.c:9148-9240 | The unbounded probing loop ends, at the key or at the first free slot of its probes |
| SwitchHash.Switch | C/absmi.c:9148-9240 | The loop ends and gives the target the map behind the table holds for the key, or fail |
| SwitchHash.Walk | C/absmi.c:9295-9308 | In a switch of few entries the walk ends and gives the target of the key, or fail |
| SwitchHash.Insert | C/index.c:1815-1845 | A new entry is found from then on, and no other search changes |
| SwitchHash.Expand | C/index.c:4502-4557 | Finds the place for a new key, in a list of one more, in a larger hash table or in the same one where its size would not change; with the key stored there the switch answers as before for every other key, and keeps a slot free |
| AtomTable.LookupsAgree | C/adtdefs.c:126-211 | For any number of threads in any interleaving all lookups of a name get the same atom, and it has that name |
| AtomTable.EndsWithAnswer | C/adtdefs.c:126-211 | A lookup that ends without running out of room ends with an answer: an atom of its name that is on its chain |
| AtomTable.InternedIsFound | C/adtdefs.c:157-211 | In every run, a name on its chain when a thread gets the read lock is what that thread answers, whatever the others do; until it has, it is on its way there |
| AtomTable.EveryLookupEnds | C/adtdefs.c:157-211 | After any run, a lookup that is left alone, with no lock held by others, ends, with an atom of its name unless there is no room for a new one |
| AtomTable.NamesUnique | C/adtdefs.c:126-211 | No chain ever holds two atoms of one name |
| AtomTable.UnchangedHead | C/adtdefs.c:157-211 | A head that is unchanged under the write lock proves that no atom of that name has come since the read-locked search |
| AtomTable.StepKeeps | C/adtdefs.c:157-211 | Every step of every thread keeps the locks exclusive, the chains sound, each search complete so far and all answers right |
| PredTable.PredTable.PredProp | C/adtdefs.c:1023-1061 | Gives the functor's prolog entry if it has one that is not multifile, otherwise the entry of the module, made if there is none; an answer there is is given and nothing changes; it fails exactly when there is no answer, the new entry would be the second or a later one of its functor and take the table past 6/10, and there is no room for a larger one |
| PredTable.PredTable.NewPred | C/adtdefs.c:795-896 | Makes the entry in the right place, first, displacing or hashed, growing the table before the load passes 6/10; refuses exactly when that cannot be had |
| PredTable.PredTable.ExpandPredHash | C/adtdefs.c:763-792 | Rehashing every chain in place keeps exactly the entries of the table, each in the chain of its slot |
| PredTable.PredTable.MoveChain | C/adtdefs.c:763-792 | One chain moved entry by entry keeps what the new table holds and adds exactly the chain's entries |
| PredTable.PredTable.SetMultifile | C/cdmgr.c:3083-3115 | Declaring a predicate multifile keeps the table sound; it says for every functor and module what the answer is then |
| PredTable.PredTable.Grow | C/adtdefs.c:763-792 | A larger table gives every question the answer it had |
| PredTable.PredTable.Search | H/Yatom.h:1569-1578 | Walking one chain finds the entry for functor and module exactly when the table has one |
| PredTable.NewAnswers | C/adtdefs.c:795-896 | A new entry changes the answer for its own functor and module only, unless it is the prolog module's, which takes over its functor |
| PredTable.FoundUnique | C/adtdefs.c:1023-1061 | There is at most one answer |
| PredTable.DeclaredAnswers | C/cdmgr.c:3083-3115 | Declaring a predicate multifile changes no answer unless it is one of the prolog module, which then answers for TermProlog only |
| PredTable.DeclaredLost | C/cdmgr.c:3083-3115 | After that a call in PROLOG_MODULE makes a second entry, which answers for every module, the declared one for none |
| LogicalUpdate.CallSeesItsEntry | C/absmi.c:8652-8781 | In every run of asserts, retracts and calls, a call that is through has tried exactly the clauses the predicate had when it entered, in their order, and before that a prefix, unless a step of the run is one of the two harmful ones |
| LogicalUpdate.OrderAfter | C/cdmgr.c:1814-1826 | asserta puts the new clause before all others, assertz after them, a retract takes out exactly its clause, and no other step changes the order |
| LogicalUpdate.ProgramIs | C/cdmgr.c:2589-2594 | So after any run the predicate has the clauses, in the order, that its asserts and retracts alone say |
| LogicalUpdate.CallTriesProgram | C/absmi.c:8652-8781 | A call that is through has tried exactly that program, as it was when it entered, in its order |
| LogicalUpdate.IndexIsProgram | C/index.c:7061-7078 | In every run the index holds exactly that program, unless it is marked dirty, which it is only while a call is in it |
| LogicalUpdate.LastCallFrees | C/absmi.c:8760-8810 | The last call to leave a chain leaves the predicate's index without erased clauses, and a chain that is none any more gone |
| LogicalUpdate.EraseIff | C/dbase.c:4085-4153 | A retract leaves every call in progress its view if and only if it does not reset the stamp under a call that still has the clause, asserted at stamp 0, ahead |
| LogicalUpdate.DropIff | C/absmi.c:3405-3424 | Failing past a call leaves every other call at an instruction that is there and on its way to its view if and only if the fail loop does not clean up a dirty chain another call needs |
| LogicalUpdate.CleanUpIff | C/index.c:7061-7078 | Cleaning up a chain does no harm to a call if and only if it is not at an erased clause and has none ahead that it can see |
| LogicalUpdate.RunsOut | C/absmi.c:8690-8781 | Left alone, a call comes to its end having tried what it should |
| LogicalUpdate.WipeCounterexample | C/dbase.c:4085-4153 | A run in which a call misses a clause it entered with |
| LogicalUpdate.TwoAsserted | C/dbase.c:4085-4153 | The state that run starts from is reached by two asserts |
| LogicalUpdate.CutCounterexample | C/absmi.c:3405-3424 | A state in which failing frees the instruction another call goes on from |
| LogicalUpdate.BusyReached | C/absmi.c:8652-8781 | That state is one a run comes to |
| LogicalEngine.LogUpdPred.AddClause | C/amasm.c:2978-2987 | Assert in place: the stamp moves only when the kind of operation changes; the new clause comes first or last, as asked, and every call in progress keeps its view |
| LogicalEngine.LogUpdPred.EraseClause | C/dbase.c:4085-4153 | Retract in place, after which every call in progress keeps its view if and only if it does not wipe |
| LogicalEngine.LogUpdPred.EnterLuPred | C/absmi.c:8653-8688 | enter_lu_pred in place, with the index made on demand: the new call is on its way to exactly the clauses the predicate has, the others keep their views |
| LogicalEngine.LogUpdPred.Logical | C/absmi.c:8690-8781 | try_logical, retry_logical and trust_logical in place: the call is still on its way to its view, or through and has tried exactly that; the other calls keep theirs |
| LogicalEngine.LogUpdPred.Abandon | C/absmi.c:3405-3424 | What the fail loop does to the predicate for a call, in place: the other calls keep their views, unless it cuts |
| RefCounts.StepIff | C/absmi.c:8760-8810 | Every step keeps all counts equal to the references there are, frees exactly what is erased and not referred to, and keeps the index entry where each choice point needs it; and it keeps the clause being entered if and only if it is no trust that frees it |
| RefCounts.CountsAreExact | C/absmi.c:2786-2802 | In every run from the start, trusts that lose their clause among its steps, each block's count is its parts plus its trail entries, each clause's the blocks naming it plus its trail entries, and each is freed exactly when erased at count zero; a run ends where freed code would make an entry for itself |
| RefCounts.ChainsStayClean | C/index.c:7061-7078 | In every run an index block that is neither erased, nor marked dirty, nor freed names no erased clause |
| RefCounts.TrustMakes | C/absmi.c:8760-8810 | A trust takes off its choice point and its entry, frees the block if that was its last reference and it is erased, cleans it up if it is dirty, goes into the clause, and puts an entry for it on the trail exactly when the block goes or is cleaned up and the clause had but one reference |
| RefCounts.StepLeaves | C/index.c:7061-7078 | No step erases a clause or a block but the one asked to; a chain changes only as a dirty one is cleaned up of its erased clauses, or by losing a clause erased while nobody uses it, and a block in use is marked instead |
| RefCounts.TrustIff | C/absmi.c:8760-8810 | The clause jumped to survives the freeing of its index if and only if the erased blocks that go with it do not hold all of its two or more references |
| RefCounts.RootKeepsClause | C/absmi.c:8760-8810 | With no erased block around it that waits only for it, the clause always survives |
| RefCounts.LostCounterexample | C/absmi.c:8760-8810 | A run from the start that comes to a trust that frees the clause it enters |
| RefCounts.KillOffKeeps | C/cdmgr.c:1358-1396 | Freeing a block with the parents that only waited for it keeps all counts exact and takes from each clause as many as these blocks named it |
| RefEngine.Emulator.Unwind | C/absmi.c:3387-3469 | The fail loop's handling of references in place is the specification's |
| RefEngine.Emulator.PopEntry | C/absmi.c:3387-3469 | One trail entry taken off: a reference given back, and what is then erased and unreferenced freed or cleaned up |
| RefEngine.Emulator.Keep | C/absmi.c:8674-8679 | Entering a chain or a clause adds a reference and its trail entry together |
| RefEngine.Emulator.KillOffBlock | C/cdmgr.c:1358-1396 | kill_off_lu_block in place, up through the parents: the block is erased and gone, those numbered after it and the trail are as they were |
| RefEngine.Emulator.CleanUpIndex | C/index.c:7061-7078 | The chain keeps exactly its unerased clauses in their order; each erased one has a reference less, and is gone if that was its last; no other clause or block changes |
| RefEngine.Emulator.TrustLogical | C/absmi.c:8760-8810 | trust_logical in place |
| Copier.GlobalStack.ReplaceReferences | C/arrays.c:1628-1658 | For every term, cyclic ones included, the copy is made of new words only, takes exactly the space computed, and the source is as it was; it reads as the dereferenced argument if and only if that is no extension term |
| Copier.GlobalStack.ReplaceComplex | C/arrays.c:1513-1626 | The loop with its stack of half-done compounds ends with every new word a copy of its source word and every source word restored |
| Copier.GlobalStack.CopyExtension | C/arrays.c:1628-1658 | An extension term as the argument is copied word by word as if it were a compound |
| Copier.ExtensionCounterexample | C/arrays.c:1628-1658 | Such an argument: a boxed word, of which nothing else is known |
| Copier.CellTermMeaning | C/arrays.c:1513-1658 | For a term without cycles, what the copy reads as is what the store's words mean |
| Copier.MeaningExists | C/arrays.c:1513-1658 | Every store without cycles has such a meaning |
| IntPow.MulOverflowExact | H/arith2.h:69-76 | The overflow test by division is exact on all words, wrapped products included |
| IntPow.Ipow | C/arith2.c:650-674 | For a non-negative exponent gives the power if it fits a word and 0 exactly when it does not, for 0 to a power 0 or 1, and what the code does for negative exponents |
| IntPow.Exp | C/arith2.c:680-704 | Integer power is the true power, a bignum exactly when it does not fit, and an error exactly for negative exponents |
| IntPow.Gcd | C/arith2.c:774-795 | For non-negative words gives the greatest common divisor, 0 only for two zeros; for a negative one gives 1 |
| EamIndex.Predicate.GenTry | BEAM/eamindex.c:53-81 | The general chain: all clauses, in order, as only_1 or try, retry and trust |
| EamIndex.Predicate.GenTrySome | BEAM/eamindex.c:83-115 | The chains for lists and for variables only |
| EamIndex.Predicate.GenKey | BEAM/eamindex.c:117-181 | The chain for one constant or functor |
| EamIndex.Predicate.Patch | BEAM/eamindex.c:117-181 | Retries, however many, are turned into only_1 or into try, retry and trust |
| EamIndex.Predicate.ExistsOnTable | BEAM/eamindex.c:38-51 | Says whether a bucket has the value |
| EamIndex.Predicate.GenTable | BEAM/eamindex.c:117-247 | One entry for each distinct value, in its bucket, with the chain for it |
| EamIndex.ChainTries | BEAM/eamindex.c:53-81 | A chain tries its clauses once each in order, whatever its shape |
| EamIndex.ChainRuns | BEAM/eamindex.c:53-81 | Run with the arguments saved once by prepare_tries, loaded by retry_me and freed by trust_me, a chain enters each clause once, in order, with the arguments of the call, and leaves nothing saved |
| EamIndex.IndexedTries | BEAM/eamindex.c:38-295 | Whatever the argument, the indexed code tries exactly the clauses of the general chain that can meet it, in order |

## Left out

- HeadProof.HeadUnifiesIff: says when the code succeeds; the instance it leaves is in HeadSound, HeadComplete and HeadKeeps, and the trailing in HeadEngine.Emulator.UnifyHead.
- HeadEngine.Emulator.UnifyHead: waking up attributed variables that are bound is not modelled, and bindings in unify instructions use YapBind's test; Bind_Global leaves out its test for local variables, which no word of the global stack leads to.
- HeadEngine.Emulator.UnifyHead: heads with repeated variables, and get_val and unify_val, are left to the abstract unifier of Merge.
- Heap.Heap.AllocHeap: sizes are unbounded, so requests near the largest word, whose rounding would wrap around, are not modelled.
- AttEngine.AttVar.PutAtt: a value that is a reference to an unbound local variable, which the code moves to the global stack first, is not modelled; the value has to be a settled one.
- AttEngine.AttVar.PutAtts: making the attributed variable of an unbound one, and growing the stack for its block, are not modelled.
- AttEngine.AttVar.DelAtts: binding the variable to its value when its last block goes is a flag; the unifier it may wake is not modelled.
- MergeRules.PeepRuns: that C/compiler.c emits only code whose runs meet its condition is not proved; MergeRules.PeepChecked is the check a list can be put to.
- Merge: what unifying two bound terms does is a parameter.
- Disassembly.WrittenBack: the operands of calls, of cuts and exits, of try, retry and trust and of built-ins after a fetch, labels and bitmaps apart, are not part of the model; nor is what such instructions do when run.
- Assembly.Assembly.Assemble: widths count cells; the alignment of floats on 32-bit machines and the growing of memory in the middle of a pass are not modelled.
- LogicalUpdate.CallSeesItsEntry: stamps stay below the bound at which they are renumbered; sub-indices are not modelled, and a predicate has one chain at a time plus those still in use.
- RefCounts: cuts drop choice points and leave their trail entries, as the emulator does before it trims the trail; garbage collection of the trail is not modelled.
- AtomTable: releasing atoms, and wide-character atoms, are not modelled.
- PredTable: locks are dropped, and thread-local predicates are not modelled.
- SwitchHash.Expand: replacing the index block and its links is not modelled; a hash table is expanded only when nearly full, so it is taken to have as many entries as a list could.
- RefCounts.CountsAreExact: what a freed clause does once its code makes an entry for itself is not modelled.
- Engine: frozen stacks, tabling and YapOr sharing are not modelled; nor is trail trimming on cut.
- Engine: signals, profiling and call counting are not modelled.
- Heap: the hole between memory blocks, the scratch pad and the calls to the operating system are not modelled.
- IntPow: floats and the arithmetic of bignums are not modelled; Yap_gmp_exp_int_int is taken to give the power.
- EamIndex.IndexedTries: that an argument picks its chain by its kind and value (EamIndex.Dispatch) is assumed, since no C file of BEAM reads the chains when a call is made; do_eam_indexing for a predicate without an index is not modelled.
- EamIndex.ChainRuns: follows prepare_tries, try_me, retry_me and trust_me of BEAM/eam_am.c, lines 2001-2073, a file that is not UTF-8 text; the alternatives run one after the other, not suspended.
- EamIndex.Predicate.Note: follows the counters of BEAM/toeam.c, lines 67-110, which has no row because that file is not UTF-8 text.
- BEAM's second assembler (BEAM/eamamasm.c): has the two-pass shape proved here for C/amasm.c, without labels that move; not modelled.
- Typed and memory-mapped arrays in C/arrays.c: file input and output and one store for each element type; not modelled.
