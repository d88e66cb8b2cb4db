# Proofs about an LC-3 toolchain

The repository holds the lcc C compiler retargeted to the LC-3, its preprocessor, its
instruction-selector generator, a post-processor that writes address code, an assembler and
simulator, and two LC-3 virtual machines. This project models the parts of it whose correctness is
least visible in the code, and proves what each is for, for all inputs and all runs.

`dafny verify dfyconfig.toml` checks everything. One module models one component:

- `Switch` – case labels kept sorted, merged greedily into dense buckets, and compiled into a binary
  search over equality tests and jump tables. Every execution of that code reaches the label C demands.
- `Dag`, `Undag`, `Prune` – value numbering of a block of assignments, the pass that turns the shared
  nodes into temporaries, and the one that reads variables again instead of keeping them in temporaries.
  All are tied to running the assignments one by one, under every meaning of the operators. `Sharing`:
  what was listed before is found again, until a store may have changed it.
- `Peephole` – the code list that `branch`, `definelab` and `labelnode` edit while it grows, and the
  aliases they leave behind. Edited and unedited list have the same traces.
- `ShortCircuit` – AND, OR, NOT, comparisons and constants lowered to jumps.
- `Burs` – the labeller that lburg generates (dynamic programming, closed over chain rules) and
  `reduce`. Together they find a cheapest cover, even when chain rules form cycles that cost nothing; the
  covers are the derivations of the grammar that spell the tree.
- `Simplify`, `Bits` – constant folding and strength reduction of signed and unsigned expressions: the
  value is kept. `Folding`: which constants and operators come out.
- `BitFields`, `BitAccess` – structure layout, and the masks and shifts that access a bit-field.
- `Hideset`, `Macro`, `Tokens` – interned hidesets of at most thirty names, the expansion of a row by
  turns and as a recursive function, and the token buffer in which it happens.
- `Cycle`, `Rescan` – exactly when that loop ends: for macros without arguments, by the definitions;
  with arguments and the scans of arguments inside a scan, by the turns.
- `Arena` – the arena allocator. `Symbols` – the symbol table with two indexes.
- `Vm` – both virtual machines, and when the one with a lazy condition code follows the other.
  `Instructions`: what each instruction does, from the number that is its word.
- `Address` – the address code of the post-processor, and what the virtual machine makes of it.
- `Encoding` – instruction words with parametric field widths: encode, decode, convert. `Words`: the
  numbers that are the words of the LC-3.

Objects that the source updates in place are classes (the case table, the dag builder, the undag
pass, the code list, a labelled node, the hideset table, the token row, the arenas, the symbol
table); loops stay loops. Specification functions stand beside them, and the lemmas are about those.

Properties that turned out false of the code are stated with the condition under which they hold:

- An unsigned switch with a table that starts at 0 sends large values outside the table. Some operand
  does so exactly when the lowering made such a table; a case for the greatest value makes no
  difference, because the greedy buckets then start no table at 0 (`Switch.OpenTableExactly`,
  `Switch.GreatestCase`, and `Switch.Lower` for the code as generated).
- A full hideset no longer grows, so a name may be replaced again and again: thirty-one macros, each
  naming the next and the last one itself, make the scan of the first go on for ever
  (`Cycle.LadderLoops`). The scan of a row ends exactly when no chain of definitions from one of its
  tokens comes back to a token with the same hideset (`Cycle.FinishesExactly`), which needs a full one
  (`Cycle.RepeatFull`).
- A function-like macro name at the very end of its source is put back by `gatherargs` and scanned
  again for ever, for example `g(f)` where both take arguments (`Rescan.BareNameLoops`). A scan ends
  exactly when this never happens and only finitely many replacements are made under full hidesets
  (`Rescan.ScanExactly`; `Rescan.EndsExactly` with the scans of arguments). With at most thirty macros
  the second never matters (`Rescan.FewScan`, `Rescan.FewEnd`).
- `subi` accepts zero less the least value, and a left shift of one to the sign bit is folded, both
  to constants that are out of range (`Simplify.SubiExactly`, `Simplify.LeastNegated`,
  `Simplify.OneToSign`); neither expression has a value in C.
- The range checks of the instruction encoder compare magnitudes: they let through immediates that
  do not survive decoding, and parameters below zero, which put ones all over the opcode; they refuse
  the least immediate of RRI and trap vectors with the top bit set (`Encoding.DecodeEncoded`,
  `Encoding.OpcodeOverwritten`, `Encoding.Widening`).
- The lazy condition code drifts when a call, GETC or STI touches what it remembers
  (`Vm.InstructionAgrees` says exactly when).
- The constant form of the address code is wrong when the destination is also the base: the machine,
  running the lines, computes another address, and loads another word (`Address.AddressExactly`,
  `Address.LoadExactly`).
- A request for almost 4 GB makes the allocator ask malloc for too little: it asks again until memory
  is used up, or, when the wrapped size is below that of a header, returns an address past the end of
  the block (`Arena.Arenas.Allocate` says exactly when).

Value numbering relies on C's rule that distinct variables have distinct places. `Stale.StaleLoad` is a
block for which the forest leaves another memory when they do not.

## Model

| member | source | states |
|---|---|---|
| `Switch.CaseTable.Grow` | lcc-1.3/src/stmt.c:395-406 | doubling the arrays keeps the cases |
| `Switch.CaseTable.Shift` | lcc-1.3/src/stmt.c:407-411 | the loop opens a gap at the place where the value belongs |
| `Switch.CaseTable.Insert` | lcc-1.3/src/stmt.c:392-419 | the table stays sorted, gains exactly this case with its label, and a duplicate is reported exactly when the value was there |
| `Switch.InsertAscending` | lcc-1.3/src/stmt.c:407-415 | inserting at that place keeps an ascending sequence ascending |
| `Switch.Push` | lcc-1.3/src/stmt.c:426-427 | a case alone is a dense bucket, and earlier neighbours stay unmergeable |
| `Switch.Merge` | lcc-1.3/src/stmt.c:428-429 | merging the last two buckets keeps the partition, the density and what was unmergeable |
| `Switch.MergeBack` | lcc-1.3/src/stmt.c:428-430 | the inner loop ends with no two neighbours that could still be merged |
| `Switch.Buckets` | lcc-1.3/src/stmt.c:420-431 | buckets partition the cases in order, every one is dense, and no two neighbours could be merged |
| `Switch.TotalSpan` | lcc-1.3/src/stmt.c:420-433 | the tables of all buckets together take at most ncases / density entries |
| `Switch.DenseExactly` | lcc-1.3/src/stmt.c:422-429 | in whole numbers: a range of cases is dense enough when density times the values it spans is at most the count of its cases |
| `Switch.EmitTable` | lcc-1.3/src/dag.c:538-549 | the emitted table has one entry per value spanned: the label of a case, the default in the gaps |
| `Switch.FindSelects` | lcc-1.3/src/stmt.c:434-502 | searching all cases gives the label of x if x is a case and the default otherwise |
| `Switch.RunTable` | lcc-1.3/src/stmt.c:467-482 | bounds tests and indexed jump reach the table entry, or the half below or above; without the lower test a negative operand leaves the table |
| `Switch.RunSmall` | lcc-1.3/src/stmt.c:451-466 | equality tests and the one choosing test reach the case, or the half |
| `Switch.DecideStep` | lcc-1.3/src/stmt.c:434-502 | the middle bucket decides x or the meaning of the whole search is that of one half |
| `Switch.EmitHead` | lcc-1.3/src/stmt.c:449-491 | the tests emitted for the middle bucket in every position; a table is emitted exactly when the bucket spans more than four values |
| `Switch.SwCode` | lcc-1.3/src/stmt.c:434-510 | for every x and whatever code follows, running the code exits where the search decides; it never falls out of a subtree, and new labels are fresh |
| `Switch.Lower` | lcc-1.3/src/stmt.c:420-510 | from cases to code: every operand exits at the label C selects, unless it escapes a table that starts at 0; some operand does exactly when there is one |
| `Switch.NoOpenTable` | lcc-1.3/src/stmt.c:473-475 | no operand escapes when the type is signed, the operand is not negative, or no table starts at 0 |
| `Switch.OpenTableReached` | lcc-1.3/src/stmt.c:473-475 | an unsigned switch with such a table and no case for the greatest value sends that value out of the table |
| `Switch.Mediant` | lcc-1.3/src/stmt.c:426-430 | two dense ranges without a gap between them are dense as one |
| `Switch.GreatestCase` | lcc-1.3/src/stmt.c:420-431 | with a case for the greatest value, no table of the greedy buckets starts at 0 |
| `Switch.OpenTableExactly` | lcc-1.3/src/stmt.c:473-475 | for the buckets the code makes, some operand escapes exactly when some table of an unsigned switch starts at 0 |
| `Dag.CEvalKeeps` | lcc-1.3/src/dag.c:53-67 | evaluating a node keeps every value computed before |
| `Dag.StoreNamedSound` | lcc-1.3/src/dag.c:83-96 | after a store by name, the loads that killnodes leaves in the buckets are current |
| `Dag.StoreNamedExact` | lcc-1.3/src/dag.c:83-96 | they are current for every stored value exactly when no load that is kept names the same place |
| `Stale.StaleLoad` | lcc-1.3/src/dag.c:310-322 | y := f(x); y := x with x and y at one place: the forest of this block leaves another memory than its assignments, whatever the memory before |
| `Dag.CountsAddNode` | lcc-1.3/src/dag.c:68-79 | counts stay equal to the numbers of references when a node is made |
| `Dag.CountsAddRoot` | lcc-1.3/src/dag.c:80-82 | and when a root is made |
| `Dag.LookValued` | lcc-1.3/src/dag.c:53-79 | a node from the table has the value of its operator now; a new one keeps the table right |
| `Dag.ListValued` | lcc-1.3/src/dag.c:323-360 | the node of a tree has the value of the tree now, and evaluating it evaluates exactly the new nodes |
| `Dag.LeftValued` | lcc-1.3/src/dag.c:317-321 | after killnodes or reset the table is right for the memory after the store |
| `Dag.AssignedRuns` | lcc-1.3/src/dag.c:310-322 | one assignment: the forest grown by its root does what the assignments did |
| `Dag.BlockSound` | lcc-1.3/src/dag.c:53-101 | for every block, running the forest with each shared node evaluated once, at its first use, leaves the memory that the assignments leave one by one |
| `Dag.BlockPhased` | lcc-1.3/src/dag.c:53-101 | whenever a root is taken up, all loads by name that it and its new nodes use have the current values of their variables, also those shared with earlier roots |
| `Dag.BlockUsed` | lcc-1.3/src/dag.c:68-82 | every node of the dag of a block has a use |
| `Dag.Builder.Lookup` | lcc-1.3/src/dag.c:53-79 | the search of the chain finds the first node with equal operator, operands and symbol, or makes one and counts its operands |
| `Dag.Builder.ListNodes` | lcc-1.3/src/dag.c:323-360 | the nodes of a tree in place, as the function that Dag.ListValued is about |
| `Dag.SurvivorsAre` | lcc-1.3/src/dag.c:88-95 | what a chain keeps is its members that are not killed |
| `Dag.Builder.KillChain` | lcc-1.3/src/dag.c:88-95 | the unlinking loop keeps exactly the nodes that are not killed, in order |
| `Dag.Builder.KillNodes` | lcc-1.3/src/dag.c:83-96 | the same for every bucket |
| `Dag.Builder.Invalidate` | lcc-1.3/src/dag.c:317-321 | killnodes after a store by name and reset after any other leave the table that Dag.LeftValued is about |
| `Dag.Builder.Assign` | lcc-1.3/src/dag.c:310-322 | one assignment in place, as the function that Dag.AssignedRuns is about |
| `Dag.BuildBlock` | lcc-1.3/src/dag.c:53-101 | any block: counts are exact and positive, and the forest does what the assignments do under every meaning that keeps its variables apart |
| `Sharing.ListAgain` | lcc-1.3/src/dag.c:53-62 | listing an expression a second time gives the same node and makes nothing new |
| `Sharing.StoreHeld` | lcc-1.3/src/dag.c:83-96 | a store by name to an ordinary variable that the expression does not load leaves all its nodes to be found |
| `Sharing.ComputedOnce` | lcc-1.3/src/dag.c:310-322 | v := e; then e again: the second e is the node of the first, unless it loads v or loads through a pointer |
| `Sharing.BlockHeld` | lcc-1.3/src/dag.c:83-96 | any number of stores to other ordinary variables in between makes no difference |
| `Undag.VisitOk` | lcc-1.3/src/dag.c:634-669 | replacing one use of a node keeps counts, values, temporaries and the shape of the output; the tree returned has the value of the node when the output has run, and is its part of the dag |
| `Undag.SpillOk` | lcc-1.3/src/dag.c:655-667 | a node used again is computed into a new temporary just before, once |
| `Undag.KeptOk` | lcc-1.3/src/dag.c:640-657 | operands are replaced left first, and the node keeps its value |
| `Undag.RootOk` | lcc-1.3/src/dag.c:570-575 | emitting a root does what the root does in the forest |
| `Undag.ForestRuns` | lcc-1.3/src/dag.c:555-578 | under every meaning and from every memory the output leaves the memory that the forest leaves |
| `Undag.TmpExact` | lcc-1.3/src/dag.c:670-680 | each temporary is read once per reference to the node it holds, from roots and from nodes in the output |
| `Undag.ForestTidy` | lcc-1.3/src/dag.c:555-578 | the output stores what the roots store, in order; its trees are the parts of the dag; temporaries are set once and before they are read; every node occurs at most once |
| `Undag.Undagger.TmpNode` | lcc-1.3/src/dag.c:670-680 | a read counts down the uses of the node, and the last one releases the temporary |
| `Undag.Undagger.Visit` | lcc-1.3/src/dag.c:634-669 | the four cases in place, as the function that Undag.VisitOk is about |
| `Undag.Undagger.Rebuild` | lcc-1.3/src/dag.c:640-657 | both operands in place, left first, as the function that Undag.KeptOk is about |
| `Undag.Undagger.DoRoot` | lcc-1.3/src/dag.c:570-575 | a root in place, as the function that Undag.RootOk is about |
| `Undag.SpillStep` | lcc-1.3/src/dag.c:655-667 | the invariant on counts, values and temporaries survives the new temporary |
| `Undag.MarkStep` | lcc-1.3/src/dag.c:638-657 | expanding a node makes exactly its operands due |
| `Undag.AllRead` | lcc-1.3/src/dag.c:670-675 | when every node has a use, no temporary is left waiting for a read |
| `Undag.TmpsAreNeeded` | lcc-1.3/src/dag.c:634-669 | the nodes that go into temporaries are those of the output used more than once; addresses of locals and parameters are not among them |
| `Undag.UndagForest` | lcc-1.3/src/dag.c:555-578 | one output is right for all meanings, memories, nodes and temporaries: same memory as the forest, shape and order of the roots, every node at most once, every temporary read as often as the node it holds is referred to; exactly the nodes used more than once have temporaries |
| `Undag.CompileBlock` | lcc-1.3/src/dag.c:555-578 | value numbering and undag together do what the block does under every meaning that keeps its variables apart; every node but a local address is in the output exactly once, and every temporary is read as often as the node it holds is referred to |
| `Prune.VisitFresh` | lcc-1.3/src/dag.c:634-680 | every read of a temporary that holds a load by name is made while the variable still has that value |
| `Prune.BlockFresh` | lcc-1.3/src/dag.c:555-578 | so it is in the whole output for a block |
| `Prune.ReplacedEval` | lcc-1.3/src/dag.c:579-598 | putting fresh loads and addresses in place of such reads keeps the value of a tree |
| `Prune.PrunedRuns` | lcc-1.3/src/dag.c:599-633 | omitting assignments to temporaries keeps the memory and the temporaries that are left, wherever variables and temporaries were put |
| `Prune.PrunedReads` | lcc-1.3/src/dag.c:599-633 | a temporary that was left out is not read |
| `Prune.PrunedExactly` | lcc-1.3/src/dag.c:599-626 | an assignment is left out exactly when the temporary holds a load by name of a variable in a register, or it is in memory itself and holds a load by name or the address of a global; what replaces its reads is that load or address |
| `Prune.PruneForest` | lcc-1.3/src/dag.c:599-633 | the loop over the forest: reads are replaced once something was left out, and each assignment is then kept or omitted |
| `Prune.CompilePruned` | lcc-1.3/src/dag.c:429-485 | all three passes together do what the block of assignments does, and exactly these assignments are left out |
| `Peephole.LinkStep` | lcc-1.3/src/dag.c:500-505 | following an equatedto link gets closer to what the label stands for |
| `Peephole.Idempotent` | lcc-1.3/src/dag.c:500-505 | resolving twice is resolving once |
| `Peephole.AheadEquivalent` | lcc-1.3/src/stmt.c:578-593 | deleting a jump to a label right behind it changes no run |
| `Peephole.LeadEquivalent` | lcc-1.3/src/stmt.c:620-633 | making a label in front of a jump an alias of the target, and deleting it, changes no run |
| `Peephole.UnreachedEquivalent` | lcc-1.3/src/stmt.c:634-637 | dropping a jump behind a jump or switch changes no run |
| `Peephole.MergeEquivalent` | lcc-1.3/src/dag.c:396-403 | a label right behind another may become its alias |
| `Peephole.CodeList.Equated` | lcc-1.3/src/dag.c:500-505 | the loop ends, at the label that p stands for |
| `Peephole.CodeList.Equal` | lcc-1.3/src/stmt.c:651-657 | decides whether dst stands for the label |
| `Peephole.CodeList.DefineLab` | lcc-1.3/src/stmt.c:571-594 | whatever is emitted next, the edited list runs like the list as emitted; no jump to the label is left in front of it with only declarations and labels between |
| `Peephole.CodeList.LabelNode` | lcc-1.3/src/dag.c:396-403 | the same for a label inside a forest, which later scans stop at; the list after it, item by item |
| `Peephole.CodeList.Flush` | lcc-1.3/src/dag.c:39-48 | a finished forest is not extended by later labels |
| `Peephole.CodeList.Branch` | lcc-1.3/src/stmt.c:613-650 | the same for a jump, with every alias it adds; aliases stay acyclic; a jump that stays is needed, one that is dropped could not be reached |
| `Peephole.SameTraces` | lcc-1.3/src/stmt.c:571-657 | in every reachable state, edited list with resolved labels and unedited list have the same traces |
| `Peephole.ListedOrAliased` | lcc-1.3/src/stmt.c:613-650 | a defined label is in the list or an alias, and not both |
| `ShortCircuit.SameTarget` | lcc-1.3/src/dag.c:117-120 | two operands with the same target: the second runs only if the first fell through |
| `ShortCircuit.SkipTarget` | lcc-1.3/src/dag.c:120-124 | the first operand skips the second through a new label |
| `ShortCircuit.ListCond` | lcc-1.3/src/dag.c:115-176 | the code jumps to the label exactly when the condition is true (false), falls through otherwise, and evaluates exactly the operands C evaluates, in order |
| `ShortCircuit.ListPair` | lcc-1.3/src/dag.c:116-138 | the same for AND and OR with either target |
| `Burs.RecordKeeps` | lcc-1.3/lburg/lburg.c:596-608 | recording a cheaper rule keeps every recorded cost explained |
| `Burs.NodeState.Record` | lcc-1.3/lburg/lburg.c:596-608 | costs only fall, and every cost that fell is closed under chain rules again |
| `Burs.NodeState.Closure` | lcc-1.3/lburg/lburg.c:421-438 | the recursive closure ends even when chain rules form cycles that cost nothing |
| `Burs.LabelNode` | lcc-1.3/lburg/lburg.c:352-419 | after all rules for an operator were tried, none can improve a cost |
| `Burs.Label` | lcc-1.3/lburg/lburg.c:521-537 | a whole tree, kids first |
| `Burs.LabelBound` | lcc-1.3/lburg/lburg.c:352-451 | no rule, chain or not, undercuts a label |
| `Burs.CoverSpells` | lcc-1.3/lburg/lburg.c:352-419 | a cover of a tree spells that tree: plugging what the kids spell into the goals of the pattern of the rule gives it back |
| `Burs.SpelledCovers` | lcc-1.3/lburg/lburg.c:352-419 | every derivation of the grammar is a cover of the tree it spells |
| `Burs.CoversExactly` | lcc-1.3/lburg/lburg.c:352-419 | the covers of a tree are exactly the derivations of the grammar that spell it |
| `Burs.Optimal` | lcc-1.3/lburg/lburg.c:352-451 | no cover of the tree costs less than its label |
| `Burs.RecordedRule` | lcc-1.3/src/gen.c:174-184 | the recorded rule applies and accounts for the whole cost; chain rules go down in a settling order |
| `Burs.KidReducible` | lcc-1.3/lburg/lburg.c:477-489 | every kid of the recorded rule is reducible, at a smaller node or earlier in that order |
| `Burs.Reduce` | lcc-1.3/src/gen.c:185-204 | following recorded rules ends with a cover of exactly the labelled cost |
| `Burs.Select` | lcc-1.3/src/gen.c:470-478 | a derivation that spells the tree, of least total cost; none exactly when every one costs 0x7fff or more |
| `Bits.IsPow2` | lcc-1.3/src/simp.c:590-599 | returns n when u is two to the n and n is not 0, otherwise 0 |
| `Bits.NoCommonBit` | lcc-1.3/src/simp.c:594-594 | u and u - 1 share no bit exactly when u is a power of two |
| `Bits.AndMask` | lcc-1.3/src/simp.c:488-489 | a mask of k ones gives the remainder by two to the k |
| `Bits.BitwiseBits` | lcc-1.3/src/simp.c:271-395 | each bit of and, or, exclusive or, in arithmetic: x*y, x+y-x*y, (x+y) mod 2 of the bits x and y |
| `Bits.ComplementBits` | lcc-1.3/src/simp.c:368-375 | each bit of a complement is one less the bit |
| `Simplify.Addi` | lcc-1.3/src/simp.c:55-68 | accepts exactly the sums in range |
| `Simplify.SubiExactly` | lcc-1.3/src/simp.c:179-182 | accepts exactly the differences in range, and zero less the least value |
| `Simplify.MuliExactly` | lcc-1.3/src/simp.c:149-163 | accepts exactly the products in range |
| `Simplify.DiviExactly` | lcc-1.3/src/simp.c:123-133 | accepts exactly the quotients that exist and are in range |
| `Simplify.AddMeans` | lcc-1.3/src/simp.c:214-223 | folding, commuting and dropping zero keep the value of a sum |
| `Simplify.SubMeans` | lcc-1.3/src/simp.c:567-574 | the same for a difference |
| `Simplify.BitsMeans` | lcc-1.3/src/simp.c:271-284 | the same for and, or, exclusive or, with zero and all ones |
| `Simplify.ShiftAccepted` | lcc-1.3/src/simp.c:448-453 | a folded left shift is in range, but for one shifted to the sign |
| `Simplify.LshMeans` | lcc-1.3/src/simp.c:448-468 | folded left shifts keep the value |
| `Simplify.RshMeans` | lcc-1.3/src/simp.c:540-563 | folded right shifts keep the value |
| `Simplify.MulShift` | lcc-1.3/src/simp.c:288-289 | a product with a power of two is a left shift |
| `Simplify.MulSpread` | lcc-1.3/src/simp.c:501-508 | c1*(x+c2) and c1*(x-c2) may be spread out, although the products may overflow |
| `Simplify.MulMeans` | lcc-1.3/src/simp.c:498-513 | every rewriting of a product keeps its value, and the recursion ends |
| `Simplify.DivMeans` | lcc-1.3/src/simp.c:399-414 | folding and the shift for a power of two keep the value of a quotient |
| `Simplify.ModMeans` | lcc-1.3/src/simp.c:478-493 | folding and the mask for a power of two keep the value of a remainder |
| `Simplify.EqualMeans` | lcc-1.3/src/simp.c:293-303 | folded equality tests |
| `Simplify.OrderMeans` | lcc-1.3/src/simp.c:424-447 | folded order tests, and unsigned comparisons with zero |
| `Simplify.UnCancels` | lcc-1.3/src/simp.c:368-375 | a complement of a complement, a negation of a negation: dropping both keeps the value |
| `Simplify.ConvertFolded` | lcc-1.3/src/simp.c:227-249 | folded conversions between int and unsigned keep the value |
| `Simplify.LeastNotFolded` | lcc-1.3/src/simp.c:527-535 | the negation of the least value is not folded |
| `Simplify.SimpUnMeans` | lcc-1.3/src/simp.c:227-535 | NEG, BCOM and conversions between int and unsigned: the tree built has the value the target computes |
| `Simplify.SimplifyMeans` | lcc-1.3/src/simp.c:207-589 | for all operands the tree built has the value the target computes, and its constants are in range when the operation has a value in C |
| `Simplify.BuildPreserves` | lcc-1.3/src/simp.c:207-589 | the tree built for an expression with a value in C, signed and unsigned mixed, has that value when evaluated with wraparound |
| `Simplify.LeastNegated` | lcc-1.3/src/simp.c:567-569 | zero less the least value is folded to a constant out of range |
| `Simplify.OneToSign` | lcc-1.3/src/simp.c:448-453 | so is one shifted to the sign bit |
| `Folding.SignedSums` | lcc-1.3/src/simp.c:214-574 | sums, differences and products of int constants that are in range are folded to exactly these |
| `Folding.UnsignedSums` | lcc-1.3/src/simp.c:214-574 | unsigned sums and differences are folded modulo two to the width |
| `Folding.UnsignedProducts` | lcc-1.3/src/simp.c:286-292 | and so are unsigned products |
| `Folding.SignedQuotients` | lcc-1.3/src/simp.c:399-482 | int quotients are folded toward zero, remainders with the sign of the dividend |
| `Folding.UnsignedQuotients` | lcc-1.3/src/simp.c:407-493 | unsigned quotients and remainders |
| `Folding.BitsFolded` | lcc-1.3/src/simp.c:271-395 | and, or, exclusive or of constants are folded bit by bit, each bit in arithmetic, to a constant in range |
| `Folding.RightFolded` | lcc-1.3/src/simp.c:540-563 | right shifts are folded to the quotient by a power of two, rounded down |
| `Folding.UnsignedLeftFolded` | lcc-1.3/src/simp.c:460-469 | unsigned left shifts are folded modulo two to the width |
| `Folding.SignedLeftFolded` | lcc-1.3/src/simp.c:448-453 | int left shifts in range are folded to the product |
| `Folding.ComparisonsFolded` | lcc-1.3/src/simp.c:293-522 | comparisons are folded to the sign of the difference |
| `Folding.Units` | lcc-1.3/src/simp.c:214-574 | operands that change nothing are dropped, on either side where that makes sense |
| `Folding.Powers` | lcc-1.3/src/simp.c:286-513 | products, unsigned quotients and remainders with a power of two become shifts and masks with the right constants |
| `Folding.Spreads` | lcc-1.3/src/simp.c:501-508 | a constant factor is distributed over a sum or difference with a constant |
| `Folding.Rearranged` | lcc-1.3/src/simp.c:214-477 | constants end up on the right; unsigned comparisons with zero become tests for zero or are decided |
| `Folding.UnaryFolded` | lcc-1.3/src/simp.c:227-535 | negations, complements and conversions of constants, in arithmetic |
| `BitFields.RoundUp` | lcc-1.3/src/c.h:59-59 | the least multiple that is not smaller |
| `BitFields.PlaceOne` | lcc-1.3/src/decl.c:613-642 | a member starts at or after the first free bit, ends where the free bits then start, and a bit-field does not cross its word |
| `BitFields.Disjoint` | lcc-1.3/src/decl.c:613-648 | no two members of a structure share a bit, in either byte order |
| `BitFields.MemberFits` | lcc-1.3/src/decl.c:612-651 | offsets are aligned, members lie inside the size, the size is a multiple of the alignment, and that of every member's |
| `BitFields.TightBits` | lcc-1.3/src/decl.c:619-638 | of two neighbours that are bit-fields, the second follows in the same word, bit by bit, whenever it fits there |
| `BitFields.TightBytes` | lcc-1.3/src/decl.c:619-628 | any other member starts at the first byte that is aligned for it and behind the one before |
| `BitFields.StartsAtZero` | lcc-1.3/src/decl.c:610-628 | the first member of a structure and every member of a union start at 0 |
| `BitFields.SizeLeast` | lcc-1.3/src/decl.c:641-651 | the size is the least multiple of the alignment that holds all members |
| `BitFields.AlignNeeded` | lcc-1.3/src/decl.c:614-627 | the alignment is the least allowed or that of some member |
| `BitFields.RoundUpOverflow` | lcc-1.3/src/decl.c:650-651 | the overflow test before rounding up is exact |
| `BitFields.StartField` | lcc-1.3/src/decl.c:614-625 | finds the start with sums that stop at the largest int |
| `BitFields.PlaceField` | lcc-1.3/src/decl.c:614-642 | follows the exact layout until a sum is too large, and then the exact size is too large |
| `BitFields.Finish` | lcc-1.3/src/decl.c:650-655 | the final size, cut to the largest multiple of the alignment on overflow |
| `BitFields.Fields` | lcc-1.3/src/decl.c:610-655 | the loop gives every member its exact place, and reports overflow exactly when the size is above the largest int |
| `BitAccess.StoredWord` | lcc-1.3/src/dag.c:285-309 | all three expressions for a store, shortcuts included, put the low bits of the value in the field and keep the rest of the word |
| `BitAccess.LoadedValue` | lcc-1.3/src/dag.c:361-370 | both expressions for a load give the bits of the field, extended |
| `BitAccess.AssignField` | lcc-1.3/src/dag.c:278-316 | read, change, write back: only the field's own bits of memory change |
| `BitAccess.ReadField` | lcc-1.3/src/dag.c:361-372 | the value read is the field's own bits, extended |
| `BitAccess.ReadBack` | lcc-1.3/src/dag.c:279-310 | a load after a store gives the value reduced to the width of the field |
| `BitAccess.ReducedUnsigned` | lcc-1.3/src/c.h:101-105 | reduced means modulo two to the width |
| `BitAccess.ReducedSigned` | lcc-1.3/src/c.h:101-105 | or the congruent number between the signed bounds |
| `BitAccess.NoInterference` | lcc-1.3/src/decl.c:610-655 | in a structure as laid out, a store to one member is invisible to every other |
| `Hideset.AscendingUnique` | lcc-1.3/cpp/hideset.c:47-51 | ascending arrays are equal exactly as sets, so comparing them decides equality of sets |
| `Hideset.DistinctSets` | lcc-1.3/cpp/hideset.c:47-63 | distinct indices denote distinct sets |
| `Hideset.InsertHs` | lcc-1.3/cpp/hideset.c:66-79 | the scratch array, never exceeded, gets the sorted insertion |
| `Hideset.Table.Check` | lcc-1.3/cpp/hideset.c:22-34 | decides membership |
| `Hideset.Table.New` | lcc-1.3/cpp/hideset.c:39-64 | insertion, in all tables of at most thirty names; under thirty names the same set; old indices keep their meaning |
| `Hideset.Table.Union` | lcc-1.3/cpp/hideset.c:84-92 | the union, or thirty names of it; old indices keep their meaning |
| `Macro.SpliceExpand` | lcc-1.3/cpp/macro.c:208-220 | a body in front of a row expands to its expansion followed by that of the row |
| `Macro.FitsFinish` | lcc-1.3/cpp/macro.c:132-171 | while no hideset is full the loop ends, with the recursive expansion of the row |
| `Tokens.TokenRow.Grow` | lcc-1.3/cpp/tokens.c:88-101 | a larger buffer with the same tokens and positions |
| `Tokens.TokenRow.Adjust` | lcc-1.3/cpp/tokens.c:194-209 | moves the tokens behind a position right or left |
| `Tokens.TokenRow.InsertRow` | lcc-1.3/cpp/tokens.c:130-142 | replaces tokens at the position by others and ends behind them |
| `Tokens.CopyBody` | lcc-1.3/cpp/macro.c:187-217 | the body with the new hideset on its names |
| `Tokens.ExpandName` | lcc-1.3/cpp/macro.c:178-223 | one replacement in place is a turn on what the tokens mean, also under a full hideset |
| `Tokens.ExpandOne` | lcc-1.3/cpp/macro.c:140-168 | a turn of the loop in place: a token is passed over or replaced |
| `Tokens.ExpandRow` | lcc-1.3/cpp/macro.c:132-171 | whenever the scan ends at all, the loop leaves its result in the buffer, and that is the recursive expansion while no hideset is full |
| `Cycle.FinishesFinite` | lcc-1.3/cpp/macro.c:132-171 | the loop ends exactly when replacing each token of the row by itself ends |
| `Cycle.RepeatFull` | lcc-1.3/cpp/hideset.c:52-53 | a chain of definitions comes back to the same token only with a full hideset |
| `Cycle.SteadyFinite` | lcc-1.3/cpp/hideset.c:39-64 | a chain that does not repeat ends: hidesets grow to the cap, and then names run out |
| `Cycle.FinishesExactly` | lcc-1.3/cpp/macro.c:132-171 | the scan of a row ends exactly when no chain of definitions from one of its tokens repeats, the cap included |
| `Cycle.LadderLoops` | lcc-1.3/cpp/hideset.c:52-53 | thirty-one macros whose scan never ends, from empty hidesets |
| `Rescan.GrowingDepth` | lcc-1.3/cpp/macro.c:209-217 | below the cap, tokens of a replacement can hide fewer further names than the name replaced |
| `Rescan.InFront` | lcc-1.3/cpp/macro.c:140-168 | tokens of bounded depth in front of a row whose parts halt do no harm |
| `Rescan.RescanningHalts` | lcc-1.3/cpp/macro.c:132-223 | no row allows passing over, scanning some of its tokens by themselves and replacing under growing hidesets for ever |
| `Rescan.CappedFull` | lcc-1.3/cpp/hideset.c:52-53 | a turn that does not make hidesets grow replaces a name whose hideset is full |
| `Rescan.ScanExactly` | lcc-1.3/cpp/macro.c:132-223 | a scan, whatever rows it replaces calls by, ends exactly when it never puts a name back and makes finitely many turns under full hidesets |
| `Rescan.EndsExactly` | lcc-1.3/cpp/macro.c:276-346 | the same with the scans of arguments in it, which lose their newlines: some scan fails to end exactly when some descent puts a name back, or is under full hidesets again and again |
| `Rescan.FewGrow` | lcc-1.3/cpp/hideset.c:39-64 | with at most thirty macros a full hideset is all of their names, so every replacement makes hidesets grow |
| `Rescan.FewScan` | lcc-1.3/cpp/macro.c:132-223 | with at most thirty macros a scan ends exactly when it never comes to a bare name that takes arguments |
| `Rescan.FewEnd` | lcc-1.3/cpp/macro.c:276-346 | the same with the scans of arguments |
| `Rescan.StuckExactly` | lcc-1.3/cpp/macro.c:240-257 | a row is stuck exactly when it starts with a name that takes arguments and is not hidden, and nothing but newlines follows |
| `Rescan.NextDecides` | lcc-1.3/cpp/macro.c:240-257 | otherwise the first token that is no newline decides: a parenthesis makes a call, and before any other token the name is passed over with the newlines |
| `Rescan.BareNameLoops` | lcc-1.3/cpp/macro.c:242-257 | such a name is put back and scanned for ever |
| `Rescan.TurnSteps` | lcc-1.3/cpp/macro.c:132-171 | the turns of macros without arguments are turns of this kind |
| `Arena.SizeExactly` | lcc-1.3/src/alloc.c:66-67 | what is asked of malloc, in numbers; it is large enough exactly when it does not wrap around |
| `Arena.TinyPasses` | lcc-1.3/src/alloc.c:60-60 | with a wrapped size below the header, the negative room compares as a large unsigned |
| `Arena.LiveApart` | lcc-1.3/src/alloc.c:80-81 | regions in use never overlap, whatever their arenas |
| `Arena.TakeFree` | lcc-1.3/src/alloc.c:61-63 | moving a free block to the end of a chain keeps the partition of the blocks |
| `Arena.Obtain` | lcc-1.3/src/alloc.c:64-74 | so does a block from malloc |
| `Arena.Bump` | lcc-1.3/src/alloc.c:80-81 | taking n bytes keeps every region apart, aligned and inside its block |
| `Arena.Drop` | lcc-1.3/src/alloc.c:87-93 | splicing a chain into the free list keeps the partition |
| `Arena.Reused` | lcc-1.3/src/alloc.c:87-93 | what a freed arena had from malloc serves any arena again |
| `Arena.Arenas.SearchFree` | lcc-1.3/src/alloc.c:60-63 | the search ends, with room exactly when the current block or a free one is large enough |
| `Arena.Arenas.Ask` | lcc-1.3/src/alloc.c:64-79 | asking malloc ends with room, with a block that only seems to have it, or out of memory, each exactly when |
| `Arena.Arenas.SearchNew` | lcc-1.3/src/alloc.c:64-79 | room is obtained exactly when malloc answers and the size does not wrap, with one request |
| `Arena.Arenas.Take` | lcc-1.3/src/alloc.c:80-81 | the region taken is the only new one, and the invariant holds |
| `Arena.Arenas.Allocate` | lcc-1.3/src/alloc.c:53-82 | for every size: exactly when room is found, and then exactly one region is added, at the address returned, with a new block only when none at hand is large enough; exactly when an address past the block is returned instead |
| `Arena.Arenas.Deallocate` | lcc-1.3/src/alloc.c:87-93 | the invariant holds, one arena has no regions left, the others keep theirs; its blocks are in front of the free list, none is lost |
| `Symbols.SymbolHash` | lc3tools/symbol.c:46-55 | the loop computes the hash |
| `Symbols.HashFolds` | lc3tools/symbol.c:46-55 | names that differ in case only have the same hash |
| `Symbols.FoldExactly` | lc3tools/symbol.c:66-66 | names count as one exactly when they are of one length and every two characters are equal, or a capital and the code 32 above it |
| `Symbols.HashIsProduct` | lc3tools/symbol.c:46-55 | the hash is the product of the codes, capitals raised by 32, modulo the size of the table |
| `Symbols.AddNew` | lc3tools/symbol.c:77-85 | a new symbol on both chains keeps both indexes exact |
| `Symbols.Remove` | lc3tools/symbol.c:101-106 | unlinking a symbol from both chains keeps both indexes exact |
| `Symbols.OnHashChain` | lc3tools/symbol.c:102-104 | a symbol at a location is on its hash chain |
| `Symbols.PushLinked` | lc3tools/symbol.c:80-85 | a new head keeps all links in step with the chains |
| `Symbols.DropLinked` | lc3tools/symbol.c:102-106 | redirecting one pointer takes one symbol off its chain and leaves every other chain alone |
| `Symbols.FirstAt` | lc3tools/symbol.c:100-104 | the symbol that a location leads to is on its hash chain, so the search for its link ends |
| `Symbols.SymbolTable.FindSymbol` | lc3tools/symbol.c:57-69 | following the links ends, and agrees with a map from names without case |
| `Symbols.SymbolTable.AddSymbol` | lc3tools/symbol.c:71-90 | the map gains the name, or its address changes, or a duplicate is refused |
| `Symbols.SymbolTable.FindLink` | lc3tools/symbol.c:102-104 | the search along the links ends at the pointer that leads to the symbol |
| `Symbols.SymbolTable.RemoveSymbolAtAddr` | lc3tools/symbol.c:94-110 | removes exactly the names first added at that address, even if their address has changed since |
| `Vm.InstructionAgrees` | lc3sim_cpp/lc3sim.cpp:148-379 | one instruction from agreeing states: same registers, memory, program counter, console, and the flags agree after it exactly when it does not drift |
| `Vm.StepAgrees` | lc3sim-c/vm.c:503-525 | the same for a turn of the loop with its fetch |
| `Vm.RunsAgree` | lc3sim_cpp/lc3sim.cpp:391-438 | for any number of steps, along every run that stays tame |
| `Vm.CreatedAgree` | lc3sim-c/vm.c:102-110 | the machines agree when they are created |
| `Vm.CallDrifts` | lc3sim_cpp/lc3sim.cpp:200-215 | a call can make the flags differ |
| `Vm.FlagKept` | lc3sim-c/vm.c:249-265 | a step keeps exactly one flag set, so a branch on every flag is taken |
| `Vm.FlagAlways` | lc3sim-c/vm.c:503-525 | so it is along every run |
| `Vm.RunLoop` | lc3sim_cpp/lc3sim.cpp:391-418 | the loop makes at most the given number of steps; the count is the number of the step that stops the machine |
| `Vm.Run` | lc3sim_cpp/lc3sim.cpp:391-418 | the same for the machine: its state after that many instructions, and the exact number executed |
| `Instructions.AddRegisters` | lc3sim-c/vm.c:273-290 | the word 0x1000 + 0x200 d + 0x40 a + b adds registers a and b, modulo 0x10000, into d and sets the flag of the sum |
| `Instructions.AddImmediate` | lc3sim-c/vm.c:279-282 | the same with a number from -16 to 15 |
| `Instructions.AndRegisters` | lc3sim-c/vm.c:292-309 | every bit of the result is the product of the bits of the operands |
| `Instructions.AndImmediate` | lc3sim-c/vm.c:298-301 | the same with a number from -16 to 15 |
| `Instructions.Not` | lc3sim-c/vm.c:413-423 | operand and result add up to 0xffff |
| `Instructions.LoadAddress` | lc3sim-c/vm.c:401-411 | the program counter plus a number from -256 to 255 |
| `Instructions.LoadNear` | lc3sim-c/vm.c:353-365 | the word at that address, or a fault |
| `Instructions.LoadIndirect` | lc3sim-c/vm.c:367-384 | the word at the address that is there |
| `Instructions.LoadFrom` | lc3sim-c/vm.c:386-399 | the word at a register plus a number from -32 to 31 |
| `Instructions.StoreNear` | lc3sim-c/vm.c:430-441 | the register goes to the program counter plus a number |
| `Instructions.StoreIndirect` | lc3sim-c/vm.c:443-459 | to the address that is there |
| `Instructions.StoreTo` | lc3sim-c/vm.c:461-473 | to a register plus a number |
| `Instructions.Branch` | lc3sim-c/vm.c:311-325 | taken exactly when the flag that is set is among those named; the word 0 stops the machine |
| `Instructions.JumpTo` | lc3sim-c/vm.c:327-334 | goes to the address in the base register |
| `Instructions.CallNear` | lc3sim-c/vm.c:336-342 | goes to the program counter plus a number from -1024 to 1023, with the return address in register 7 |
| `Instructions.CallTo` | lc3sim-c/vm.c:343-351 | goes to what the register held before the return address went to register 7 |
| `Instructions.Trap` | lc3sim-c/vm.c:475-493 | calls through the vector; vector 0x20 reads a character |
| `Instructions.NotThere` | lc3sim-c/vm.c:425-498 | the two opcodes that are not implemented |
| `Instructions.Devices` | lc3sim-c/vm.c:127-189 | the four addresses of the console; all others are memory, or an error |
| `Instructions.TurnFetches` | lc3sim-c/vm.c:503-525 | a turn performs the word at the program counter, moved on first, while the clock is on |
| `Instructions.LazyDoes` | lc3sim_cpp/lc3sim.cpp:148-379 | the other machine does the same in agreeing states |
| `Address.EncodeIsWord` | lc3sim_cpp/instr_maker.h:74-122 | the words of the lines are those of the encoder with 16, 4 and 3 bits |
| `Address.DecodeAddImm` | lc3sim-c/vm.c:273-290 | the machine decodes an encoded ADD with an immediate to its operands |
| `Address.RunChain` | lcc-1.3/lc3pp/lc3pp.c:413-431 | the additions leave base + offset in the destination |
| `Address.RunConstant` | lcc-1.3/lc3pp/lc3pp.c:436-445 | the constant form does so too when the destination is not the base; the inline word is never executed |
| `Address.Additions` | lcc-1.3/lc3pp/lc3pp.c:414-430 | the loops split the offset into immediates that fit, as few as there can be |
| `Address.CalculateAddress` | lcc-1.3/lc3pp/lc3pp.c:405-450 | the lines written, for every offset, and how many; every operand fits its field |
| `Address.FarExactly` | lcc-1.3/lc3pp/lc3pp.c:410-436 | the constant form is used exactly for offsets above 45 or below -48, with a load above 76 or below -80; the load takes from -32 to 31 itself |
| `Address.CountExactly` | lcc-1.3/lc3pp/lc3pp.c:415-431 | how many additions there are: one per 15, or per 16 below zero, rounded up |
| `Address.CountLeast` | lcc-1.3/lc3pp/lc3pp.c:415-431 | no sequence of additions for that sum is shorter |
| `Address.LinesExactly` | lcc-1.3/lc3pp/lc3pp.c:405-450 | the number of lines, in numbers, at most four and the load |
| `Address.AddressComputed` | lcc-1.3/lc3pp/lc3pp.c:405-450 | running them leaves the address in the destination and changes nothing else |
| `Address.LoadReached` | lcc-1.3/lc3pp/lc3pp.c:447-449 | with a load, the machine gets to the last line |
| `Address.WordLoaded` | lcc-1.3/lc3pp/lc3pp.c:447-449 | which reads the word at base + offset into the destination |
| `Address.AddressExactly` | lcc-1.3/lc3pp/lc3pp.c:436-445 | in every machine that runs the lines the run leaves base + offset in the destination, exactly unless the constant form is used with destination equal to base |
| `Address.LoadExactly` | lcc-1.3/lc3pp/lc3pp.c:436-449 | the same for loading the word there |
| `Address.TraceRuns` | lc3sim-c/vm.c:503-525 | a trace of steps is a run |
| `Address.GoesRuns` | lc3sim-c/vm.c:503-525 | these runs are runs of the machine's loop |
| `Encoding.SignedBack` | lc3sim_cpp/instr_parser.h:6-7 | masking and extending the sign gives the value back exactly when it fits |
| `Encoding.Leading` | lc3sim_cpp/instr_parser.h:16-57 | opcode and register numbers are found where they were put |
| `Encoding.DecodeEncoded` | lc3sim_cpp/instr_maker.h:40-122 | for all widths and formats, decoding gives back what was encoded exactly when every field is in the range of its bits, signed or unsigned |
| `Encoding.OpcodeOverwritten` | lc3sim_cpp/instr_maker.h:85-88 | a parameter below zero passes the checks and makes the opcode all ones |
| `Encoding.Parsed` | lc3sim_cpp/instr_parser.h:6-95 | what a word is taken apart into fits its layout |
| `Encoding.CheckedWider` | lc3sim_cpp/instr_maker.h:40-71 | in a wider layout the checks pass exactly unless the least RRI immediate or the top bit of a trap vector is involved |
| `Encoding.Widening` | lc3sim_cpp/instr_converter.h:9-122 | widening keeps every field, and fails exactly on what the checks refuse |
| `Encoding.Rebuilt` | lc3sim_cpp/instr_maker.h:74-122 | putting a decoded word together clears exactly the bits its format does not use |
| `Encoding.ThereAndBack` | lc3sim_cpp/instr_converter.h:95-122 | widening and narrowing again gives the word with unused bits cleared, or fails exactly on what the narrow checks refuse |
| `Words.SoundCodes` | lc3sim_cpp/instr_maker.h:40-122 | fields in range, and the word below that they give: encoding gives the word, and decoding the fields |
| `Words.ThreeRegisters` | lc3sim_cpp/instr_maker.h:74-77 | the word of ADD and AND with registers, as a number |
| `Words.TwoRegistersImmediate` | lc3sim_cpp/instr_maker.h:89-92 | of ADD and AND with an immediate |
| `Words.TwoRegistersOffset` | lc3sim_cpp/instr_maker.h:79-82 | of LDR, STR and RTI |
| `Words.TwoRegistersParameter` | lc3sim_cpp/instr_maker.h:84-87 | of the reserved opcode with a parameter |
| `Words.TwoRegisters` | lc3sim_cpp/instr_maker.h:94-97 | of NOT |
| `Words.RegisterNumber` | lc3sim_cpp/instr_maker.h:99-102 | of branches, LD, LDI, LEA, ST and STI |
| `Words.SecondRegister` | lc3sim_cpp/instr_maker.h:109-112 | of JMP and a call through a register |
| `Words.NumberAlone` | lc3sim_cpp/instr_maker.h:114-117 | of a call to a place nearby |
| `Words.Vector` | lc3sim_cpp/instr_maker.h:119-122 | of a trap |

## Left out

- Drivers, files, terminals, the assembler's grammar, the LC-3 OS image and the machine description are not modelled.
- Floating point, pointer constants, conversions between sizes, AND/OR/NOT and bit-field zero tests in `simplify`, and folding in contexts that need a constant: they would add cases of the same kind. One size of up to 32 bits with 8-bit bytes is modelled; bitwise folding of negative constants is stated by its result.
- Calls, volatile, INDIR+B, COND, RIGHT, the memo in tree nodes, operators that become calls, and `emitrecalc`/`mayrecalc` in the dag.
- Dag.BuildBlock: the memory is right under meanings where no two names in the block denote one place unless both are computed addresses, as C demands; Dag.StoreNamedExact and Stale.StaleLoad say why.
- Prune.PrunedRuns: storage classes are parameters; nodes listed for their value alone, whose temporaries are kept, do not occur without calls and RIGHT.
- Undag.UndagForest: trees are returned instead of being updated in the kids of nodes, so node identity is tracked by number and not by aliasing.
- Peephole.CodeList.Branch: the `ref` counts of labels and the infinite-loop warning are not modelled, and the doubly linked list is a sequence that is edited in place.
- ShortCircuit.ListCond: operands are opaque integer values; with unordered floating-point operands the negated relations would not be complements.
- Burs.Reduce: `reuse` of common subexpressions, `x.inst`, use counts and the packed rule numbers of the generated state are not modelled.
- Switch.Buckets: density is a real number instead of a rounded float.
- Tokens.ExpandRow: object-like macros without `##`, builtins or `defined`; makespace is not modelled, and a scan that does not end is not run.
- Rescan.ScanExactly: for macros with arguments what a call is replaced by is any row with the hidesets the code gives it; substituting arguments, `#` and `##` are not modelled.
- Hideset.Table.New: the index of a hideset is unbounded, while tokens keep it in an unsigned short.
- BitFields.Fields: the host computes with unbounded ints, while the source adds the bytes of trailing bit-fields to an offset without a check; unnamed members stay in the list; roundup is stated as the least multiple instead of by a mask.
- Vm.RunsAgree: 16-bit words, no exception handler after a memory error, and the word read by GETC is the same on both machines; RES and RTI of one machine are a parameter.
- Vm.Run: the exception handler and its mask are not modelled, so a memory error ends the run; machines are values that a step returns anew, and the endless loop of one of them is a run of any finite length.
- Address.CalculateAddress: lines are instructions with numbers instead of text, and their words are those of the instruction set; the assembler between them is not modelled.
- Encoding.DecodeEncoded: joining fields is a sum, as they do not overlap; immediates are unbounded integers instead of 64-bit ones.
- Arena.Arenas.Allocate: pointers are block numbers, sizes and addresses those of a 64-bit host, and a size that wraps around 64 bits is excluded; malloc's answers are a parameter. After the run-over allocation nothing is promised about the heap.
- Symbols.SymbolTable.RemoveSymbolAtAddr: symbols are numbers and their links maps; storage is never reused.
- Register allocation and spilling, debug information, the other back ends, the `#if` evaluator and `resolve_externs`.
