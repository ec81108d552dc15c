# A verified model of the ALS Prolog engine

ALS Prolog compiles clauses to instructions for a Warren-style abstract machine and runs
them over one block of memory that holds the stack, the heap, the trail and the choice
points. This project models the parts of the C sources in which a global invariant has to
survive intricate updates in place, and proves what those parts are for.

`dafny verify dfyconfig.toml` checks everything.

## What is here

**A clause (`VarProc`, `ClauseEntry`, `ClauseBody`, `ClauseRule`, `ClauseTest`,
`ClauseCompile`, `ClauseExample`).** Head unification and argument set-up, described next, are
put together here. `ClauseCompile.CompileClause` takes any clause of two or more goals without
cuts that has room in the model, and compiles all of it but the last goal: `classify_vars` and
`compute_call_env_sizes`, the head, the initialization of the environment, and then, goal by
goal, arguments, call, trimming and new targets. The promise is about the code run by a
machine whose callees leave the caller's part of the stack alone. The head's code unifies the
arguments with the head. Where that succeeds there is one binding of all variables of the
clause, extending the one the head ends with and giving different new variables to different
variables, under which at every call every argument is right, and in the place a head expects
it, unless that goal goes wrong (see below). So what is demanded of a head, of a first goal
and of a goal that follows another is met by every clause: permanent are the variables that
occur in more than one goal, the head counting with the first, and are no argument of the
head; their places are in the order of their last occurrences, and therefore a variable still
needed is always in the part of the environment that is kept.

Whether a goal goes wrong is told by what has been found out about the clause and by which
machine variables are exposed when the goal is entered, however many evictions and calls there
have been before. `ClauseTest.ClauseWatch` is that function of the clause: for goal `k` it
gives each variable its place in the environment while it is permanent and still needed,
whether it has a home, how often it has occurred, the argument cell it is meant for, and its
value if that still has to be made safe, which is so when the first part of the clause to have
the variable has it outside structures only (for the head: among its arguments).
`CompileClause` ensures that this is what is watched on entry, and that the arguments are
right if and only if it does not collide (`GoesWrong`). It also says where exposed variables
come from: a permanent variable that is first met as an argument is exposed at that call
exactly if its place lies below the newest choice point. A goal is always right if it is the
first one, if the environment is as large after it as before it, or if nothing is exposed when
it is entered. `ClauseExample` compiles `h :- g(Y), s(f(X),Y,X), z.` for an arbitrary `g`: `g`
is called with `Y`, which is exposed; then `f(X)` is wrong if `Y` is still exposed, and all
arguments are right otherwise. `UnboundGoesWrong` and `BoundIsRight` are one `g` of each kind.

**Argument set-up (`Wam`, `GoalModel`, `GoalBuild`, `GoalDanger`, `GoalSpill`, `GoalUnsafe`,
`GoalCompiler`, `GoalTargets`, `GoalExample`, `NextGoal`).** The clause compiler's `comp_goal`
and everything it calls, for the only configuration that still compiles: no argument
registers, no temporary registers, all arguments on the stack. `VarTable` holds the compiler's
two kinds of records, `Wam` gives each emitted instruction its meaning over a cell memory.
`GoalCompiler.Compiler` is the compiler: the arrays `model`, `vtbl` and `to_do` and the
indices beside them are updated by the source's loops while instructions are emitted. Ghost
fields run the emitted code alongside, so that every method states what the code emitted so
far has done. `GoalModel.Inv` is the invariant between the compile-time model and the machine:
a variable with uses left is in the cell its home names, or in an argument cell finished for
it; every other cell of the argument block is free, or holds a left-over copy. What a cell
stands for is said once, by `Denotes`: the head of a list lies in the cell that the list's
address names and its tail in the next one, the arguments of a structure in order behind the
functor (`DenotesList`, `DenotesStruct`). `CompGoal` ends with the theorem: all argument cells
stand for their arguments exactly when no permanent variable was pushed to the heap inside an
open structure; otherwise some structure among the arguments is wrong, while arguments that
are variables are right in any case. No new variable is identified with another, and every
variable needed later is still at its home.

The condition is needed. `find_home` frees a variable's target, `free_target` may evict
permanent variables, and for one that is still an unbound environment cell the eviction is an
instruction that pushes a heap cell. Between a structure's first instruction and its slots,
that cell takes the place of a slot. `FreeTarget` says when the heap grows: the chain of
displaced temporaries ends (`Stop`) at a permanent variable, and one that has to be made safe
and is still exposed is at home in that cell or below; exposed means that it has no heap cell
and that no choice point protects its environment, for `put_unsafe_value` pushes no other.
Over a whole goal that is `GoalCollides`, a test of the variable table, the exposed variables
of the machine and the goal on entry: at some point of the goal a variable is used in a
structure for the first time; the cell it is meant for still belongs to a permanent variable
that is not used up; and at or below that cell is one in danger that no earlier event has
rescued, be it a use in a structure or the freeing of an argument cell. `CompGoal` pushes into
an open structure if and only if `GoalCollides`. `GoalDanger` follows what decides this
through the single steps, `GoalSpill.SpillsExactly` turns it into the test on entry. The
equivalence is stated for a `Settled` entry, in which a temporary that lies in an argument
cell lies in its own; every goal is entered so: `HeadReadiesFirstGoal` and `GoalReadiesNext`,
which also carry the invariant from the head to the first goal and from goal to goal, through
the call and the trimming. `GoalExample` is the second goal of `h :- g(Y), s(f(X),Y,X), z.`
when g has left Y unbound and no choice point: it meets every demand on entry, it collides,
and `FirstArgumentIsWrong` lets the compiler loose on it, whose code then sets up a first
argument that is not `f(X)`. A simpler test, sufficient only, is `Calm`: no permanent variable
that dies at this goal can still be unbound, or no variable that still needs a home and has a
target occurs in a structure.

**Head unification (`HeadMachine`, `HeadLogic`, `HeadFill`, `HeadModel`, `HeadStart`,
`HeadCompiler`, `HeadTheorem`, `HeadUnify`, `HeadExample`, `FirstGoal`).** `comp_head` and
what it calls, for clauses whose first goal does not overlap the head's arguments. The
arguments are arbitrary terms, so the get and unify instructions run in both their modes: they
match an existing structure or build one for an unbound variable.
`HeadCompiler.Compiler.CompileHead` sets up the model and emits the code; beside it runs the
machine, and a ghost value `l` of `HeadLogic.Logic` with the bindings, the cell each head
variable stands for and the equations still to be solved. `HeadLogic.Same` says that a step
neither loses nor gains a solution; every step of the emitted code is proved to be one. The
theorem is about most general unifiers: `HeadTheorem.Sound` and `Complete` together say that
the solutions the machine ends with are exactly those in which the arguments are an instance
of the head. For ground arguments, `SucceedsOnInstances`, which `CompileHead` promises too:
the code succeeds exactly when the arguments are an instance of the head, and then every
variable's cell holds its subterm. Nothing the code builds on the heap refers to a variable
that lives on the stack only, which is what the instruction for unsafe variables is for. There
is no occurs check: for arguments that are not ground the machine may succeed with bindings
that no finite term satisfies. What unification has to do for `get_value` and `unify_value` is
the demand `IsUnifier`; `UnifierExists` shows that it can be met, and `HeadExample` runs the
compiled head `p(f(X,X),Y)`, which matches a structure exactly when its two parts are the
same. `HeadReadiesFirstGoal` joins the two halves of the compiler: what the head leaves is the
invariant that argument set-up starts from.

**Resizing the memory (`EngineModel`, `EngineGlobals`, `EngineTerms`, `EngineMemory`,
`EngineExample`).** Reallocation, the two moves and the rewriting of every address, over an
array of tagged words. What has to come through is the terms. `EngineTerms.Read` reads a word
by its tag alone and follows it into stack and heap to any depth: variables, lists, structures
(those with 255 arguments or more included, whose arity takes a cell of its own), strings with
their words, each with its distance from the heap base, so that sharing and cycles show.
`SizePrologEngine` ensures that the same term is found in every cell of stack and heap that
was there before (`TermsKept`), always; that the same choice points and trail entries are
found, with the same terms behind them (`PointsKept`), exactly when the words of the trail
that are looked at have not been written over with others; and that the terms of the global
variables are the same exactly when a condition on what they hold is met that can be told
beforehand. `ViewOf` is the memory seen from its own base: registers, saved register sets,
stack, heap and the choice points with their trail entries, addresses being distances. Stack
and heap are moved first, and may be moved onto the trail. `MovePrologMemory` copies every
word as it is found when its turn comes (`Overlaid`), so all words in use are copied exactly
when nothing but its own words is put over the trail (`TrailKept`); it is so if stack and heap
end at or below the old top of the trail (`ClearIsKept`). `SizePrologEngine` needs a trail
that can be followed after that. Then the registers are in order again, and the view is as it
was exactly when the words that can be told from outside, those below the entries older than
every choice point, have not been written over with others. `TrailIsLost` is an engine that
fits its new sizes, is in order afterwards and has another trail entry than before. The links
of the free global variables are always right afterwards. The values of the globals in use are
kept exactly when each is a constant, or the heap stays where it is, or some global is free
and the value is not an address in the new place of the globals (`WillMove`), as long as
nothing is written over them (`WillKeep` covers that case too), and then so are the terms they
hold; for the source rewrites no global at all while none is free. `GlobalIsLost` is an engine
that loses one, with the first 32 globals all in use. Three smaller facts show in the
contracts: the recorded sizes are not updated when only the border between stack and heap
moves; trail entries older than the oldest choice point are not rewritten; and stack cells
below the current environment are not looked at.

**Relocating the database (`DbLists`).** When the blocks of the database have moved, chains
and the circular list of free code are rewritten in place by loops that follow the links they
have just rewritten. `FixChain` and `FixCircle`: afterwards the lists run through the
translated nodes in the same order, every link is translated once, also when new blocks lie
where old ones were, nothing else changes, and the loops end.

**Destructive update under backtracking (`HeapSafety`, `HeapRestore`, `HeapUpdate`).**
`mangle`, `trailed_mangle` and `delay` with the machine's own steps: allocate, bind, try,
retry, trust, cut. Which cell is replaced is said by a reader of arguments that `arg` has in
common with the two: `mangle(N, T, X)` and its trailed form succeed exactly when T has an
argument N (and X is bound), which is X afterwards, every other argument and every other heap
cell being as before (`Replaced`, `ReplacedWhere`). `NeverDangles`: in every run of these
steps no heap cell below H points at or above H, in particular not after backtracking.
`BacktrackingRestores`: when every change is trailed with the old word, backtracking to a
choice point brings back, word for word, the heap it was made with, whatever happened in
between.

**Converting and copying terms (`TermCopy`).** The `cvt_walk` functions take a run-time term
to the compiler's form, `heap_copy` takes it back. `ConvertAndCopy`: the copy is a variant of
the original, whatever order the two parts of a list are walked in, exactly when every string
fits the buffer of 512 characters its name is read into; longer names are cut without notice,
as in `LongNameIsCut`.

**Reading lines (`LineReader`).** `sio_readln` with its buffer and the loop that refills it.
`GetLines` returns the lines of the text whatever number of characters the operating system
delivers at a time, in each of the four end-of-line modes, pairs of carriage return and line
feed split between two deliveries included. In three modes that means: no line holds the
mode's end-of-line, and the lines joined by it, with one more behind the last line or without,
are the text (`Split`); in the fourth the ends may be of any kind, and none is part of a
longer one (`SplitAnywhere`). The stream counts lines and columns. The loops terminate. A
buffer that is full when more is asked for is taken for the end of the file (`SioReadbuffer`);
reading by lines never gets there.

**Quoting atoms (`AtomQuoting`, `AtomReading`, `QuotedAtoms`).** `sio_qatom` writes an atom in
quotes, `quoted_atom` reads it back in place. `QuotedRoundTrip`: the result is the same atom
exactly when no character written as an octal escape stands before an octal digit
(`EscapeRunsOn` is such an atom). The two passes of `quoted_atom` agree, and the buffer is as
before, exactly when the atom as written holds no bare NUL, at which the second pass stops.
What the writer never writes is read right too: a byte in hexadecimal or octal, in letters of
either case and with any number of leading zeros (`HexEscape`, `OctalEscape`), and the letters
(`LetterEscape`). A quoted atom is an error exactly if an end-of-line is met that no backslash
goes before (`UnterminatedExactly`); behind a backslash it continues the atom on the next line
(`ContinuedLine`). An atom that is written without quotes is read as that atom by the lexer's
rules for unquoted words (`PlainIsRead`); the empty list is two words.

**Reading numbers (`Numerals`).** `string_to_number` scales a fraction back by one division,
`decimal` folds it from the right; both compute powers of ten by square and multiply. Over
exact numbers `StringToNumber` accepts exactly the texts of numerals and gives their value,
`Decimal` takes the longest numeral and gives its value, and `ReadersAgree` says on which
numerals they agree: on all but those with a bare point, as in `1.`, which only the first
accepts. An exponent moves the point by as many digits as it says (`ExponentMovesPoint`). An
integer that is printed and read is the same integer.

**The table of C constants (`SymbolTable`).** Open addressing with a stride of the name's own,
as a finite map. The sizes 4093 and 8191 are prime, a stride is never a multiple of the size,
so the probes visit every slot; that holds whether `char` is signed or not.

**Term order (`TermOrder`).** `termcmp` is the standard order of section 7.2 of ISO/IEC
13211-1, a total preorder: variables, floats, integers, atoms, compound terms, these by arity,
name and arguments from the left, the head of a list before its tail; on terms without doubles
`wm_identical` holds exactly when the comparison gives 0 and lists stand in list form at the
same places of both (`IdenticalExactly`), so for all terms whose lists are in list form, and
never for a list in its two forms.
## Model

| member | source | states |
|---|---|---|
| ClauseCompile.CompileClause | core/alsp_src/generic/compile.c:175-626 | Every clause of two or more goals without cuts that has room: the head's code unifies; where it succeeds one binding of all the clause's variables makes the arguments right at every call but the last, unless the goal goes wrong, which the analysis of the clause and the variables exposed on entry tell exactly; what is watched on entry is a function of these, and so is which new variables are exposed at the call; the first goal, one that cuts nothing off the environment and one entered with nothing exposed are right |
| ClauseCompile.Analyze | core/alsp_src/generic/compile.c:175-182 | What is found out about the variables, and the targets of the first goal |
| ClauseCompile.RuleIsOk | core/alsp_src/generic/compile.c:212-320 | Everything that the compilation of the head and of the goals demands on entry holds for every such clause |
| ClauseCompile.VarAt | core/alsp_src/generic/varproc.c:129-257 | For each goal: first and last occurrence tell exactly whether a variable has a value before it and is needed after it, and a permanent one still needed has its place in the part that is kept |
| ClauseRule.CompRule | core/alsp_src/generic/compile.c:211-626 | Head and goals under one binding, for a clause about whose variables the facts are known; the code of the body is right whenever the head matches, except for the goals that collide; the record of each variable after the head, which the entry of every goal is a function of, is told by the clause |
| ClauseBody.Compiler.CompBody | core/alsp_src/generic/compile.c:323-626 | The loop over the goals: each is set up from the state that call and trimming of the one before lead to, and all are right under one binding with distinct new variables, exactly if they do not collide; what is watched on entry is told by goals, counts and the table the body starts from, and the variables exposed in the machine |
| ClauseBody.Compiler.InitializeEnvironmentVariables | core/alsp_src/generic/compile.c:875-917 | Exactly the environment cells of variables that first occur after the first goal get new variables, the first by its place, the others by relative steps |
| ClauseBody.Compiler.SetUp | core/alsp_src/generic/compile.c:376-465 | One goal: arguments, stack pointer, call; the callee finds the arguments above its stack pointer; entry and new exposed variables are as told, and so are counts, flags and places afterwards |
| ClauseBody.Compiler.Trim | core/alsp_src/generic/compile.c:491-626 | After the call the next goal can be set up |
| ClauseBody.RightExactly | core/alsp_src/generic/compile.c:2015-2137 | At the call all arguments are right exactly if the goal did not collide on entry |
| ClauseBody.StillClassified | core/alsp_src/generic/compile.c:465-626 | What is known of a variable before the body still holds when its goal comes, although variables have been evicted in between |
| ClauseTest.WatchIs | core/alsp_src/generic/compile.c:323-626 | What is watched on entry of a goal, as the body tells it, is the function of the clause and the exposed variables: counts and needs by first and last occurrence, flags by the first part that has the variable |
| ClauseTest.BareIs | core/alsp_src/generic/compile.c:2320-2325 | Before each goal a variable still needed has to be made safe exactly if it has not been met, or was first met outside structures |
| ClauseTest.NewIs | core/alsp_src/generic/compile.c:2087-2094 | A permanent variable first met as an argument is exposed at the call exactly if no choice point protects its place |
| ClauseEntry.EntryIsWatched | core/alsp_src/generic/compile.c:465-626 | Invariant and table on entry of a goal determine what is watched: places, homes, counts, targets and values that have to be made safe |
| ClauseEntry.ToldNext | core/alsp_src/generic/compile.c:2015-2137 | Over one goal count, flag and permanence of a variable still needed change as the clause tells |
| ClauseEntry.NewIsExposed | core/alsp_src/port/wam.c:1534-1545 | The new variables among the arguments are exposed as their places tell |
| ClauseEntry.ApartIsRight | core/alsp_src/generic/compile.c:1782-2006 | A goal whose argument block lies below the whole environment never pushes into an open structure |
| ClauseRule.HeadHasLeft | core/alsp_src/generic/compile.c:1700-1712 | After the head the occurrences of a variable are counted, and one still needed has to be made safe exactly if it is unused or an argument of the head |
| ClauseCompile.IsForetold | core/alsp_src/generic/compile.c:323-626 | The outcome of each goal follows from the clause and the exposed variables alone |
| ClauseExample.GThenS | core/alsp_src/generic/compile.c:175-626 | The demands on a clause can be met: one is compiled for any callee, its head matches, g gets an exposed Y, and s gets f(X) right exactly if Y is not exposed any more |
| ClauseExample.UnboundGoesWrong | core/alsp_src/generic/compile.c:1979-1983 | With a g that does nothing the first argument of s is not f(X) |
| ClauseExample.BoundIsRight | core/alsp_src/generic/compile.c:1979-1983 | With a g that binds Y all arguments of s are right |
| VarProc.ClassifyVars | core/alsp_src/generic/varproc.c:154-229 | For each variable its first and last part and its number of occurrences; exactly the variables that are not temporary are numbered, each once, those that occur last first |
| VarProc.Vwalk | core/alsp_src/generic/varproc.c:78-144 | Walking a term of any depth notes exactly its occurrences of every variable |
| VarProc.SortByLastOcc | core/alsp_src/generic/varproc.c:208-219 | The exchange sort keeps the listed variables and puts them in order of last occurrence |
| VarProc.ComputeCallEnvSizes | core/alsp_src/generic/varproc.c:238-257 | The size kept over each call is the number of permanent variables that occur after it |
| VarProc.PlaceIsKept | core/alsp_src/generic/varproc.c:210-257 | A permanent variable that occurs after a goal has its place in the part that is kept over it |
| VarProc.KeptShrinks | core/alsp_src/generic/varproc.c:238-257 | Less and less is kept |
| VarProc.AllKeptFirst | core/alsp_src/generic/varproc.c:238-257 | Over the first call all permanent variables are kept |
| VarProc.PermanentExactly | core/alsp_src/generic/varproc.c:195-229 | Permanent are exactly the variables that are no argument of the head and occur in two parts of the clause, of which one is the second goal or a later one |
| VarProc.KeptExactly | core/alsp_src/generic/varproc.c:238-257 | A place is kept over a call exactly if its variable occurs in a later goal |
| VarProc.SpanAt | core/alsp_src/generic/varproc.c:129-144 | First and last occurrence and the number of occurrences up to any goal determine each other |
| GoalCompiler.Compiler.CompGoal | core/alsp_src/generic/compile.c:2015-2137 | After the emitted code has run, every argument cell stands for its argument exactly when nothing was pushed into an open structure; variables do in any case, and otherwise some structure provably does not. From a settled entry something is pushed exactly when `GoalCollides` on entry; a variable whose environment a choice point protects is never pushed. Every variable needed later is at the home it had, with its value; all occurrences are used up; the invariant holds for the next goal |
| Wam.DenotesList | core/alsp_src/generic/compile.c:2235-2251 | A list is in a list cell whose address names the cell of the head, the tail lying in the next one, and in no other cell |
| Wam.DenotesStruct | core/alsp_src/generic/compile.c:2252-2267 | A structure is in a structure cell whose address names the functor, with the arguments in order behind it, and in no other cell |
| Wam.RefutesList | core/alsp_src/generic/winter.h:170-171 | What is definitely another list differs in the head's or in the tail's cell |
| Wam.RefutesStruct | core/alsp_src/generic/compile.c:2252-2267 | What is definitely another structure of this functor differs in one of the cells behind it |
| GoalCompiler.Compiler.PutNonVariable | core/alsp_src/generic/compile.c:2033-2060 | One non-variable argument is set up without disturbing those finished before |
| GoalCompiler.Compiler.PutVariable | core/alsp_src/generic/compile.c:2066-2136 | One variable argument is set up without disturbing those finished before |
| GoalCompiler.Compiler.CompVarArg | core/alsp_src/generic/compile.c:2074-2135 | A variable argument: free the cell, then create, copy or find in place; the cell holds the value for good |
| GoalCompiler.Compiler.PutFirstPermanent | core/alsp_src/generic/compile.c:2084-2093 | First occurrence of a permanent variable as an argument: one new variable in environment and argument cell |
| GoalCompiler.Compiler.PutFirstTemporary | core/alsp_src/generic/compile.c:2094-2099 | First occurrence of a temporary as an argument: the argument cell becomes its home |
| GoalCompiler.Compiler.PutCopy | core/alsp_src/generic/compile.c:2102-2130 | A variable with a value is copied from its home, which moves to the argument cell at the last goal |
| GoalCompiler.Compiler.CompConstant | core/alsp_src/generic/compile.c:2042-2051 | An integer or symbol argument |
| GoalCompiler.Compiler.CompGoalStructure | core/alsp_src/generic/compile.c:2206-2270 | A term of any depth is built in the given cell or a new temporary: the cell stands for the term unless something was pushed into an open structure, and then it provably does not; other built terms and finished arguments stay |
| GoalCompiler.Compiler.GatherKids | core/alsp_src/generic/compile.c:2237-2252 | Compound subterms are built first, last one first, each in a temporary of its own |
| GoalCompiler.Compiler.CompStructArg1 | core/alsp_src/generic/compile.c:2273-2289 | A subterm is built beforehand exactly when it needs a structure of its own |
| GoalCompiler.Compiler.CompStructArg2 | core/alsp_src/generic/compile.c:2292-2338 | One slot is filled: with the subterm built before, or with a variable or constant |
| GoalCompiler.Compiler.FillStructure | core/alsp_src/generic/compile.c:2245-2266 | All slots are filled in order, temporaries are given back, the structure is finished |
| GoalCompiler.Compiler.StructVar | core/alsp_src/generic/compile.c:2311-2331 | A variable in a slot: void, first use or later use, one heap cell that stands for it; something else is pushed exactly when it has no home and the chain from its target ends at or above a local variable in danger |
| GoalCompiler.Compiler.UseFirst | core/alsp_src/generic/compile.c:2318-2321 | First use: a new variable in the slot and in the home |
| GoalCompiler.Compiler.UseLater | core/alsp_src/generic/compile.c:2322-2330 | Later use: the value at home goes to the slot, the last use frees the home |
| GoalCompiler.Compiler.FindHome | core/alsp_src/generic/compile.c:1782-1798 | A home at the target once that is freed, otherwise in a temporary; values do not move; the heap grows exactly when the chain from the target ends at or above a local variable in danger |
| GoalCompiler.Compiler.FindTemp | core/alsp_src/generic/compile.c:1807-1830 | A cell between SP and its start that nothing uses, or a new one below SP |
| GoalCompiler.Compiler.FreeTarget | core/alsp_src/generic/compile.c:1862-1955 | Always succeeds and terminates: the cell is vacated or taken by the variable meant for it, homes move, values do not, finished arguments and built terms stay, the to-do stack is as before; the heap grows exactly when the chain ends at a permanent variable at or above one in danger |
| GoalCompiler.Compiler.FollowChain | core/alsp_src/generic/compile.c:1874-1941 | The chain of displaced temporaries, ended by a free cell, a permanent variable or the way back to the start |
| GoalCompiler.Compiler.Settle | core/alsp_src/generic/compile.c:1943-1953 | One step back along the chain: the variable takes the cell that was freed for it |
| GoalCompiler.Compiler.MovePerms | core/alsp_src/generic/compile.c:1958-1992 | Every permanent variable at home from the cell down to the end of the environment becomes a temporary with its value kept; the heap grows exactly when one of them is in danger |
| GoalCompiler.Compiler.EvictPerm | core/alsp_src/generic/compile.c:1966-1991 | One permanent variable goes to its argument position if that is free, otherwise to a temporary; the heap grows exactly when it is in danger |
| GoalCompiler.Compiler.MoveToTemp | core/alsp_src/generic/compile.c:1995-2006 | The variable at home in a cell moves to a temporary with its value |
| GoalCompiler.Compiler.MoveCell | core/alsp_src/generic/compile.c:1766-1776 | The emitted move copies the run-time cell, and is left out exactly when source and destination coincide for a temporary |
| GoalCompiler.Compiler.OperandAddress | core/alsp_src/generic/compile.c:1731-1764 | The register and displacement chosen for a model cell address its run-time cell |
| GoalModel.ShufflesKeepValues | core/alsp_src/generic/compile.c:1862-2006 | However homes are shuffled, a variable with uses left is found at its new home with its old value |
| GoalModel.LiveAtHome | core/alsp_src/generic/compile.c:1862-2006 | Under the invariant a variable with uses left is at its recorded home |
| GoalModel.ChainFresh | core/alsp_src/generic/compile.c:1919-1933 | A chain of displaced variables never meets a variable twice, because targets are distinct |
| GoalModel.ChainShort | core/alsp_src/generic/compile.c:1874-1941 | So a chain is no longer than the number of variables |
| GoalModel.ChainEnd | core/alsp_src/generic/compile.c:1919-1933 | The cell a chain leads to is open, and vacant once freed |
| GoalModel.SettleKeeps | core/alsp_src/generic/compile.c:1943-1953 | Settling the last variable of a chain keeps the invariant and vacates the cell of the one before |
| GoalModel.RelocateInv | core/alsp_src/generic/compile.c:1943-2006 | A variable that leaves its home for a vacant cell keeps the invariant |
| GoalModel.EvictKeeps | core/alsp_src/generic/compile.c:1966-1991 | Setting a permanent variable aside keeps the invariant, values, other temporaries and freed cells |
| GoalModel.TargetsInjective | core/alsp_src/generic/compile.c:1429-1451 | Under the invariant distinct variables have distinct targets |
| GoalModel.TargetVacant | core/alsp_src/generic/compile.c:1789-1790 | A variable without a home can only find its target vacated |
| GoalModel.NeededIsHome | core/alsp_src/generic/compile.c:1787-1790 | While only non-variable arguments are finished, a variable with uses left is at home or unused |
| GoalModel.FilledInv | core/alsp_src/generic/compile.c:2214-2260 | Putting a built term into a vacant cell keeps the invariant |
| GoalModel.FirstUsedInv | core/alsp_src/generic/compile.c:2318-2321 | The first use of a variable in a structure keeps the invariant |
| GoalModel.LaterUsedInv | core/alsp_src/generic/compile.c:2322-2330 | A later use keeps the invariant, also when it frees the home |
| GoalModel.PutYInv | core/alsp_src/generic/compile.c:2086-2093 | The instruction that does not record the argument in the model keeps the invariant, because finished arguments are tracked apart |
| GoalModel.PutXInv | core/alsp_src/generic/compile.c:2094-2099 | The same for a temporary |
| GoalModel.PutValueInv | core/alsp_src/generic/compile.c:2102-2130 | Copying a variable into its argument cell keeps the invariant, and the copy is the value |
| GoalModel.InPlaceInv | core/alsp_src/generic/compile.c:2132-2134 | Only counting the use is right when the variable is already there |
| GoalModel.BindFresh | core/alsp_src/generic/compile.c:2084-2099 | A variable that gets its value during set-up stands for a machine variable of its own |
| GoalModel.KidReleased | core/alsp_src/generic/compile.c:2299-2302 | Giving back the temporary of a subterm keeps the others |
| GoalBuild.FillLeaf | core/alsp_src/generic/compile.c:2304-2331 | A slot filled with a variable is right, or something was pushed and the slot is wrong from then on |
| GoalBuild.FillBuilt | core/alsp_src/generic/compile.c:2299-2302 | A slot filled with a subterm built before is right |
| GoalBuild.AllFilled | core/alsp_src/generic/compile.c:2256-2266 | A structure whose slots are right stands for the term; one with a wrong slot does not |
| GoalBuild.GoalResult | core/alsp_src/generic/compile.c:2015-2137 | All arguments are right exactly when nothing was pushed into an open structure; otherwise variables are right and some structure is wrong |
| GoalBuild.Survives | core/alsp_src/generic/compile.c:2015-2137 | A variable needed after the goal is still where it was, with its value |
| GoalSpill.SpillsExactly | core/alsp_src/generic/compile.c:1782-2006 | Followed event by event, something is pushed into an open structure exactly when two variables collide, which is told from the state before the first event |
| GoalSpill.EntryIsProper | core/alsp_src/generic/compile.c:2015-2137 | Every entry that meets the demands is one for which that can be told |
| GoalSpill.CollisionSpills | core/alsp_src/generic/compile.c:2015-2060 | What happened to a whole goal is what `GoalCollides` says on entry |
| GoalSpill.StillThere | core/alsp_src/generic/compile.c:1958-1992 | As long as nothing has been pushed, a variable in danger that is still local is still at home |
| GoalSpill.BuildCount | core/alsp_src/generic/compile.c:2206-2270 | The events of a term use each variable as often as it occurs |
| GoalDanger.PermClears | core/alsp_src/generic/compile.c:1966-1991 | Setting one permanent variable aside changes its cell, and makes exactly its value global if it has to be made safe |
| GoalDanger.ClearedTwice | core/alsp_src/generic/compile.c:1964-1991 | Evicting from the top down cell by cell is evicting the whole range: the same variables leave, and something is pushed in the one case exactly when in the other |
| GoalDanger.Unwound | core/alsp_src/generic/compile.c:1943-1953 | Unwinding a chain evicts nobody |
| GoalDanger.StopSettled | core/alsp_src/generic/compile.c:1874-1941 | In a settled state a freed cell evicts exactly those at or below it, and only if a permanent variable is at home in it |
| GoalDanger.LaterUsedKeeps | core/alsp_src/generic/compile.c:2322-2330 | A later use makes the value global if it may still be local, and the last one frees the home |
| GoalUnsafe.FlagIsTold | core/alsp_src/generic/compile.c:2015-2137 | Over a whole goal, a variable still needed after it has to be made safe exactly if it had to before and was not met first in a structure |
| GoalUnsafe.ShuffledMark | core/alsp_src/generic/compile.c:1874-1992 | Freeing cells makes no new variable safe but those it evicts |
| GoalUnsafe.MarkedHalfway | core/alsp_src/generic/compile.c:2320-2323 | Variables first met in structures need not be made safe |
| GoalUnsafe.NeededIsPermanent | core/alsp_src/generic/compile.c:1958-1992 | A permanent variable needed after a goal has kept its place |
| GoalExample.FirstArgumentIsWrong | core/alsp_src/generic/compile.c:1979-1983 | The compiler, set up for a goal that meets every demand on entry, emits code that pushes a variable into an open structure and sets up a first argument that is not f(X) |
| GoalExample.CollidesIfExposed | core/alsp_src/generic/compile.c:1979-1983 | Wherever its arguments begin, this goal goes wrong exactly if Y is still exposed |
| GoalExample.StartCollides | core/alsp_src/generic/compile.c:1979-1983 | X is meant for the environment cell of Y, which still has to be made safe: the entry collides |
| GoalExample.StartIsValid | core/alsp_src/generic/compile.c:2015-2137 | The demands on entry can be met |
| GoalTargets.InitOnlyTargets | core/alsp_src/generic/compile.c:1429-1451 | Each variable of the goal is meant for the first argument cell it occurs in, older targets being cleared; distinct variables get distinct targets |
| GoalTargets.FirstCellIsFirst | core/alsp_src/generic/compile.c:1442-1450 | The target is the first occurrence, and 0 exactly when there is none |
| GoalTargets.FirstCellsDiffer | core/alsp_src/generic/compile.c:1442-1450 | Different variables are meant for different cells |
| HeadCompiler.Compiler.CompileHead | core/alsp_src/generic/compile.c:1503-1574 | The emitted code unifies the arguments with the head: the final solutions are exactly those that make the arguments an instance of the head, all occurrences are used up, each variable still needed is at home with its value, and nothing on the heap refers to the stack; on ground arguments it fails exactly when they are no instance of the head |
| HeadCompiler.Compiler.InitModel | core/alsp_src/generic/compile.c:1098-1179 | A variable argument is at home in its first place, which solves that argument's equation; permanent variables are at home in the environment; counts are right |
| HeadCompiler.Compiler.RecordArguments | core/alsp_src/generic/compile.c:1148-1160 | The loop records every argument, and gives each variable the first cell it occurs in |
| HeadCompiler.Compiler.CompHead | core/alsp_src/generic/compile.c:1517-1573 | The loop over the arguments solves all equations, loses and gains no solution, and uses up every occurrence |
| HeadCompiler.Compiler.CompHeadArg | core/alsp_src/generic/compile.c:1517-1570 | One argument solves its own equation and no other |
| HeadCompiler.Compiler.ArgAgain | core/alsp_src/generic/compile.c:1546-1552 | A variable met before as an argument is unified with its home |
| HeadCompiler.Compiler.CompHeadStructure | core/alsp_src/generic/compile.c:1616-1664 | A term of any depth is matched with the cell it is recorded for: exactly its equation is solved, other terms that wait stay where they are, the to-do stack is as before |
| HeadCompiler.Compiler.FillSlots | core/alsp_src/generic/compile.c:1640-1658 | The first instruction and the slots solve the structure's equation up to those of its subterms, each of which is put in a temporary of its own |
| HeadCompiler.Compiler.MatchKids | core/alsp_src/generic/compile.c:1660-1662 | The subterms on the to-do stack are matched one after the other, none disturbing another |
| HeadCompiler.Compiler.CompHstructArgument | core/alsp_src/generic/compile.c:1673-1723 | One slot, whatever is in it, in read and in write mode |
| HeadCompiler.Compiler.SlotFirst | core/alsp_src/generic/compile.c:1704-1714 | First occurrence: the home gets the slot's cell or a new variable, which need not be unsafe any more |
| HeadCompiler.Compiler.SlotLater | core/alsp_src/generic/compile.c:1710-1719 | Later occurrence: the value is unified with the slot or pushed, an unsafe one by way of the heap; the last use frees the home |
| HeadCompiler.Compiler.SlotVoid | core/alsp_src/generic/compile.c:1698-1701 | A variable that occurs nowhere else |
| HeadCompiler.Compiler.FindHome | core/alsp_src/generic/compile.c:1782-1798 | In the head a variable's target is always free while it has no home |
| HeadTheorem.HeadIsSound | core/alsp_src/generic/compile.c:1503-1574 | Every solution at the end makes the arguments the instance of the head that the variables' cells spell out |
| HeadTheorem.HeadIsComplete | core/alsp_src/generic/compile.c:1503-1574 | Every way to make the arguments an instance of the head is a solution at the end, up to new variables; in particular there is no failure |
| HeadTheorem.SucceedsOnInstances | core/alsp_src/generic/compile.c:1503-1723 | On ground arguments the code succeeds exactly when they are an instance of the head, and changes neither heap nor bindings |
| HeadTheorem.DecidesInstances | core/alsp_src/generic/compile.c:1503-1723 | So for all ground arguments at once: failure exactly when there is no instance |
| HeadTheorem.VariablesHoldSubterms | core/alsp_src/generic/compile.c:1503-1723 | Each variable then stands for the subterm it matches |
| HeadMachine.StandsList | core/alsp_src/generic/winter.h:170-171 | The value of a list cell is the list of the values of the cell its address names and of the next one |
| HeadMachine.StandsStruct | core/alsp_src/generic/winter.c:234-247 | The value of a structure cell has the values of the cells behind the functor as its arguments |
| HeadMachine.GroundList | core/alsp_src/generic/winter.h:170-171 | So for cells without unbound variables, wherever their references lead |
| HeadMachine.GroundStruct | core/alsp_src/generic/winter.c:234-247 | So for structures |
| HeadLogic.ConstSolved | core/alsp_src/port/wam.c:1278-1331 | A constant, compared or bound, solves its equation; symbols and strings with one text are one atom |
| HeadLogic.UnifySolved | core/alsp_src/port/wam.c:1202-1206 | Unifying a cell with a variable's value solves the equation between them |
| HeadLogic.FirstSeen | core/alsp_src/port/wam.c:1396-1400 | Taking a slot as the value of a new head variable loses and gains nothing |
| HeadLogic.OpenedSame | core/alsp_src/port/wam.c:1269-1276 | In read mode a structure's equation is those of its slots |
| HeadLogic.NoMatch | core/alsp_src/port/wam.c:1269-1273 | Failing on another structure is right |
| HeadLogic.ClosedSame | core/alsp_src/port/wam.c:1259-1267 | A structure that was built for an unbound variable, with slots filled through bindings made meanwhile, solves its equation |
| HeadLogic.NoCycle | core/alsp_src/port/wam.c:1259-1267 | No finite solution has a variable that stands for a part of itself |
| HeadLogic.SameTrans | core/alsp_src/generic/compile.c:1503-1574 | Steps that neither lose nor gain solutions compose, new variables included |
| HeadFill.FillLater | core/alsp_src/port/wam.c:1511-1528 | A later occurrence in a slot keeps what is known about the structure, in both modes; pushing it leaves no reference from heap to stack |
| HeadFill.FillFirst | core/alsp_src/port/wam.c:1396-1440 | So does a first occurrence |
| HeadFill.FillKid | core/alsp_src/generic/compile.c:1687-1697 | So does putting a subterm aside, whose equation is kept for later |
| HeadFill.FillConst | core/alsp_src/port/wam.c:1465-1509 | So does a constant |
| HeadModel.LaterUsedInv | core/alsp_src/generic/compile.c:1710-1719 | A later occurrence keeps the invariant between table, model and machine |
| HeadModel.FirstUsedInv | core/alsp_src/generic/compile.c:1704-1719 | So does a first one |
| HeadExample.MatchesIfSame | core/alsp_src/generic/compile.c:1503-1574 | The code for p(f(X,X),Y), run on a structure of two integers, succeeds exactly when they are the same |
| HeadExample.StartIsValid | core/alsp_src/generic/compile.c:1503-1574 | The demands on entry can be met |
| HeadUnify.UnifierExists | core/alsp_src/port/wam.c:1202-1206 | What is demanded of unification can be had for every state |
| HeadUnify.JoinCells | core/alsp_src/port/wam.c:1202-1206 | Two cells with a common value can be made equal by bindings that lose no solution in which they are equal; no variable of the heap is bound to one of the stack |
| FirstGoal.HeadReadiesFirstGoal | core/alsp_src/generic/compile.c:1228-1236 | After the head has matched, the invariant that argument set-up demands for the first goal holds, and exactly the goal's occurrences are left; a temporary that lies in an argument cell lies in its own |
| NextGoal.GoalReadiesNext | core/alsp_src/generic/compile.c:465-626 | After a goal has been set up and called and the environment trimmed, the invariant holds for the next goal with exactly its occurrences left, and every temporary in an argument cell is in its own |
| EngineMemory.Engine.SizePrologEngine | core/alsp_src/generic/engine.c:849-883 | Stack and heap get new sizes; whatever is written over the trail, if one is left that can be followed, the memory is in order again, registers lie where they lay and the layout is the one asked for; every cell of stack and heap holds the same term, read by tags, sharing included; choice points and trail entries are the same, with the same terms, exactly when the trail words that can be told from outside are not written over with others, and so is the view of all of the memory; the globals in use keep their values, and the terms they hold, exactly when each is told on entry to |
| EngineTerms.TermsExactly | core/alsp_src/generic/engine.c:788-847 | After a resize every cell of stack and heap holds the same term at any depth; choice points and trail entries do exactly when the words looked at are kept, the globals exactly when their values are |
| EngineTerms.ReadKept | core/alsp_src/generic/engine.c:749-786 | A term is read the same, to any depth, wherever its memory has been carried |
| EngineTerms.RelocationCarries | core/alsp_src/generic/engine.c:807-822 | Every word of stack and heap has been carried: constants as they are, addresses of the memory in use by the distance it moved, all others as they are; objects start where they did |
| EngineTerms.RowMoved | core/alsp_src/generic/engine.c:818-822 | The objects of the rewritten heap are those of the old one, each with its words |
| EngineTerms.OverlaidCarries | core/alsp_src/generic/engine.c:722-747 | What is written over the trail touches no word of stack and heap |
| EngineTerms.PointsExactly | core/alsp_src/generic/engine.c:824-831 | The choice points read from the new memory are those of the old one exactly when the trail words looked at are kept |
| EngineTerms.GlobalsRead | core/alsp_src/generic/engine.c:833-846 | A global that holds a constant or an address in use is read as the same term exactly when it has the value it had |
| EngineTerms.RegistersKept | core/alsp_src/generic/engine.c:794-805 | Every register of every set is as far from heap base or trail base as it was |
| EngineMemory.Engine.RelocatePrologMemory | core/alsp_src/generic/engine.c:788-847 | Saved registers, stack, heap, choice points, trail and globals are rewritten; entries older than the oldest choice point are not; the list of free globals is whole, those in use keep their values exactly when no pointer among them is missed |
| EngineMemory.Engine.MovePrologMemory | core/alsp_src/generic/engine.c:851-866 | In either order of reallocating and shifting, every word in use is copied as it is found when stack and heap have been moved; all are copied exactly when the trail is not written over with other words |
| EngineMemory.Engine.RelocateGlobals | core/alsp_src/generic/engine.c:833-846 | If any global is free, links move with the trail and other addresses with the heap, unless they look like links; if none is free nothing happens |
| EngineMemory.Engine.RelocateLinks | core/alsp_src/generic/engine.c:836-839 | The loop follows the links it rewrites, ends, and leaves the list whole in its new place |
| EngineGlobals.GlobalsExactly | core/alsp_src/generic/engine.c:833-846 | The globals in use keep their values exactly when the heap has not moved or there is a free one and no old address lies in the new place of the globals |
| EngineExample.GlobalIsLost | core/alsp_src/generic/engine.c:833-846 | An engine with 32 globals, none free, one of which still holds the old address after growing |
| EngineGlobals.ToldBefore | core/alsp_src/generic/engine.c:833-846 | From the memory before the resize it can be told exactly which globals will keep their values, also when they are written over |
| EngineMemory.Engine.RelocateStack | core/alsp_src/generic/engine.c:807-816 | Every stack cell from E on that holds an address of the old memory is rewritten, and no other |
| EngineMemory.Engine.RelocateHeap | core/alsp_src/generic/engine.c:818-822 | The heap is rewritten object by object; what lies inside a fence is untouched |
| EngineMemory.Engine.RelocateTrail | core/alsp_src/generic/engine.c:824-831 | Each choice point is rewritten once, with the entries below it |
| EngineMemory.Engine.RelocateSaved | core/alsp_src/generic/engine.c:794-805 | Every saved register set moves with the areas |
| EngineMemory.Engine.DoOffset | core/alsp_src/generic/engine.c:749-786 | A word with tag 0, 1 or 2 gets the offset added, one with tag 3 stays; the object it starts is as long as a fence says, or one cell |
| EngineMemory.Engine.ShiftPrologMemory | core/alsp_src/generic/engine.c:722-747 | The exact content of every cell after the two moves |
| EngineMemory.Engine.ResizePrologMemory | core/alsp_src/generic/engine.c:691-720 | The block is somewhere else with its content, everything as far from the base as before |
| EngineModel.RelocationMeansSame | core/alsp_src/generic/engine.c:788-847 | Moved and rewritten memory has the same view and is in order |
| EngineModel.HeapMeansSame | core/alsp_src/generic/engine.c:818-822 | A heap rewritten object by object is the same heap seen from its base |
| EngineModel.ChainMeansSame | core/alsp_src/generic/engine.c:824-831 | So is a trail with its choice points |
| EngineModel.StackMeansSame | core/alsp_src/generic/engine.c:807-816 | So is the stack, if foreign words stay foreign |
| EngineModel.RegsMeanSame | core/alsp_src/generic/engine.c:629-640 | The order of a register set holds again after the move |
| EngineModel.TrailIntact | core/alsp_src/generic/engine.c:729-730 | The areas come through exactly when the words moved onto the trail are its own |
| EngineModel.ViewExactly | core/alsp_src/generic/engine.c:729-730 | If what is written over the trail leaves it in order, it goes unnoticed exactly when the words that are looked at are the same |
| EngineModel.OverlaidInOrder | core/alsp_src/generic/engine.c:729-730 | If those words are the same, the trail is in order |
| EngineModel.ChainTells | core/alsp_src/generic/engine.c:824-831 | The same choice points are made of the same words: no word up to the oldest one can differ unseen |
| EngineModel.ClearIsKept | core/alsp_src/generic/engine.c:729-730 | It does when stack and heap end at or below its old top |
| EngineModel.ResizedKeeps | core/alsp_src/generic/engine.c:691-720 | Reallocation does not change what the shift will write over the trail |
| EngineExample.TrailIsLost | core/alsp_src/generic/engine.c:729-730 | An engine that fits its new sizes and is in order after growing, with another trail entry than before |
| EngineModel.GrowCopies | core/alsp_src/generic/engine.c:859-861 | Reallocating and then shifting copies every word in use as it is found |
| EngineModel.ShrinkCopies | core/alsp_src/generic/engine.c:864-866 | So does shifting and then reallocating |
| DbLists.Database.FixChain | core/alsp_src/generic/engine.c:392-400 | A list that ends in 0 becomes the same list of translated nodes; each link is translated exactly once and no other cell changes; the loop that follows the new links ends |
| DbLists.Database.FixCircle | core/alsp_src/generic/engine.c:429-439 | The circular list becomes the same circle of translated nodes in both directions, and the loop stops after one round |
| DbLists.Database.FixOffset | core/alsp_src/generic/engine.c:175-190 | The loop over the blocks translates an address of the old memory and leaves other words alone |
| DbLists.TranslateInjective | core/alsp_src/generic/engine.c:180-185 | Different cells of the old blocks go to different cells |
| DbLists.TranslateIs | core/alsp_src/generic/engine.c:180-185 | An address in an old block goes to the same place in the block's copy |
| DbLists.TranslateElse | core/alsp_src/generic/engine.c:186-190 | Any other word stays as it is |
| DbLists.ChainStep | core/alsp_src/generic/engine.c:397-399 | Rewriting one link neither touches another node's link nor loses the way to the next node |
| DbLists.CircleStep | core/alsp_src/generic/engine.c:434-437 | The same for both links of a node; the next node is the first again exactly when all are done |
| TermCopy.ConvertAndCopy | core/alsp_src/generic/butil.c:84-96 | Conversion followed by copying gives a variant of the term exactly when all names fit the buffer, and leaves the heap before it alone |
| TermCopy.LongNameIsCut | core/alsp_src/generic/expand.c:417-426 | A name of 512 characters is copied as one of 511, which is no variant |
| TermCopy.Converter.CvtWalk | core/alsp_src/generic/expand.c:365-426 | The converted term has the same shape and constants, each variable replaced by its place in the table; the table gains exactly the term's variables |
| TermCopy.Converter.CvtWalkList | core/alsp_src/generic/expand.c:388-399 | So for lists, in either order of walking the two parts |
| TermCopy.Converter.CvtWalkVar | core/alsp_src/generic/expand.c:440-454 | The search finds a known variable or adds it at the end; entries stay distinct |
| TermCopy.Copier.Hc | core/alsp_src/generic/butil.c:28-82 | The copy consists of new cells and stands for the term; one new variable for each number met |
| TermCopy.Copier.HcCompound | core/alsp_src/generic/butil.c:45-60 | Slots are set aside first and filled while further cells are allocated behind them; the result stands for the term |
| TermCopy.BuiltDenotes | core/alsp_src/generic/butil.c:45-60 | What was built stands for the term |
| TermCopy.BuiltStays | core/alsp_src/generic/butil.c:50-60 | Filling a slot below what was built does not disturb it |
| TermCopy.CopyDenotes | core/alsp_src/generic/expand.c:365-454 | If no name is cut, the copy stands for the original with each variable renamed |
| TermCopy.CopyKeepsNames | core/alsp_src/generic/expand.c:417-426 | If a name is cut, it does not, for any renaming |
| Numerals.StringToNumber | core/alsp_src/generic/bparser.c:30-156 | Accepts exactly the strings that the scan accepts, and gives the numeral's exact value with its sign |
| Numerals.AcceptsNumerals | core/alsp_src/generic/bparser.c:30-156 | Those are exactly the texts of numerals, with a minus sign or without |
| Numerals.PowerOfTen | core/alsp_src/generic/bparser.c:127-138 | Square and multiply computes the power, and ends |
| Numerals.ScaledBack | core/alsp_src/generic/bparser.c:74-92 | Reading on through the point and dividing once is adding the fraction |
| Numerals.FoldFraction | core/alsp_src/generic/bsio.c:4583-4589 | The fold from the right is the fraction |
| Numerals.ExponentMovesPoint | core/alsp_src/generic/bparser.c:113-145 | An exponent moves the point to the right by as many digits as it says, one with a minus sign to the left |
| Numerals.ExponentMakesInteger | core/alsp_src/generic/bparser.c:142-145 | A numeral whose exponent takes in all digits behind the point is the integer of all its digits |
| Numerals.Decimal | core/alsp_src/generic/bsio.c:4558-4635 | The value and the end of the longest numeral; refused exactly when the text may go on |
| Numerals.ReadersAgree | core/alsp_src/generic/bsio.c:4558-4635 | Both readers take the same number from a numeral, except from one with a bare point |
| Numerals.IntegerRoundTrip | core/alsp_src/generic/bparser.c:30-156 | A printed integer is read back as itself |
| HeapSafety.NeverDangles | core/alsp_src/generic/bmeta.c:153-210 | In every run of the steps no heap cell below H points at or above H |
| HeapSafety.NextInv | core/alsp_src/generic/bmeta.c:153-210 | Every step keeps the invariant that backtracking to any choice point leaves the cells below its HB pointing below it |
| HeapSafety.MangleInv | core/alsp_src/generic/bmeta.c:192-209 | Mangling keeps the invariant: HB values are raised far enough |
| HeapSafety.RaiseInv | core/alsp_src/generic/bmeta.c:202-208 | Raising the choice points down to the slot makes the whole chain safe |
| HeapSafety.RaisedFrom | core/alsp_src/generic/bmeta.c:204-208 | The choice points raised are the newest ones, down to the first below the slot |
| HeapSafety.MangleExactly | core/alsp_src/generic/bmeta.c:150-210 | Mangling replaces one word and trails nothing; HB and the choice points that do not lie below the slot go to the top of the heap exactly if the new word is an address above the slot |
| HeapSafety.TrailedMangleInv | core/alsp_src/generic/bmeta.c:256-415 | Mangling with the old word trailed keeps the invariant |
| HeapSafety.TrailedMangleExactly | core/alsp_src/generic/bmeta.c:256-415 | The trailed form puts the slot with its old word on the trail, and raises them exactly if the new word is an address and it or what the old one stands for is an object above the slot |
| HeapSafety.DerefFollows | core/alsp_src/generic/winter.c:98-111 | A chain of bound variables of any length is followed to its end |
| HeapSafety.DelayInv | core/alsp_src/generic/freeze.c:97-188 | Binding a variable upwards to a new delay term keeps the invariant |
| HeapSafety.RetryInv | core/alsp_src/port/wam.c:1768-1776 | Unwinding the trail and cutting the heap back keeps the invariant |
| HeapSafety.TrustInv | core/alsp_src/port/wam.c:1778-1788 | So does dropping the newest choice point |
| HeapSafety.CutInv | core/alsp_src/port/wam.c:1860-1905 | So does dropping choice points and compacting the trail |
| HeapSafety.UnwindCompacted | core/alsp_src/port/wam.c:1890-1905 | Compaction drops no trail entry that matters below the remaining HB |
| HeapSafety.CompactedExactly | core/alsp_src/port/wam.c:1890-1905 | Of the entries behind the choice point exactly those for cells below the remaining HB are kept |
| HeapSafety.BindInv | core/alsp_src/port/wam.c:360-366 | Trailing exactly the cells below HB is enough |
| HeapRestore.BacktrackingRestores | core/alsp_src/generic/bmeta.c:256-334 | With value trailing, backtracking restores the heap a choice point was made with, word for word |
| HeapRestore.ExactRun | core/alsp_src/generic/bmeta.c:256-334 | Over a whole run every choice point stays restorable to its own snapshot |
| HeapRestore.ExactNext | core/alsp_src/generic/bmeta.c:256-334 | So over one step |
| HeapUpdate.Store.PbiMangle | core/alsp_src/generic/bmeta.c:115-212 | Succeeds exactly if the number is an integer, the new argument is bound and there is an argument of that number; then that argument is the new one, all other arguments and cells are as before, and the HB values are raised; otherwise nothing changes |
| HeapUpdate.Store.TrailedMangle0 | core/alsp_src/generic/bmeta.c:256-417 | Succeeds exactly if there is an argument of that number, which is then the new one, all other arguments and cells being as before; the slot is trailed first, and the old word decides too whether HB values are raised; a variable decides nothing |
| HeapUpdate.Store.PbiArg | core/alsp_src/generic/bmeta.c:43-98 | The errors in the order the source finds them; otherwise what argument ArgN stands for, or failure if there is none |
| HeapUpdate.ReplacedWhere | core/alsp_src/generic/bmeta.c:103-147 | Of a list argument 1 is the cell its address names and 2 the next one; argument N of a structure is N cells behind the functor, one more if its arity takes a cell of its own; that cell is the one that changes |
| HeapUpdate.SlotIsArgument | core/alsp_src/generic/bmeta.c:132-147 | There is a slot for each argument and for no other number, and it holds the argument |
| HeapUpdate.ArgumentReplaced | core/alsp_src/generic/bmeta.c:150 | Writing to the slot replaces that argument and nothing else |
| HeapUpdate.Store.RaiseHB | core/alsp_src/generic/bmeta.c:202-208 | The loop over the choice points raises exactly those |
| HeapUpdate.Store.PbiDelay | core/alsp_src/generic/freeze.c:59-188 | The delay term has two new variables, the module and the goal as its arguments, in this order; the variable is bound to the first, after being trailed, all older cells are as before, and all HB values are at the top of the heap |
| HeapUpdate.Store.UpdateChptSlots | core/alsp_src/generic/freeze.c:389-405 | All choice points and HB get the value |
| HeapUpdate.Store.UnwindTrail | core/alsp_src/port/wam.c:550-559 | The loop puts back what was trailed, most recent first |
| HeapUpdate.Store.DoRetry | core/alsp_src/port/wam.c:1768-1776 | Trail unwound and cut, heap cut back to HB |
| HeapUpdate.Store.DoTrust | core/alsp_src/port/wam.c:1778-1788 | The same, and the newest choice point goes |
| HeapUpdate.Store.DoCut | core/alsp_src/port/wam.c:1871-1905 | The loop keeps the entries that are still needed, in order |
| LineReader.Stream.GetLines | core/alsp_src/generic/bsio.c:6539-6605 | Reading to the end gives the lines of the text for every way it is delivered, and counts their ends: no line holds the mode's end-of-line (line feed, carriage return, or one behind the other), and joined by it, with or without one at the end, they are the text; in the mode for all of them no line holds a carriage return or line feed, and the ends are single ones or pairs, each as long as can be |
| LineReader.Stream.GetLine | core/alsp_src/builtins/sio.pro:3930-3948 | The next line, pieced together across refills; none exactly at the end |
| LineReader.Stream.GetLine0 | core/alsp_src/builtins/sio.pro:3950-3962 | A piece of a line, the buffer being refilled as often as needed; terminates |
| LineReader.Stream.SioReadln | core/alsp_src/generic/bsio.c:6539-6605 | The whole line with its end, a non-empty piece of it, or a demand for more; a line feed that is still to come is remembered; lines and columns are counted |
| LineReader.Stream.GetEoln | core/alsp_src/generic/bsio.c:4242-4273 | The length of the longest end-of-line of the mode at this place, 0 if there is none, -1 exactly at the end of the buffer and for a carriage return there that a line feed may follow |
| LineReader.Stream.SkipTrailingLf | core/alsp_src/generic/bsio.c:4285-4294 | Skips the line feed that belongs to the last end-of-line, and nothing else |
| LineReader.Stream.ShiftBuffer | core/alsp_src/generic/bsio.c:3127-3142 | What is left moves to the front; position and content stay |
| LineReader.Stream.SioReadbuffer | core/alsp_src/generic/bsio.c:3818-3976 | Appends what is delivered; fails exactly after the end of the file; a full buffer is taken for the end of the file, and the stream is in order exactly when that was not so or nothing was left |
| LineReader.LinesAreAll | core/alsp_src/generic/bsio.c:6521-6537 | Lines and ends-of-line together are the text, and no line holds an end-of-line |
| LineReader.LinesSplit | core/alsp_src/generic/bsio.c:4247-4256 | In the three modes with one end-of-line no line holds it, and the lines joined by it are the text, with one more at the end or without |
| LineReader.LinesSplitAnywhere | core/alsp_src/generic/bsio.c:4257-4265 | In the fourth no line holds a carriage return or a line feed, and every end between two lines is one of them or a carriage return with its line feed |
| LineReader.EolIsEnd | core/alsp_src/generic/bsio.c:4230-4273 | The end-of-line found is the longest of the mode that starts there |
| LineReader.LinesCounted | core/alsp_src/generic/bsio.c:6586-6594 | Counted are all lines but a last one that no end-of-line ends |
| LineReader.LinePieces | core/alsp_src/builtins/sio.pro:3933-3948 | A line may be taken in two pieces |
| LineReader.EolnMeans | core/alsp_src/generic/bsio.c:4230-4273 | What the buffer tells agrees with the whole text |
| LineReader.Taken | core/alsp_src/generic/bsio.c:4256-4263 | Remembering a carriage return makes up for a line feed in the next buffer |
| AtomQuoting.QuotedRoundTrip | core/alsp_src/generic/bsio.c:5906-6043 | An atom written in quotes and read back is the same atom exactly when no octal escape runs into an octal digit |
| AtomQuoting.EscapeRunsOn | core/alsp_src/generic/bsio.c:5993-6034 | Character 1 before the digit 1 is written '\0011' and read back as a tab |
| AtomQuoting.ScanQuoted | core/alsp_src/generic/bsio.c:4687-4822 | Reading stops at the closing quote with the atom as read back |
| AtomQuoting.ReadBackShort | core/alsp_src/generic/bsio.c:4447-4452 | Octal escapes that run on shorten the atom, all others leave it as it is |
| AtomQuoting.ItemQuoted | core/alsp_src/generic/bsio.c:4637-4683 | Each character is read back from its escape |
| AtomQuoting.ScanWritten | core/alsp_src/generic/bsio.c:4687-4822 | What was written is read back, whatever follows that is no octal digit |
| AtomReading.HexEscape | core/alsp_src/generic/bsio.c:4456-4483 | A byte written in hexadecimal, in letters of either case and with any number of leading zeros, is read as that byte |
| AtomReading.OctalEscape | core/alsp_src/generic/bsio.c:4437-4453 | So is one written in octal |
| AtomReading.LetterEscape | core/alsp_src/generic/bsio.c:4637-4683 | The seven letters stand for their control characters, any other character for itself |
| AtomReading.QuoteItem | core/alsp_src/generic/bsio.c:4735-4746 | A quote closes the atom, two are one character, one at the end of the buffer has to wait |
| AtomReading.PlainItem | core/alsp_src/generic/bsio.c:4749-4762 | An end-of-line that is not behind a backslash is an error, what may become one has to wait, any other character stands for itself |
| AtomReading.ContinuedItem | core/alsp_src/generic/bsio.c:4711-4721 | An end-of-line behind a backslash is passed over |
| AtomReading.UnterminatedExactly | core/alsp_src/generic/bsio.c:4706-4763 | A quoted atom is an error exactly if the scan meets an end-of-line that no backslash goes before |
| AtomReading.RawEndIsError | core/alsp_src/generic/bsio.c:4749-4758 | An end-of-line put anywhere into a written atom makes it an error |
| AtomReading.ContinuedLine | core/alsp_src/generic/bsio.c:4783-4787 | Behind a backslash it does not: both parts are read as one atom |
| AtomReading.PlainIsRead | core/alsp_src/generic/bsio.c:5099-5118 | An atom that is written without quotes is read back by the lexer as that symbol, before any character that does not go on with it |
| AtomQuoting.SioQatom | core/alsp_src/generic/bsio.c:5906-6043 | As it is when that needs no quotes, otherwise in quotes; the count is the length |
| AtomQuoting.PlainExactly | core/alsp_src/generic/bsio.c:5927-5965 | Without quotes go exactly the words that start with a small letter, what consists of graphic characters without a point and the start of a comment, and two more atoms |
| AtomQuoting.PutQuoted | core/alsp_src/generic/bsio.c:5993-6034 | The loop writes the escapes of all characters between quotes |
| AtomQuoting.CountQuoted | core/alsp_src/generic/bsio.c:5972-5988 | The loop counts them |
| QuotedAtoms.Lexer.QuotedAtom | core/alsp_src/generic/bsio.c:4687-4822 | The token, the place after it and the count are those of the text by the rules of the escapes, and the buffer is as before, exactly when no bare NUL stands in the atom; otherwise the atom comes out short; an error exactly for an end-of-line that no backslash goes before |
| QuotedAtoms.Lexer.FindEnd | core/alsp_src/generic/bsio.c:4702-4763 | The first pass finds the end and counts the characters |
| QuotedAtoms.Lexer.Decode | core/alsp_src/generic/bsio.c:4775-4803 | The second pass decodes up to the NUL put there, or stops short at a bare one before it |
| QuotedAtoms.SecondLook | core/alsp_src/generic/bsio.c:4783-4802 | The second pass takes the same steps as the first |
| QuotedAtoms.AtomWithNul | core/alsp_src/generic/bsio.c:4783-4802 | An atom with a NUL in the middle |
| SymbolTable.Table.LookupCSym | core/alsp_src/generic/cinterf.c:116-160 | The slot of the symbol, or the empty slot where its search ends; -1 only when the table is full without it; the search terminates |
| SymbolTable.Table.SymInsert | core/alsp_src/generic/cinterf.c:169-203 | The map with the symbol added or replaced; refused exactly when there is no room |
| SymbolTable.Table.Hash | core/alsp_src/generic/cinterf.c:122-148 | The loops compute start and stride |
| SymbolTable.ProbesCover | core/alsp_src/generic/cinterf.c:151-158 | A stride between 1 and the size less one visits every slot |
| SymbolTable.StrideInRange | core/alsp_src/generic/cinterf.c:127-148 | The stride is in that range, for one-character names too, signed characters included |
| SymbolTable.SizesArePrime | core/alsp_src/generic/cinterf.c:81-86 | Both sizes are prime, as the comment demands, and fit the strides of signed characters |
| SymbolTable.SearchIsRight | core/alsp_src/generic/cinterf.c:151-160 | A search that stops, stops at the slot of the symbol if it is there |
| SymbolTable.SearchIsExhaustive | core/alsp_src/generic/cinterf.c:151-158 | A search that comes back to its start has seen every slot |
| SymbolTable.InsertIsSound | core/alsp_src/generic/cinterf.c:175-203 | Writing an entry where its search ended keeps every other entry findable |
| TermOrder.TermcmpIsStandardOrder | core/alsp_src/generic/bmisc.c:28-184 | The sign of the comparison is the standard order, 0 meaning equal as terms with lists seen as structures |
| TermOrder.TermcmpIsTotalPreorder | core/alsp_src/generic/bmisc.c:28-184 | Reflexive, total, antisymmetric up to 0, transitive |
| TermOrder.ClassesInOrder | core/alsp_src/generic/bmisc.c:28-184 | Variables come before doubles, these before integers, these before atoms, these before compound terms |
| TermOrder.WithinClass | core/alsp_src/generic/bmisc.c:103-152 | Variables by age, numbers by value, atoms by text, be they symbols or strings |
| TermOrder.CompoundInOrder | core/alsp_src/generic/bmisc.c:153-168 | Compound terms by arity, then by name |
| TermOrder.ListsInOrder | core/alsp_src/generic/bmisc.c:160-176 | Two lists by their heads, then by their tails |
| TermOrder.StructsInOrder | core/alsp_src/generic/bmisc.c:160-176 | Two structures of one name and arity by the first argument that differs |
| TermOrder.KeyCmpIsOrder | core/alsp_src/generic/bmisc.c:160-176 | Comparing arguments from the left decides by the first that differs |
| TermOrder.PrecedesTransitive | core/alsp_src/generic/bmisc.c:28-184 | The order is transitive at any depth |
| TermOrder.StrcmpIsOrder | core/alsp_src/generic/bmisc.c:150-152 | Names are compared lexicographically |
| TermOrder.IdenticalExactly | core/alsp_src/generic/bmisc.c:206-293 | On terms without doubles the identity test holds exactly when the comparison gives 0 and both use the list form in the same places |
| TermOrder.IdenticalIsEqual | core/alsp_src/generic/bmisc.c:206-293 | The identity test agrees with the comparison on terms without doubles whose list cells are in list form |
| TermOrder.TwoFormsOfAList | core/alsp_src/generic/bmisc.c:206-293 | It never does on a list in its two forms, which compare as equal |

## Left out

- `ClauseCompile.CompileClause`: the last goal of a clause and clauses with a single goal, whose arguments overlap the head's or the environment (`compile.c:645-800`, `1238-1330`); cuts, cut macros and compiler directives, so that the first goal is the first that is not a cut. The sizes of the model and of the to-do stack, which the source never checks, are demanded. Goals without arguments are structures with none. What choice points do to the frames of a goal (`trim2`) is a parameter.
- `HeadCompiler.Compiler.CompHead`: the branch for an argument that is a variable without a value (`compile.c:1541-1544`) cannot be taken, because such a variable would be permanent; the record for first-argument indexing and the capture markers, which the portable code generator ignores, are not emitted.
- `HeadCompiler.Compiler.CompileHead`: the facts that `classify_vars` and `init_targets` compute are demanded on entry (`CompileClause` meets them); return address and previous environment are not treated as variables; the sizes of the stack model and the to-do stack are demanded, as for goals. The words of long strings on the heap are not modelled.
- `GoalCompiler.Compiler.FreeTarget`: the branches that cannot be taken without registers and overlap (`compile.c:1879-1885`, `1934-1940`) are not written out; with them the result 0 disappears.
- `GoalCompiler.Compiler.CompGoal`: the facts that `classify_vars` computes (exact occurrence counts, last goals, homes above the part of the environment that is cut off) are demanded on entry (`CompileClause` meets them); the sizes of the stack model and of the to-do stack, which the source never checks, are demanded too.
- Functors are one cell in `Wam` and `TermCopy`; that an arity of 255 or more takes a cell of its own is modelled in `HeapUpdate` and `EngineTerms` only.
- Variables are identities rather than self-references, so dereferencing chains, trailing and binding order at run time are not part of this model; doubles and the words of long strings in structures are not either.
- `EngineMemory.Engine.SizePrologEngine`: a resize after which the trail cannot be followed any more, where the source's loops run through arbitrary memory, is left out; so are the mark area, the memory protection and the exception machinery around the body.
- `DbLists.Database.FixCircle`: the translation of the code of clauses and of the tables of the database (`engine.c:402-425`, `455-500`), saving and loading state files.
- `HeapUpdate.Store.PbiDelay`: the final unification with the caller's argument is an ordinary binding step; interval arithmetic hooks in the binding macros are left out.
- Stack cells in the backtracking model: the machine re-initialises environment cells, so only the heap is claimed to be free of dangling addresses.
- `LineReader.Stream.SioReadbuffer`: streams that are not ready, interrupted reads, and seeking are left out.
- `AtomReading.PlainIsRead`: layout, numbers, strings, quoted atoms and brackets are other words here; atoms are interned by their text.
- `HeapUpdate.Store.PbiArg`: the unification of the argument found with the third argument of `arg`.
- `QuotedAtoms.Lexer.QuotedAtom`: looking the finished name up in the token table is left out.
- `SymbolTable.Table.LookupCSym`: names longer than the table are excluded, because the source then divides by the quotient of size and length, which is 0; removal of entries does not exist in the source.
- `TermOrder.IdenticalExactly`: doubles are excluded; the number that four words stand for is a parameter, without NaN.
- `TermCopy.Copier.Hc`: doubles, and the words of strings on the heap; the sizes of the two tables of variables are demanded, as the source never checks them.
- `Numerals.StringToNumber`: rounding, and the width of the exponent's `int`.
- The in-line arithmetic compiler (`compmath.c`), which the portable configuration does not compile (`port_config.h:43-45`); the flattening of clause bodies in `expand.c`.
- The tokenizer as a whole, sockets, consoles and the other stream types.
