# A model of the hard parts of Orion68

Orion68 is firmware and tooling for a 68000 machine, together with a C library
and the sources of the Alcyon C compiler for CP/M-68K.  This project models its
self-contained algorithms in Dafny and proves what they are for.

* **Control-flow compiler** (`Machine`, `Condbr`, `Flow`, `SwitchTable`,
  `FirstPass`, `FlowCorrect`, `SecondPass`, `StmtParser`, `Acceptance`, `Traces`,
  `Compiler`).  Statements are trees, expressions are opaque, and a run is the
  history of what has been evaluated, so that two runs with the same history did
  the same work in the same order.  A `World` says which values expressions have
  after a given history.  The parser class has the source's label counter, saved
  labels and shared switch table; its output is proved to be `Emit`, and `Emit` is
  proved against a big-step meaning of statements, in both directions and for runs
  that never end.  A switch may be entered at a case label anywhere in its body.
  `Acceptance` tells the accepted bodies by what stands around their parts, and
  `Traces` holds the meanings against short statements, event by event.
* **Expression canonicaliser** (`Bits`, `Sequences`, `Canon`, `Ordering`,
  `Folding`, `Commuting`): flattening, sorting, folding and rebuilding of chains
  of commutative operators on 16-bit words, with any Sethi-Ullman numbers.
* **Regular expressions** (`Pattern`, `PatternText`, `PatternLaws`, `RegexCode`,
  `RegexCompile`, `Regex`): what a pattern text denotes, said of texts and subjects
  themselves too, the byte code, the compiler that fills the buffer, and the
  backtracking machine.
* **Constant expressions** (`Cexpr`, `Priorities`, `Evaluator`): two stacks and a
  table of priorities, against the value of the tree, and what short lines come to.
* **Random numbers** (`Period`, `Scaling`, `Rand`): the recurrence has full
  period, the long multiplication it uses is right, and when the numbers scaled to
  a range are those announced.
* **Data Encryption Standard** (`DesTables`, `Des`, `DesVector`, `Cipher`; FIPS PUB
  46): key schedule, rounds, a known answer, and the in-place arrays.
* **Quicksort** (`Partition`, `Qsort`): records in a byte matrix, three-way
  partitioning, recursion on the smaller part.
* **File transfer** (`Crc`, `CrcCheck`, `CrcTable`, `Sender`, `Protocol`,
  `Receiver`, `Bus`): from a file over an arbitrary segmentation to the registers
  of the 68000, and the CRC-32 of clause 3.2.9 of IEEE Std 802.3 that protects it.
* **Lines and circles** (`Raster`), and the **keyboard ring buffer** (`Ring`, an
  interleaving of single loads and stores; `KeyBuffer`, the calls on their own).

Where the code and what it says of itself differ, the model follows the code:

* Constant expressions group operators of equal priority to the right, so
  subtraction and division are not those of C (`Cexpr.GroupsRight`), and `?:`
  binds tighter than shifts.
* The status register of the bus documents an end-of-file code 2.  It cannot be
  seen: the access that would report it first withdraws the file (`Bus.Status`).
* `nrand(n)` is documented to give numbers up to n, the integer part of
  (n + 1) x / 2^32.  It gives just these only if n + 1 is a power of two up to 2^15
  (`Scaling.ScaleExact`); from n = 65535 on it never gives n (`Scaling.TopComesUp`),
  and for n = 2^31 - 1 nothing but 0 (`Scaling.AlwaysZero`).
* Folding in `commute` goes wrong when two constants marked SU_VHARD are sorted to
  a place in front of other operands: the folded constant is put in the place of
  the operator above it, and an operand too many is dropped.
  `Commuting.ChainExact` says exactly when, and `Commuting.MarkedConstants` shows it.
* The evaluator checks its operand stack one slot too late: with 63 operands held,
  the next one is stored past the array.  The model stops there with `Overrun`,
  and `Cexpr.OverrunExact` says when that is.  The source's own check can never
  fail, because the store past the array comes first.
* The compiled form of a pattern may be one byte longer than its buffer
  (`Regex.LongestDots`); matching never reads that byte (`Regex.Matcher.Op`).

## Model

| member | source | states |
|---|---|---|
| `Condbr.JumpsCorrect` | src/cpm_teste/cpm-68k_12._src/d12u13/codegen.c:556-629 | the code of a condition, wherever it stands in a program without repeated labels, reaches `lab` exactly when short-circuit truth equals `dir` and the end of the code otherwise, having evaluated just the atoms short-circuit evaluation does, in that order |
| `Condbr.JumpsLabels` | src/cpm_teste/cpm-68k_12._src/d12u13/codegen.c:556-629 | that code defines no label twice, and only labels between the counter before and after |
| `Condbr.ValueCorrect` | src/cpm_teste/cpm-68k_12._src/d12u13/codegen.c:487-548 | code for a condition used as a value and for `?:` falls out of its end having left the right value by the right evaluations, branch not taken unevaluated |
| `Condbr.ValueLabels` | src/cpm_teste/cpm-68k_12._src/d12u13/codegen.c:487-548 | that code, too, defines no label twice, and only labels between the counter before and after |
| `Condbr.CodeGen.CondBr` | src/cpm_teste/cpm-68k_12._src/d12u13/codegen.c:556-629 | the printing, counter-bumping recursion appends the code that JumpsCorrect is about and leaves the counter past its labels |
| `Condbr.CodeGen.AndOr` | src/cpm_teste/cpm-68k_12._src/d12u13/codegen.c:588-601 | the same for a logical and or or: jump past the right side, or twice to the target |
| `Condbr.CodeGen.HardRel` | src/cpm_teste/cpm-68k_12._src/d12u13/codegen.c:487-522 | appends the 0/1 diamond that ValueCorrect is about |
| `Condbr.CodeGen.CqMark` | src/cpm_teste/cpm-68k_12._src/d12u13/codegen.c:526-548 | appends the two-armed code that ValueCorrect is about |
| `Traces.HoldsOnWords` | src/cpm_teste/cpm-68k_12._src/d12u13/codegen.c:487-522 | on words the six comparisons are those of the numbers, signed or unsigned |
| `Traces.ShortCircuits` | src/cpm_teste/cpm-68k_12._src/d12u13/codegen.c:556-629 | of `a && b` and `a &#124;&#124; b` the right side is evaluated just where the left one does not decide |
| `SwitchTable.TableCorrect` | src/cpm_teste/cpm-68k_12._src/d12u12/stmt.c:448-477 | the table of a switch without repeated values is strictly increasing and holds exactly the pairs that were added |
| `SwitchTable.SelectCorrect` | src/cpm_teste/cpm-68k_12._src/d12u12/stmt.c:448-477 | looking a value up in that table gives the label its case was given, or the default |
| `StmtParser.AddSwitch` | src/cpm_teste/cpm-68k_12._src/d12u12/stmt.c:524-552 | bubbling in place: refuses exactly the values already there, otherwise the row is the old one with the pair at its sorted place; entries of outer switches stay |
| `Acceptance.LegalExact` | src/cpm_teste/cpm-68k_12._src/d12u12/stmt.c:209-262 | a function body is accepted if and only if every break is inside a loop or a switch, every continue inside a loop, every case and default inside a switch, no switch repeats a case value, and fewer than 255 case labels stand in front of each one in the switches around it |
| `Acceptance.LegalInside` | src/cpm_teste/cpm-68k_12._src/d12u12/stmt.c:209-262 | the same for a statement with loops, a switch or earlier cases around it |
| `Flow.LegalDistinct` | src/cpm_teste/cpm-68k_12._src/d12u12/stmt.c:227-249 | an accepted statement repeats no case value within a switch |
| `Flow.LegalFits` | src/cpm_teste/cpm-68k_12._src/d12u12/stmt.c:227-249 | nor does it overrun the 256-entry table shared by nested switches |
| `Flow.NoStrayExit` | src/cpm_teste/cpm-68k_12._src/d12u12/stmt.c:209-224 | an accepted statement breaks or continues only out of something around it, so OUTGOTO of label 0 never loses a jump |
| `FirstPass.EmitLabels` | src/cpm_teste/cpm-68k_12._src/d12u12/stmt.c:18-504 | the code emitted for a statement defines no label twice and only labels taken from the counter meanwhile |
| `FirstPass.EmitCases` | src/cpm_teste/cpm-68k_12._src/d12u12/stmt.c:227-262 | the value/label pairs a statement adds are its own cases in order, nested switches excluded, and it sets a default label exactly when it contains a default |
| `Traces.WhileTrace` | src/cpm_teste/cpm-68k_12._src/d12u12/stmt.c:481-504 | a while loop whose test holds n times evaluates test and body n times and then the test |
| `Traces.ForTrace` | src/cpm_teste/cpm-68k_12._src/d12u12/stmt.c:294-353 | a for loop: the first expression once, then test, body and step in turn |
| `Traces.DoTrace` | src/cpm_teste/cpm-68k_12._src/d12u12/stmt.c:265-286 | a do loop: the body once before the first test |
| `Traces.JumpsTrace` | src/cpm_teste/cpm-68k_12._src/d12u12/stmt.c:209-224 | continue goes on with the step, break leaves without it |
| `Traces.IfTrace` | src/cpm_teste/cpm-68k_12._src/d12u12/stmt.c:357-401 | if and else: the test, and one side |
| `Traces.SwitchTrace` | src/cpm_teste/cpm-68k_12._src/d12u12/stmt.c:448-477 | a switch goes to its case, falls through, leaves at a break, and takes its default from every other value even where the default comes first |
| `FlowCorrect.Sim` | src/cpm_teste/cpm-68k_12._src/d12u12/stmt.c:18-504 | simulation: code entered at its start, or at the label of any case or default inside, reaches the fall-through point, break label, continue label or return label with the history the statement ends with, and keeps running as long as the statement does |
| `FlowCorrect.SimSwitch` | src/cpm_teste/cpm-68k_12._src/d12u12/stmt.c:448-477 | the same for switch: selector, dispatch behind the body, fall-through, break, and continue handed on to the loop outside |
| `FlowCorrect.Dispatch` | src/cpm_teste/cpm-68k_12._src/d12u12/stmt.c:448-477 | dispatch reaches the label of the matching case, else the default, else the break label |
| `FlowCorrect.SimTest` | src/cpm_teste/cpm-68k_12._src/d12u12/stmt.c:265-286 | one turn of any loop: test, and then body, step and test again, for any number of turns |
| `FlowCorrect.SimForCond` | src/cpm_teste/cpm-68k_12._src/d12u12/stmt.c:294-353 | the same for a for loop with a condition, entered through the jump to its test |
| `FlowCorrect.SimIfElse` | src/cpm_teste/cpm-68k_12._src/d12u12/stmt.c:357-401 | the same for if/else, also when a branch is a bare jump and the code is a single conditional goto |
| `StmtParser.Parser.Stmt` | src/cpm_teste/cpm-68k_12._src/d12u12/stmt.c:18-126 | reports an error exactly when the statement is not legal where it stands (which LegalInside tells); otherwise appends the emitted code, pairs and default label; restores break, continue and return labels and the outer part of the switch table |
| `StmtParser.Parser.DoIf` | src/cpm_teste/cpm-68k_12._src/d12u12/stmt.c:357-401 | the same, for if |
| `StmtParser.Parser.DoIfElse` | src/cpm_teste/cpm-68k_12._src/d12u12/stmt.c:357-401 | the same, for if with else |
| `StmtParser.Parser.DoWhile` | src/cpm_teste/cpm-68k_12._src/d12u12/stmt.c:481-504 | the same, for while |
| `StmtParser.Parser.DoDo` | src/cpm_teste/cpm-68k_12._src/d12u12/stmt.c:265-286 | the same, for do, with or without its while |
| `StmtParser.Parser.DoFor` | src/cpm_teste/cpm-68k_12._src/d12u12/stmt.c:294-353 | the same, for for |
| `StmtParser.Parser.DoSwitch` | src/cpm_teste/cpm-68k_12._src/d12u12/stmt.c:448-477 | the same, for switch: entries, count, default and break labels of the outer switch are as they were |
| `StmtParser.Parser.DoCase` | src/cpm_teste/cpm-68k_12._src/d12u12/stmt.c:227-249 | the same, for case; a repeated value, a full table or a missing switch is an error |
| `StmtParser.Parser.DoDefault` | src/cpm_teste/cpm-68k_12._src/d12u12/stmt.c:252-262 | the same, for default |
| `StmtParser.Parser.BrkLabel` | src/cpm_teste/cpm-68k_12._src/d12u12/stmt.c:209-215 | an error is reported exactly when there is nothing to break out of |
| `StmtParser.Parser.ContLabel` | src/cpm_teste/cpm-68k_12._src/d12u12/stmt.c:218-224 | an error is reported exactly when there is nothing to continue |
| `SecondPass.RunLowered` | src/cpm_teste/cpm-68k_12._src/d12u13/codegen.c:556-629 | replacing every conditional goto by the jumps of its tree keeps every run, and runs for ever stay so |
| `Compiler.CompilerCorrect` | src/cpm_teste/cpm-68k_12._src/d12u12/stmt.c:18-504 | both passes together: the final code of a legal body halts with a history exactly when the body finishes with it, in every world |
| `Compiler.Compile` | src/cpm_teste/cpm-68k_12._src/d12u12/stmt.c:18-504 | the passes as run: accepted exactly when every part stands where it may (LegalExact), and then the code halts with a history exactly when the body finishes with it, for every world and starting history |
| `Canon.ApplyAssociates` | src/cpm_teste/cpm-68k_12._src/d12u13/canon.c:538-568 | the five commutative operators associate on wrapped 16-bit words |
| `Canon.ApplyMeaning` | src/cpm_teste/cpm-68k_12._src/d12u13/canon.c:809-877 | the operators are sums and products cut to words, and and, or and exclusive or bit by bit |
| `Canon.ChainValue` | src/cpm_teste/cpm-68k_12._src/d12u13/canon.c:682-700 | a chain of one operator has the value of its operands taken together from the left |
| `Canon.TotalPermutation` | src/cpm_teste/cpm-68k_12._src/d12u13/canon.c:586-597 | and that value does not depend on their order |
| `Canon.CcexprValue` | src/cpm_teste/cpm-68k_12._src/d12u13/canon.c:751-891 | two constants folded in long arithmetic and cut back give the value of the operator on words |
| `Commuting.AddTree` | src/cpm_teste/cpm-68k_12._src/d12u13/canon.c:682-700 | appends the operands of a chain from left to right, and its operator nodes |
| `Ordering.SortOperands` | src/cpm_teste/cpm-68k_12._src/d12u13/canon.c:590-597 | the loops over the operand list leave what Sorted gives |
| `Ordering.SortedCorrect` | src/cpm_teste/cpm-68k_12._src/d12u13/canon.c:590-597 | which is a permutation in which marked operands come first, then registers, then the others by falling Sethi-Ullman numbers, then constants |
| `Ordering.SortedFront` | src/cpm_teste/cpm-68k_12._src/d12u13/canon.c:590-597 | and has the operands marked SU_VHARD in front, in the order they stood in |
| `Folding.FoldConstants` | src/cpm_teste/cpm-68k_12._src/d12u13/canon.c:602-612 | the loop over the two lists, whatever the operands: a pair of constants is folded wherever it meets one, the constant takes the place of its operand and of its node, and the last operand and node leave |
| `Folding.FoldingExact` | src/cpm_teste/cpm-68k_12._src/d12u13/canon.c:602-612 | in the operand list that folds just the constants at the end if no two constants stand, behind the first operand, in front of another operand; if two do, strictly too many operands leave |
| `Folding.AlignedNodes` | src/cpm_teste/cpm-68k_12._src/d12u13/canon.c:602-612 | and if none do, the nodes that are left are all operators still |
| `Folding.FoldedShape` | src/cpm_teste/cpm-68k_12._src/d12u13/canon.c:602-612 | folding at the end keeps the order, keeps what holds of every operand and of constants, and leaves nothing but constants only if there was nothing else |
| `Folding.FoldedFew` | src/cpm_teste/cpm-68k_12._src/d12u13/canon.c:602-612 | and leaves at most one constant, or two alone, if and only if all constants stood at the end |
| `Folding.Rebuild` | src/cpm_teste/cpm-68k_12._src/d12u13/canon.c:619-631 | hangs the operands under whatever nodes are left, first two deepest |
| `Folding.RebuiltCorrect` | src/cpm_teste/cpm-68k_12._src/d12u13/canon.c:619-631 | what is rebuilt under operators is left-leaning, has just those operands in that order, and their value |
| `Commuting.ClashExact` | src/cpm_teste/cpm-68k_12._src/d12u13/canon.c:590-612 | whether constants will stand in front of another operand once sorted can be told from the unsorted operands: two marked constants are neighbours among the marked ones, behind the first of these, and a marked operand that is no constant comes later or an unmarked one anywhere |
| `Commuting.ChainExact` | src/cpm_teste/cpm-68k_12._src/d12u13/canon.c:574-634 | for every chain, whatever its numbers: it comes back with just its operands, commuted and sorted, and the constants at their end folded, if and only if no operands clash in that way; and then left-leaning and with the total of these operands |
| `Commuting.CommutedKept` | src/cpm_teste/cpm-68k_12._src/d12u13/canon.c:558-644 | a tree with no such chain anywhere keeps its value in every environment, and all its chains come back left-leaning and in order; a chain is all constants only if it was |
| `Commuting.OneMarkedAligned` | src/cpm_teste/cpm-68k_12._src/d12u13/canon.c:558-644 | there is no such chain if every chain has at most one constant marked SU_VHARD |
| `Commuting.CommutedGathers` | src/cpm_teste/cpm-68k_12._src/d12u13/canon.c:600-612 | and if none is marked, each chain has at most one constant afterwards, at its end, or is two constants |
| `Commuting.HardestFirst` | src/cpm_teste/cpm-68k_12._src/d12u13/canon.c:590-631 | and so are the operands of any such chain that comes back, with what is folded |
| `Commuting.RelationTurned` | src/cpm_teste/cpm-68k_12._src/d12u13/canon.c:566-574 | a comparison is turned round, operator and all, when its left side is not marked and its right side has to stand before it or both are constants; of two sides that are neither marked, registers nor constants just when the right one has the larger number |
| `Commuting.MarkedConstants` | src/cpm_teste/cpm-68k_12._src/d12u13/canon.c:574-634 | ((1 + 2) + 3) + x with the constants marked comes back as the constant 5, which is right only where x is -1 |
| `Commuting.CommuteChain` | src/cpm_teste/cpm-68k_12._src/d12u13/canon.c:574-634 | the steps on the two lists make of a chain what ChainExact is about |
| `Commuting.Commute` | src/cpm_teste/cpm-68k_12._src/d12u13/canon.c:558-644 | the recursion over the tree makes of it what CommutedKept is about, for any numbers |
| `Priorities.Groups` | src/cpm_teste/cpm-68k_12._src/d10u11/cexpr.c:21-46 | in a op b op2 c the left operator is applied first exactly when it binds tighter: multiplicative before additive before relational before equality operators, then and, then or and exclusive or, and shifts last |
| `Priorities.Conditionals` | src/cpm_teste/cpm-68k_12._src/d10u11/cexpr.c:21-46 | every operator but a shift binds tighter than ?: on either side; a shift takes the conditional as its operand |
| `Priorities.ConditionalsNest` | src/cpm_teste/cpm-68k_12._src/d10u11/cexpr.c:21-46 | a ? b : c ? d : e goes on in the last side |
| `Priorities.PrefixFirst` | src/cpm_teste/cpm-68k_12._src/d10u11/cexpr.c:74-89 | prefix operators bind tighter than all others; a plus sign changes nothing |
| `Priorities.Parentheses` | src/cpm_teste/cpm-68k_12._src/d10u11/cexpr.c:195-203 | parentheses make either operator of a op b op2 c the first |
| `Priorities.Sums` | src/cpm_teste/cpm-68k_12._src/d10u11/cexpr.c:209-217 | sums, differences and products are cut to words |
| `Priorities.Divisions` | src/cpm_teste/cpm-68k_12._src/d10u11/cexpr.c:285-295 | division cuts towards zero, the remainder has the sign of the dividend, and a divisor 0 is an error |
| `Priorities.Comparisons` | src/cpm_teste/cpm-68k_12._src/d10u11/cexpr.c:241-263 | comparisons give 1 or 0 |
| `Priorities.BitOperators` | src/cpm_teste/cpm-68k_12._src/d10u11/cexpr.c:229-239 | and, or and exclusive or, bit by bit |
| `Priorities.ComplBits` | src/cpm_teste/cpm-68k_12._src/d10u11/cexpr.c:281-283 | complementing turns every bit over |
| `Priorities.ProductsFirst` | src/cpm_teste/cpm-68k_12._src/d10u11/cexpr.c:21-46 | a * b + c and c + a * b multiply first, a << b + c shifts last |
| `Cexpr.Reads` | src/cpm_teste/cpm-68k_12._src/d10u11/cexpr.c:52-121 | reading an expression written with the parentheses its priorities require leaves just its value for every operator below its level, where both stacks have room and nothing is divided by zero |
| `Cexpr.Fails` | src/cpm_teste/cpm-68k_12._src/d10u11/cexpr.c:52-121 | otherwise it stops at once, or at whatever operator below its level comes next, with the trouble of the verdict |
| `Cexpr.VerdictMeaning` | src/cpm_teste/cpm-68k_12._src/d10u11/cexpr.c:52-121 | the verdict on a tree is good exactly when operators and operands fit their stacks and nothing is divided by zero, and is then its value |
| `Cexpr.Evaluates` | src/cpm_teste/cpm-68k_12._src/d10u11/cexpr.c:52-121 | on any expression so written the answer is the verdict on its tree: the value exactly when at most 63 operators and 63 operands are held at once and nothing is divided by zero, and otherwise the trouble that is met first |
| `Cexpr.OverrunExact` | src/cpm_teste/cpm-68k_12._src/d10u11/cexpr.c:63-72 | an operand is stored past the 64 slots of its array only if more than 63 are held at once, and exactly then if nothing else is wrong |
| `Cexpr.PeakNeed` | src/cpm_teste/cpm-68k_12._src/d10u11/cexpr.c:63-72 | which takes at least 63 pending operators |
| `Cexpr.LongChain` | src/cpm_teste/cpm-68k_12._src/d10u11/cexpr.c:63-72 | 1 - 1 - ... - 1 is read with up to 63 terms; from 64 on an operand is stored past the array |
| `Cexpr.StoppedBefore` | src/cpm_teste/cpm-68k_12._src/d10u11/cexpr.c:63-72 | with more than 63 operands to hold, a zero divisor can stop the scan before the overrun |
| `Cexpr.DressedGrouped` | src/cpm_teste/cpm-68k_12._src/d10u11/cexpr.c:21-46 | putting parentheses just where priorities require them keeps the value and makes any tree readable |
| `Cexpr.TreeEvaluates` | src/cpm_teste/cpm-68k_12._src/d10u11/cexpr.c:52-121 | so every tree without zero divisors, written that way, evaluates to its value if its operators and operands fit |
| `Cexpr.GroupsRight` | src/cpm_teste/cpm-68k_12._src/d10u11/cexpr.c:190-198 | operators of equal priority group to the right |
| `Cexpr.MinusGroupsRight` | src/cpm_teste/cpm-68k_12._src/d10u11/cexpr.c:190-198 | 1 - 2 - 3 is 2 |
| `Evaluator.Evaluator.ApplyTop` | src/cpm_teste/cpm-68k_12._src/d10u11/cexpr.c:195-300 | one operator off the array stacks: its value in place of its operands, or a syntax error or zero divisor |
| `Evaluator.Evaluator.StkOp` | src/cpm_teste/cpm-68k_12._src/d10u11/cexpr.c:190-309 | applies all outranking operators, drops a closed parenthesis, else pushes, or overflows |
| `Evaluator.Evaluator.Run` | src/cpm_teste/cpm-68k_12._src/d10u11/cexpr.c:52-121 | the loop over tokens, on the 64 slots of each array, gives the answer Evaluates is about for every token list, and stops with an overrun just where the source stores past the operand array |
| `PatternText.RoundTrip` | src/env_68k/liborion/regex.c:92-211 | every expression a text can give, written out, is read back as itself if its code fits, and is otherwise too long |
| `PatternLaws.WordLaw` | src/env_68k/liborion/regex.c:38-40 | a word of ordinary characters is found where it stands; behind ^ only at the start, in front of $ only at the end, with both only as the whole |
| `PatternLaws.DelimiterLaw` | src/env_68k/liborion/regex.c:111-145 | a ^ behind the first place and a $ before the last stand for themselves |
| `PatternLaws.DotLaw` | src/env_68k/liborion/regex.c:41-41 | between two words a dot takes any one character |
| `PatternLaws.QuoteLaw` | src/env_68k/liborion/regex.c:42-43 | a special character stands for itself behind a backslash |
| `PatternLaws.LoneLaw` | src/env_68k/liborion/regex.c:42-43 | so does any other but a bracket or a digit from 1 to 9, and a star where there is nothing to repeat |
| `PatternLaws.ClassLaw` | src/env_68k/liborion/regex.c:44-48 | characters in brackets match one of them, and behind ^ one that is not among them |
| `PatternLaws.RangeLaw` | src/env_68k/liborion/regex.c:46-48 | two characters joined by - match them and all between |
| `PatternLaws.StarLaw` | src/env_68k/liborion/regex.c:49-50 | between two words a starred character takes any number of it, none included |
| `PatternLaws.DotStarLaw` | src/env_68k/liborion/regex.c:49-50 | and a starred dot anything |
| `PatternLaws.GroupLaw` | src/env_68k/liborion/regex.c:51-52 | brackets of a group match what is in them |
| `PatternLaws.InConcat` | src/env_68k/liborion/regex.c:55-58 | items in a row match strings in a row |
| `PatternLaws.ErrorLaw` | src/env_68k/liborion/regex.c:120-195 | an open group, a stray closing one, and a class without its bracket are errors |
| `PatternLaws.NinePairs` | src/env_68k/liborion/regex.c:181-188 | nine groups may be opened, a tenth is an error |
| `Regex.Matcher.CClass` | src/env_68k/liborion/regex.c:377-391 | membership of a character in a counted class body, and never of NUL |
| `Regex.Matcher.Advance` | src/env_68k/liborion/regex.c:256-362 | terminates, and answers 1 exactly when the code from here on matches the subject from here on, with backtracking over starred atoms; it reads only the 512 bytes of the source's array |
| `Regex.Matcher.ReExec` | src/env_68k/liborion/regex.c:216-251 | 1 exactly when the compiled expression is found, anchored or not; the first-character fast path loses nothing; -1 when nothing is compiled |
| `Regex.Matcher.ClassMembers` | src/env_68k/liborion/regex.c:155-178 | spells a class out member by member, ranges included, and fails exactly as the pattern text says |
| `Regex.Matcher.CompileStar` | src/env_68k/liborion/regex.c:127-139 | code in the buffer and text still to be read go on standing for the whole pattern: a star repeats the last atom, and after nothing, `\(` or `\)` is an ordinary character |
| `Regex.Matcher.CompileEscape` | src/env_68k/liborion/regex.c:180-203 | the same for groups, back-reference digits and quoted characters; an error is the one the pattern text has |
| `Regex.Matcher.ReComp` | src/env_68k/liborion/regex.c:92-211 | for every pattern text: the error its grammar gives it, or the code of its meaning in the buffer, at most one byte longer than the array of the source: its last 0 |
| `Regex.LongestDots` | src/env_68k/liborion/regex.c:117-126 | which happens: n dots are accepted exactly up to 511, and their code takes n + 2 bytes |
| `Regex.Decode` | src/env_68k/liborion/regex.c:256-362 | an opcode tells which kind of item stands at its place, and behind it is the code of the rest |
| `Regex.Search` | src/env_68k/liborion/regex.c:92-251 | compile then match: error replies are exactly those of the pattern text, and otherwise the answer is 1 exactly when some substring is in the language the text denotes |
| `Period.PeriodExact` | src/env_68k/libm68/rand.c:26-27 | after n steps a state is back exactly when 2^32 divides n |
| `Period.FullPeriod` | src/env_68k/libm68/rand.c:26-27 | from any state every one of the 2^32 states comes up within 2^32 steps, once |
| `Period.TwiceEach` | src/env_68k/libm68/rand.c:47-53 | so rand gives each 31-bit number exactly twice in a period |
| `Period.SumTwoPower` | src/env_68k/libm68/rand.c:12-13 | the sum of the first n powers of the multiplier is divisible by the same powers of two as n |
| `Rand.FirstStates` | src/env_68k/libm68/rand.c:43-46 | the first three states from the initial one |
| `Rand.LongProduct` | src/env_68k/libm68/rand.c:119-155 | four 16-bit partial products and their carries give the unsigned 64-bit product |
| `Rand.Lmul` | src/env_68k/libm68/rand.c:119-168 | the low half is the product modulo 2^32, and with the corrected high half it is the signed product |
| `Rand.Generator.Step` | src/env_68k/libm68/rand.c:110-116 | the state moves by the recurrence |
| `Rand.Generator.Draw` | src/env_68k/libm68/rand.c:47-53 | the k-th of any number of calls gives half the state k steps on |
| `Rand.Generator.Srand` | src/env_68k/libm68/rand.c:56-61 | seeds with the sign-extended int and steps once |
| `Rand.Generator.Nrand` | src/env_68k/libm68/rand.c:65-106 | the next state, scaled as the next rows say; at most n for n below 2^31, and never more than announced |
| `Scaling.ScaleExact` | src/env_68k/libm68/rand.c:29-31 | the result is the announced integer part of (n + 1) x / 2^32 for every state x if and only if n + 1 is a power of two up to 2^15 |
| `Scaling.PeriodScale` | src/env_68k/libm68/rand.c:29-31 | and so from any seed: all the numbers of a period are as announced, if and only if n + 1 is such a power |
| `Scaling.ScaleBelow` | src/env_68k/libm68/rand.c:29-31 | where it is not the announced one, it is less |
| `Scaling.AlwaysZero` | src/env_68k/libm68/rand.c:65-106 | it is 0 for every state if and only if n is 0, 2^31 - 1 or negative |
| `Scaling.TopComesUp` | src/env_68k/libm68/rand.c:29-31 | n itself ever comes up if and only if n is below 65535 (and not negative) |
| `Rand.Generator.SetRange` | src/env_68k/libm68/rand.c:79-92 | counts the significant bits of n + 1, which is cut to 32 bits |
| `DesVector.KnownAnswer` | src/env_68k/liborion/crypt.c:97-321 | key 133457799BBCDFF1 and block 0123456789ABCDEF give 85E813540F0AB405, through schedule and sixteen rounds |
| `DesVector.ChosenEntry` | src/env_68k/liborion/crypt.c:280-287 | of six bits the outer two choose the row of a box and the inner four the column |
| `DesVector.StandardAt` | src/env_68k/liborion/crypt.c:146-155 | the selection takes each four bits with the last bit before and the first behind them |
| `DesTables.RowsHoldAll` | src/env_68k/liborion/crypt.c:162-202 | each row of each box holds every nibble |
| `DesTables.NoneTwice` | src/env_68k/liborion/crypt.c:66-79 | P and both parts of permuted choice 2 take no place twice |
| `DesTables.FirstChoice` | src/env_68k/liborion/crypt.c:42-54 | permuted choice 1 takes the places in its pattern, and none of each eighth |
| `Des.FullTurn` | src/env_68k/liborion/crypt.c:59-61 | the shifts of the schedule add up to a full turn |
| `DesTables.Inverse` | src/env_68k/liborion/crypt.c:11-34 | FP is the inverse of IP, both ways round |
| `Des.RoundsBack` | src/env_68k/liborion/crypt.c:249-306 | with the keys reversed, n rounds on the exchanged halves go back over the last n rounds |
| `Des.Inversion` | src/env_68k/liborion/crypt.c:235-321 | decryption undoes encryption and the other way round, for every key schedule, selection and block |
| `Des.ScheduleComplement` | src/env_68k/liborion/crypt.c:97-140 | complementing the key complements every round key |
| `Des.Complementation` | src/env_68k/liborion/crypt.c:97-321 | complementing key and block complements the result, for every selection |
| `Cipher.Cipher.SetKey` | src/env_68k/liborion/crypt.c:97-140 | rotating in place gives round keys each bit of which is one bit of the key, at a place given in closed form |
| `Cipher.SaltCodes` | src/env_68k/liborion/crypt.c:347-352 | the salt characters count from 0 for the full stop to 63 for z |
| `Cipher.SaltBits` | src/env_68k/liborion/crypt.c:353-358 | and their bits are taken from the lowest on |
| `Cipher.SaltedAt` | src/env_68k/liborion/crypt.c:353-358 | bit j of character i exchanges entries 6 i + j and 6 i + j + 24 |
| `Cipher.NoSalt` | src/env_68k/liborion/crypt.c:344-360 | the salt of two full stops leaves the selection as it is |
| `Cipher.Cipher.Salt` | src/env_68k/liborion/crypt.c:344-360 | each salt bit exchanges its two entries of E and nothing else; entries stay in 1..32 |
| `Cipher.Cipher.OneRound` | src/env_68k/liborion/crypt.c:257-305 | the array loops of a round: right half saved, expanded, selected, mixed in, left half restored |
| `Cipher.Cipher.Encrypt` | src/env_68k/liborion/crypt.c:235-321 | the caller's 64 elements are replaced by the cipher text Inversion and Complementation are about; the rest stay |
| `Partition.StepBelowOnRight` | src/env_68k/liborion/qsort.c:54-59 | the three-way rotation keeps the partition when nothing is left over on the left |
| `Partition.StepBothWrong` | src/env_68k/liborion/qsort.c:60-63 | so does the exchange of two misplaced elements |
| `Partition.StepAboveLeftOver` | src/env_68k/liborion/qsort.c:82-83 | and the rotation the other way |
| `Partition.PartOrders` | src/env_68k/liborion/qsort.c:36-84 | elements of different parts are in order |
| `Qsort.Exchange` | src/env_68k/liborion/qsort.c:87-101 | two records exchanged byte by byte |
| `Qsort.RotateThree` | src/env_68k/liborion/qsort.c:103-120 | three records rotated byte by byte |
| `Qsort.Split` | src/env_68k/liborion/qsort.c:32-84 | below / equal / above the middle element through every exchange, rotation and goto; terminates and only moves elements of the range whatever the comparison |
| `Qsort.Qs1` | src/env_68k/liborion/qsort.c:16-85 | sorts its range and touches nothing else; calls open at once are at most one more than the logarithm of n + 1 |
| `Qsort.Qsort` | src/env_68k/liborion/qsort.c:5-14 | always a permutation; in order under any total preorder |
| `Crc.UpdateDivides` | src/sender/crc32.c:32-37 | byte by byte through the table is the same as dividing the bit stream one bit at a time |
| `CrcCheck.CheckValue` | src/sender/crc32.c:64-67 | the CRC of the nine characters 123456789 is CBF43926 |
| `CrcCheck.PolynomialBits` | src/sender/crc32.c:12-12 | the bits of the polynomial are the coefficients of the standard, highest power lowest |
| `Crc.StepInjective` | src/sender/crc32.c:18-26 | no step of the division loses information |
| `Crc.BurstDetected` | src/sender/crc32.c:64-67 | two buffers of equal length that differ only within 32 consecutive bits on the wire, wherever these lie among the bytes, never have the same CRC |
| `Crc.BytesDetected` | src/sender/crc32.c:64-67 | nor do buffers that differ only within four consecutive bytes |
| `CrcTable.ShiftByte` | src/sender/crc32.c:20-23 | a table entry is what eight divisions feed back |
| `CrcTable.UpdateCrc` | src/sender/crc32.c:32-37 | the table loop over any part of a buffer |
| `CrcTable.Calculate` | src/sender/crc32.c:64-67 | the CRC of a buffer, and the bit-by-bit division it equals |
| `Sender.WriteAll` | src/sender/sender.c:65-79 | all of the buffer goes out however little each send takes, or -1 with a proper prefix sent |
| `Sender.FillHeader` | src/sender/sender.c:131-138 | the header bytes: size low byte first, name padded with spaces |
| `Protocol.HeaderLayout` | src/sender/sender.c:131-138 | the sixteen bytes of a header, one by one |
| `Protocol.RecordLayout` | src/pico2W/pds200_1.c:183-185 | a record: CRC and length, lowest bytes first, name and contents |
| `Sender.SendFile` | src/sender/sender.c:110-151 | header and file in that order on success; names over twelve characters are turned away |
| `Protocol.Transferred` | src/pico2W/pds200_1.c:91-221 | whatever the segmentation, the record is published exactly once and is that of the file sent, and the connection is done |
| `Receiver.Connection.TakeHeader` | src/pico2W/pds200_1.c:121-148 | size and name from the header, the record allocated for them |
| `Receiver.Connection.TakeData` | src/pico2W/pds200_1.c:151-174 | a segment copied behind the last one; published exactly when that is all |
| `Receiver.FillRecord` | src/pico2W/pds200_1.c:183-185 | length, then the CRC over everything after the CRC field |
| `Receiver.Connection.Receive` | src/pico2W/pds200_1.c:91-221 | one callback on the connection and the globals does the step Transferred is about |
| `Receiver.Globals.Access` | src/pico2W/orion_bus.c:41-91 | one bus access on the globals does the step the next rows are about |
| `Bus.Status` | src/pico2W/orion_bus.c:41-63 | the status register says 1 while bytes are left, 0 otherwise, and never the end-of-file code 2 |
| `Bus.ReadBack` | src/pico2W/orion_bus.c:41-87 | registers 0 to 7 in any order: the data register gives the file byte by byte |
| `Bus.EachReply` | src/pico2W/orion_bus.c:41-87 | and each reply is what its register shows by then |
| `Bus.Withdrawn` | src/pico2W/orion_bus.c:41-91 | register 8 withdraws the file |
| `Bus.EndToEnd` | src/pico2W/pds200_1.c:91-221 | file to file: the 68000 reads back the record of the file that was sent; register 1 says whether there is more, registers 2 and 3 give its size and 4 to 7 the CRC of all of it but the first four bytes, high bytes first |
| `Raster.Trace` | src/pico2VGA/vga_graphos.c:76-100 | a line no steeper than it is long whose last end is not the last word: all in words, of which only the one that counts across may wrap, after the last pixel |
| `Raster.LoopEnds` | src/pico2VGA/vga_graphos.c:89-100 | counting in words, the loop over the longer side ends if and only if its last coordinate is below 32767 |
| `Raster.DrawLine` | src/pico2VGA/vga_graphos.c:52-101 | the longer side plus one pixels, each next to the one before, from end to end, each within half a pixel of the line, in all octants |
| `Raster.CloseNext` | src/pico2VGA/vga_graphos.c:125-134 | the decision term keeps the next point close, and fits a word |
| `Raster.DrawCircle` | src/pico2VGA/vga_graphos.c:102-144 | exactly the mirror images of an octant that steps across one at a time down to the diagonal, whose squared distance misses r*r by no more than their larger coordinate; what is drawn are these points cut to words |
| `Ring.PutKeeps` | src/pico2W/ringbuffer.c:21-32 | every load and store of kb_put keeps the invariant |
| `Ring.GetKeeps` | src/pico2W/ringbuffer.c:35-44 | every load and store of kb_get keeps it |
| `Ring.InOrder` | src/pico2W/ringbuffer.c:21-44 | in every interleaving the bytes returned are a prefix of those accepted, and at most 255 are held |
| `Ring.HistoriesGrow` | src/pico2W/ringbuffer.c:21-44 | what has been accepted and what has been returned stays so in every later state of a run |
| `Ring.NextInOrder` | src/pico2W/ringbuffer.c:21-44 | so the bytes returned in any stretch of a run are the next ones of those accepted, in order |
| `Ring.NeverOverwritten` | src/pico2W/ringbuffer.c:29-42 | the slot about to be written is never the one about to be read |
| `Ring.RefusedWhenFull` | src/pico2W/ringbuffer.c:22-27 | a byte is turned away exactly when 255 are held |
| `Ring.EmptyWhenSeen` | src/pico2W/ringbuffer.c:36-39 | kb_get finds nothing exactly when nothing was held as it loaded the head, in whichever order it compares |
| `KeyBuffer.HeldBytes` | src/pico2W/ringbuffer.c:7-13 | between head and tail lie the bytes accepted and not yet returned, oldest first, across the wrap |
| `KeyBuffer.KeyBuffer.Put` | src/pico2W/ringbuffer.c:21-32 | called alone: appends, or refuses when 255 are held |
| `KeyBuffer.KeyBuffer.Get` | src/pico2W/ringbuffer.c:35-44 | called alone: takes the oldest, or reports empty |
| `KeyBuffer.KeyBuffer.Available` | src/pico2W/ringbuffer.c:47-49 | whether anything is held |

## Left out

* Compiler: `goto` and labels, `asm`, declarations in blocks, line numbers, register allocation, the code for expressions themselves, `outdbra` and `outcmpm`: expressions are opaque evaluations.
* Compiler: the parser is handed a syntax tree; tokens and the recovery after a syntax error are not modelled.
* Compiler: label numbers are unbounded, where the source counts in a short; labels of the second pass start above those of the first.
* Compiler: `outswitch`, `cgen.h` and the driver of the second pass are not part of this model; the table is searched for its value.
- StmtParser.AddSwitch: when a value is refused, nothing is said about the row, because entries have been moved by then; the error makes the whole compilation fail.
- Commuting.Commute: chains have at most 20 operands, because the source's lists have no check; `sucomp`, which sets the numbers, is not part of this model.
- Commuting.ChainExact: where operands do clash, the source hangs operands under the node of a constant; `cgen.h`, which says whether that overwrites its value, is not part of this model, in which the constant stays as it was.
- Canon.CcexprValue: only the five commutative operators; the other operators of `ccexpr`, mixed operand types, floats and `?:` are left out.
* Canonicaliser: `power2`, `optim` and address-mode folding.
- Commuting.RelationTurned: whether a comparison is in order again afterwards is not said, because the numbers of folded and rebuilt chains are not computed anew.
- Regex.Search: patterns with back-references have no meaning here, classes whose body is longer than 126 bytes overrun the signed count, and texts that end in a lone backslash or inside a range are read past their end; these are excluded.
* Regular expressions: of a pattern that is turned away as too long, up to two bytes may have been written behind the buffer, and of an accepted one its last 0; the model's buffer has those bytes, and what lies behind the source's is not part of this model.
* Constant expressions: what happens once an operand has been stored past its array.
* Constant expressions: the scanner (numbers, character constants, macro names), the text of messages; shifts are whatever the machine makes of their count.
* Constant expressions: which malformed token lists are rejected; an unmatched closing parenthesis, for one, is accepted.
* Random numbers: a long shifted by 32 is taken to be 0, as on the 68000.
* DES: `crypt` apart from salting, that is packing the password into a key, the 25 encryptions and the printable result.
* Quicksort: records of width 0, counts times widths that overflow, and comparison functions with side effects.
* Transfer: sockets and lwIP, allocation failure, a header cut up over several segments (then ignored by the source), more contents than the header announced (the source does not check), chained pbufs, and a connection that closes early.
* Transfer: registers 9 to 15 hexadecimal and the SD card; the data register read before anything was received, or beyond the end of a withdrawn file.
* Transfer: the two cores of the receiver touching the globals at the same time.
- Raster.DrawLine: ends whose larger coordinate along the longer side is 32767 are excluded, because the loop then never ends (`Raster.LoopEnds`), as are spans over 32767, which no longer fit the differences.
- Raster.DrawCircle: radii beyond 16384 are excluded, because twice the radius no longer fits.
* Screen: `drawPixel`, clipping, and all other shapes.
* Keyboard: the caller's scheduling; memory order is that of the single loads and stores of the volatile fields.
* Everything that drives hardware, tables of keys and fonts, and floating-point code.
