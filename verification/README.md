# A verified model of likwid-bench

This Dafny project models the algorithmic core of the likwid-bench
microbenchmark driver and proves what its parts promise:

* the open-addressing hash table and the indexed map on top of it stand for a
  finite map under every sequence of operations (`Probing.dfy`, `GHash.dfy`,
  `Map.dfy`);
* the shunting-yard calculator computes the value of every expression tree on
  bounded stacks that never overflow, from the text of the tree on, with or
  without blanks in it; with exact arithmetic that value is the real number that
  the signs and names in the text stand for (`Calculator.dfy`, `Expressions.dfy`,
  `Stack.dfy`, `Postfix.dfy`, `Tokenizer.dfy`, `Formulas.dfy`, `Meanings.dfy`,
  `Exactness.dfy`, `Texts.dfy`);
* the counted strings: substring search, replacing in place, buffered line
  reading, splitting and joining (`Search.dfy`, `Replacing.dfy`, `BString.dfy`,
  `BStream.dfy`, `Splitting.dfy`), and the replacement of variables in the lines
  of the generated code (`Substitution.dfy`);
* the compiler for kernels with nested `LOOP` and `DUMMY` regions ends, drops no
  instruction, and emits code that does what the loops say (`Nesting.dfy`,
  `Rounds.dfy`, `Kernels.dfy`, `Labels.dfy`, `Ptt.dfy`, `Compiler.dfy`,
  `Arguments.dfy`, `Machine.dfy`, `Simulation.dfy`, `CodeGen.dfy`, `Loops.dfy`,
  `Translation.dfy`), down to the assembly text that an assembler reads
  (`Assembly.dfy`);
* the worker threads with their command queues and their barrier never overtake
  one another and never get stuck, and each does exactly the work of its script
  (`CommandQueue.dfy`, `Protocol.dfy`, `Progress.dfy`, `Scripts.dfy`);
* the nine-key radix sort of the hardware threads and the domain lists
  (`Topology.dfy`);
* the layout of the streams in memory (`Allocator.dfy`).

Code that updates arrays and fields is modelled by classes and methods that do
the same; each method is proved against a function or an abstract value (a map, a
sequence of items, a machine state), and the lemmas say what that value means.

## Where the code and its intention part

The model follows the code. Where a property fails of it, a lemma says exactly
when it holds:

* `Compiler.NestedText`, `Compiler.EveryText`, `Arguments.NeverEnds`: the check
  of the labels does not guarantee that the rounds of the kernel compiler end.
  For nested texts they never end exactly when a `LOOP` has a label that, with a
  colon behind it, reads like a closing keyword. For all other texts they end if
  no label does; if one does, they give no code, and never end unless a round fails.
* `Loops.DirectionKept`: the directions `<=` and `>=` are taken for `<` and `>`.
* `Loops.StartKept`, `Loops.EndKept`: a start or end value that begins with 0,
  such as `0x10`, becomes 0. `Loops.LoadedOffset`: an offset that is the register
  being loaded is added or subtracted after it has been overwritten.
* `BStrings.BString.FindReplace`: a longer replacement that lies in the string
  before the start position is read from a released buffer exactly if there is a
  match and the result does not fit into the buffer.
* `Tokenizer.TokenizeUndoesPrint`, `Formulas.TreeIsRead`: without blanks a number
  with an exponent takes a following + or - for the sign of its exponent. The text
  of a tree is read as its tokens exactly when this does not happen.
* `Tokenizer.Tokenize`, `Tokenizer.OverrunIsOne`: the buffer for one token is
  written behind its end exactly when some token has more than the greatest number
  of characters, and then by the terminating zero only.
* `Topology.SortLevel`, `Topology.HwthreadsSort`: the number of counters overflows
  an int exactly when two threads have values of one key that are 2^31 - 1 or more
  apart; then nothing is promised.
* `Loops.CountingUp`: a loop that counts up runs as often as it says exactly if its
  counter does not overflow behind the last pass.
* `Substitution.ValuesAreSearched`: the value of a variable is itself searched for
  shorter keys; `Substitution.KeyBecomesValue` says what comes out.
* `Expressions.UnaryOnTheRightFails`: a one-argument function is refused when
  other values lie below it; `Expressions.CalculatorIsCorrect` states the exact
  condition for all trees.
* `GHash.GHashTable.Remove`, `IndexedMap.Map.Del`: removing is sound exactly for
  keys that are in the table, and for maps exactly for keys that are not NULL.
  `IndexedMap.Map.Add`, `IndexedMap.Map.Update`: the map stays consistent exactly
  if the value stored is not NULL.
* `Topology.NodeList`: the list for the node is the sorted list exactly when no
  SMT id is negative.
* `Progress.OnlyWithSameTotals`: all workers can end only if they make the same
  number of calibration rounds in all, which each decides by its own timer.

## Model

| member | source | states |
|---|---|---|
| Probing.MaskIsModulo | src/ghash.c:212-228 | masking with a mask of n one bits is reduction modulo 2^n, for every number |
| Probing.ProbeStep | src/ghash.c:270-304 | adding the step number and masking moves the probe from the k-th to the (k+1)-th slot of its triangular sequence |
| Probing.ProbeInjective | src/ghash.c:270-304 | no slot repeats within the first 2^n steps of a probe |
| Probing.ProbeCovers | src/ghash.c:270-304 | every slot of a table of 2^n slots is visited within the first 2^n steps, whatever the start |
| GHash.PrimeModInRange | src/ghash.c:107-141 | every modulus of the table lies between 1 and the size it belongs to |
| GHash.ProbeEnds | src/ghash.c:252-305 | a probe meets an unused slot whenever there is one in the table |
| GHash.PathsUpdate | src/ghash.c:307-328 | filling a slot that its probe reaches, or burying one, keeps every live slot reachable without an unused slot before it |
| GHash.StopMeansAbsent | src/ghash.c:270-304 | a probe that stops at an unused slot without having met the key proves that the key is not in the table |
| GHash.GHashTable.constructor | src/ghash.c:460-482 | a new table is consistent and stands for the empty map |
| GHash.GHashTable.SetShift | src/ghash.c:212-228 | size, modulus and mask belong to the shift; the mask built bit by bit is the size less one |
| GHash.GHashTable.Search | src/ghash.c:270-304 | the probe loop ends; it finds the key if it is present, else the first slot of the probe that is free: the first tombstone if it meets one before an unused slot, else that unused slot |
| GHash.GHashTable.LookupNode | src/ghash.c:252-305 | ends, and gives the key's own slot exactly when the key is present, else the first free slot of its probe, all slots before it being live; hashes 0 and 1 count as 2 |
| GHash.GHashTable.StoreValue | src/ghash.c:534-595 | keys and values share one array until the first value that differs from its key; then the values get their own, nothing else changed |
| GHash.GHashTable.InsertNode | src/ghash.c:534-595 | the map gains or replaces exactly this key; the old key pointer stays unless asked otherwise; the result tells whether the key is new; an unused slot is left |
| GHash.GHashTable.Insert | src/ghash.c:648-667 | insertion is the update of a finite map, and keeps all invariants including an unused slot |
| GHash.GHashTable.Lookup | src/ghash.c:634-645 | the value of the finite map at the key, NULL if the key is absent |
| GHash.GHashTable.RemoveNode | src/ghash.c:307-328 | burying a live slot removes exactly its key; burying any other slot breaks the counts |
| GHash.GHashTable.Remove | src/ghash.c:330-343 | removes exactly the key; NULL is ignored; the table stays usable exactly if the key was NULL or present |
| GHash.GHashTable.SetShiftFromSize | src/ghash.c:241-250 | the new size is more than twice the number of live entries, and 8 at least |
| GHash.FindClosestShift | src/ghash.c:230-239 | the number of bits of n: the least power of two above n |
| GHash.GHashTable.Resize | src/ghash.c:394-447 | the mapping is unchanged, no tombstone is left, load is at most one half, sharing of keys and values is kept |
| GHash.GHashTable.MaybeResize | src/ghash.c:449-458 | the mapping is unchanged and an unused slot is guaranteed, whatever the load was |
| IndexedMap.AgreeAdd | src/map.c:177-219 | filling one free slot and one table entry keeps table and slots in agreement, adds one binding and one occupied slot |
| IndexedMap.AgreeRemove | src/map.c:321-340 | clearing a slot and its table entry keeps the agreement; clearing only the slot breaks it |
| IndexedMap.Map.constructor | src/map.c:87-147 | a new map is consistent and empty |
| IndexedMap.Map.Add | src/map.c:177-219 | -EEXIST exactly for present keys, -ENOSPC exactly when full at the maximal size; otherwise the new key gets the topmost free index (one always exists), all other bindings keep theirs; the map stays consistent exactly if nothing was added or the value is not NULL |
| IndexedMap.Map.GetByKey | src/map.c:228-243 | the value bound to the key, -ENOENT exactly if there is none |
| IndexedMap.Map.GetByIdx | src/map.c:252-262 | every index below the size is accepted; the value is non-NULL exactly if a key has this index, and is that key's value |
| IndexedMap.Map.GetIdxForKey | src/map.c:271-285 | the index bound to the key, -ENOENT exactly if there is none |
| IndexedMap.Map.Update | src/map.c:294-311 | succeeds exactly when the key is present and every slot is taken; then only the value changes and the old one is returned; the map stays consistent exactly if the new value is not NULL |
| IndexedMap.Map.Del | src/map.c:321-340 | removes exactly the binding; the map stays consistent exactly if the key is not NULL |
| BoundedStack.Stack.constructor | src/stack.c:6-20 | an empty stack with the room asked for, none for a capacity that is not positive |
| BoundedStack.Stack.Push | src/stack.c:22-41 | appends, or leaves the stack alone and reports -EINVAL for NULL and -ENOBUFS when full |
| BoundedStack.Stack.Pop | src/stack.c:51-57 | takes the last item; NULL on an empty stack |
| BoundedStack.Stack.Top | src/stack.c:43-49 | the last item without taking it |
| Expressions.CalculatorIsCorrect | src/calculator.c:920-1134 | for every grammar tree, with nested calls of any number of arguments, the run leaves exactly one value, that of the tree with left-associative + - * / % and right-associative ^; it fails exactly when the tree has no value or a one-argument function is misplaced |
| Expressions.Correct | src/calculator.c:1000-1086 | the same in every context an expression may stand in: any output below, any operator stack that holds, any continuation that ends it |
| Expressions.CorrectArgs | src/calculator.c:967-999 | argument lists leave their values above the marker in order |
| Expressions.CloseCall | src/calculator.c:132-321 | a call takes exactly the values above its own marker and puts one value in place of marker and values |
| Expressions.Reduce | src/calculator.c:1012-1026 | an operator whose operands are in place is evaluated, once, as soon as the expression ends |
| Expressions.FailsOnlyOnZeroDivisor | src/calculator.c:323-389 | without one-argument functions the run fails exactly when some / or % in the tree has a zero right operand |
| Expressions.UnaryOnTheRightFails | src/calculator.c:147-162 | n1 + abs(n2) has a value but is refused, abs(n2) + n1 is computed |
| Expressions.MedianIsMiddle | src/calculator.c:240-284 | the median is the ceil(n/2)-th smallest of its n arguments |
| Expressions.InsertAllSorts | src/calculator.c:240-284 | repeated insertion sorts, and is a permutation |
| Expressions.ExtremesAreExtreme | src/calculator.c:197-216 | minimum and maximum are arguments that no argument is less or greater than |
| Meanings.OperatorMeans | src/calculator.c:323-389 | with exact arithmetic each of the six operators gives the sum, difference, product, quotient, remainder l - trunc(l / r) * r or power of its operands, and fails exactly for a zero divisor |
| Meanings.ExtremeCall | src/calculator.c:197-216 | a call of min or max gives an argument that no argument is less or greater than, rounded, for every order and any arithmetic |
| Meanings.MedianCall | src/calculator.c:240-284 | a call of median gives the ceil(n/2)-th of its arguments in ascending order, rounded |
| Meanings.CallMeaning | src/calculator.c:132-321 | with exact arithmetic a call has one value: the least or greatest argument, the sum, the mean, the middle argument by counting, the mean of the squared distances from the mean, or that of the one-argument function |
| Meanings.TreeMeans | src/calculator.c:920-1134 | the value of a tree is the one real number that it means, and a tree without a value means none |
| Meanings.CalculatorMeans | src/calculator.c:920-1134 | the run of the tokens of a tree leaves exactly this number, and fails exactly when there is none or a one-argument function is misplaced |
| Exactness.ExactIsPossible | src/calculator.c:60-101 | there is arithmetic that is exact in this sense |
| Postfix.NeverOverflows | src/calculator.c:920-1134 | for any token list at all neither stack ever holds more items than there were tokens |
| Postfix.RunFromPrefix | src/calculator.c:940-1134 | going on from the state after i tokens is the run of all tokens |
| Postfix.DoOp | src/calculator.c:323-389 | two operands are replaced by the rounded result; a zero divisor gives -EFAULT and nothing else does |
| Postfix.DoFunction | src/calculator.c:132-321 | takes exactly the inputs above the topmost marker and puts the rounded result in its place; the refusals of the source and no others |
| Postfix.Variance | src/calculator.c:285-316 | the variance over all inputs, kept on a second stack |
| Postfix.SortInputs | src/calculator.c:240-275 | insertion sort on two stacks gives the sorted inputs |
| Postfix.MiddleInput | src/calculator.c:240-284 | the median as defined on the list of inputs |
| Postfix.EvalStackPush | src/calculator.c:860-918 | evaluates calls and operators with operands, pushes values, and leaves operators without operands on the stack |
| Postfix.MoveWhile | src/calculator.c:976-1113 | the popping loops move exactly the operators that the incoming token drives away |
| Postfix.StepToken | src/calculator.c:940-1090 | one token does to the two stacks what it does in the machine |
| Postfix.ToPostfix | src/calculator.c:920-1134 | on stacks with room for one item per token the result and the exit code are those of the machine, for every token list |
| Postfix.Calc | src/calculator.c:1450-1519 | the single value left, -EFAULT in every other case, from the classified tokens on |
| Tokenizer.Tokenize | src/calculator.c:588-809 | cuts the text as specified, and errs exactly on empty text, unequal brackets or nothing but operators and brackets; the token buffer is overrun exactly when some token has more than max characters |
| Tokenizer.OverrunIsOne | src/calculator.c:608-732 | no token has more than max + 1 characters, so that only the terminating zero can lie behind the buffer |
| Tokenizer.ScanNumber | src/calculator.c:715-732 | how far a number goes on, with one point, one exponent and its signs, within the token limit |
| Tokenizer.Assemble | src/calculator.c:614-752 | the token that starts here; a minus sign is taken into a number where an operand is expected |
| Tokenizer.OneRead | src/calculator.c:614-752 | a printed lexeme is read as its token, and as all of it, exactly when what follows does not continue it and a negative number stands where an operand is expected; a number that starts with its point gets a zero in front |
| Tokenizer.BracketsCounted | src/calculator.c:676-690 | the brackets that are counted are those that stand in the text before the first invalid character |
| Tokenizer.InvalidEnds | src/calculator.c:614-618 | the tokens of a text are those of the part before its first invalid character |
| Tokenizer.LiteralRead | src/calculator.c:715-732 | a literal with fraction and exponent is read from any of its digits to its end, and from there on as far as the text behind it continues it |
| Tokenizer.TokenizeUndoesPrint | src/calculator.c:588-809 | for every list of valid lexemes and any number of blanks around each: tokenizing the text gives their tokens exactly when every lexeme stands alone, unary and binary minus told apart by the token before |
| Formulas.SameExpectation | src/calculator.c:558-585 | the type that the tokenizer tests to tell a sign from an operator is the type that the calculator acts on |
| Formulas.TreeIsRead | src/calculator.c:588-809 | for every tree, every way of writing its numbers and any blanks: the text is cut into the tokens of the tree exactly when no number with an exponent is followed by + or - without a blank |
| Formulas.TreeIsPlausible | src/calculator.c:790-806 | the tests on the number of brackets and operators never refuse a tree |
| Formulas.Calculate | src/calculator.c:1450-1519 | from the text to the value: -1 for the empty text, -EFAULT for refused texts and failed runs and for anything but one value left, else that value; overruns the token buffer exactly when the text has a token of more than max characters |
| Formulas.FormulaIsCorrect | src/calculator.c:1450-1519 | the text of every grammar tree that is read as its tokens gives the value of the tree, and fails exactly when the tree has no value or a one-argument function is misplaced; the token buffer is not overrun |
| Formulas.SourceFormula | src/calculator.c:526-556 | with the names that the source knows: every tree over its functions, written with these names and with literals that are converted back, gives its value, with or without blanks |
| Formulas.NamesAreRead | src/calculator.c:526-556 | every function of the source is named by a word, which names no other function |
| Formulas.SumIsOneNumber | src/calculator.c:715-732 | for every literal with an exponent and all digits: the literal, a sign and the digits without a blank are one token |
| Formulas.UnequalBracketsFail | src/calculator.c:793-799 | a text with more opening than closing brackets, or fewer, before its first invalid character fails |
| Formulas.InvalidEndsFormula | src/calculator.c:614-618 | what stands behind an invalid character changes nothing |
| Texts.FormulaMeans | src/calculator.c:1450-1519 | with exact arithmetic the text of a tree gives the one number that the tree means |
| Texts.OperatorText | src/calculator.c:323-389 | the text of two numbers with + - * / % or ^ between them gives what that sign means, and fails exactly for / and % with a zero behind |
| Texts.ThreeText | src/calculator.c:812-858 | in the text of three numbers the second sign goes first exactly if it is one of * / % ^ behind + or -, or ^ behind * / % or ^ |
| Texts.NameText | src/calculator.c:132-321 | min, max, sum, avg, mean, median or var in front of numbers in brackets gives what that name means; a one-argument name gives its function |
| Search.Binstr | src/bstrlib.c:1097-1173 | the least position from pos on where the needle occurs, -1 exactly when there is none or pos is negative; ends although it matches scattered subsequences and restarts |
| Replacing.FirstFromIsFirst | src/bstrlib.c:1097-1173 | the first match that the replacement is defined by is the least one |
| Replacing.FirstByBinstr | src/bstrlib.c:1812-1815 | the search that replacing is given, binstr, computes this first match for every string, position and pattern |
| Replacing.SearchFunction | src/bstrlib.c:1660-1662 | the functions that the engine may be given for its search are exactly those that compute this first match, whatever way bytes are compared |
| Replacing.ReplacedIsSegments | src/bstrlib.c:1745-1797 | replacing left to right is the same as laying down segments between the listed matches |
| Replacing.ReplacedIsJoined | src/bstrlib.c:1660-1804 | replacing is cutting at find, each time at the first occurrence from the left, and joining the parts with repl instead |
| Replacing.PlanIsSegments | src/bstrlib.c:1745-1797 | the same for every search and every meaning of the rest that obey the two laws of a leftmost search, by induction over the list of matches |
| BStrings.SnapUp | src/bstrlib.c:79-101 | the new capacity is the least power of two that is greater than what is asked for and 8 at least |
| BStrings.BString.Balloc | src/bstrlib.c:107-170 | makes room and keeps the content |
| BStrings.BString.Move | src/bstrlib.c:1709-1793 | a block move within the buffer, correct when the two ranges overlap, changes nothing else |
| BStrings.Collect | src/bstrlib.c:1745-1779 | the growing list holds all leftmost, non-overlapping matches, and the sum is what they add to the length |
| BStrings.BString.ReplaceEqual | src/bstrlib.c:1693-1703 | replace-all by a text of the same length, in place |
| BStrings.BString.ReplaceShrinking | src/bstrlib.c:1705-1729 | replace-all by a shorter or empty text with blocks moved down |
| BStrings.BString.ReplaceExpanding | src/bstrlib.c:1745-1797 | replace-all by a longer text with blocks moved up from the end |
| BStrings.ReadsReleasedExample | src/bstrlib.c:1682-1689 | three bytes in a buffer of four, the first two to replace the third: the released buffer is read; in a buffer of eight it is not |
| BStrings.BString.FindReplace | src/bstrlib.c:1660-1804 | from pos on all leftmost, non-overlapping matches are replaced, in all three regimes, find and repl may be any parts of the string itself; refused exactly for a negative pos or an empty find; a released buffer is read exactly if a longer replacement lies wholly before pos, there is a match and the result needs more room than the buffer has |
| Streams.BConcat | src/bstrlib.c:355-382 | appends a text, which may be part of the string itself, and ends the string properly even when its terminator was overwritten |
| Streams.BDelete | src/bstrlib.c:1039-1061 | the part that is left, for positions and lengths clamped at both ends; refused exactly when the clamped length is negative |
| Streams.BInsert | src/bstrlib.c:1540-1583 | inserts a text, which may be part of the string itself, filling the gap when the position lies beyond the end |
| Streams.Scan | src/bstrlib.c:2110-2112 | with a sentinel behind the data the unbounded search stops at the first terminator |
| Streams.BStream.BsReadLnA | src/bstrlib.c:2098-2154 | appends exactly the first line, terminator included, or everything, and leaves exactly the rest to be read, for every way the read function portions its data |
| Streams.BStream.BsUnread | src/bstrlib.c:2347-2350 | what is put back is read next |
| Streams.LineFound | src/bstrlib.c:2129-2153 | a terminator in a later portion is the first one of everything that was still to be read |
| Splitting.Split | src/bstrlib.c:2676-2692 | the callback collects the parts between the split characters |
| Splitting.JoinBlk | src/bstrlib.c:2369-2426 | joins with the separator in between, in one buffer of exactly the right size |
| Splitting.Size | src/bstrlib.c:2379-2392 | the size computed beforehand is that of the joined string |
| Splitting.JoinOfSplit | src/bstrlib.c:2788-2838 | joining the parts of any string gives the string |
| Splitting.SplitOfJoin | src/bstrlib.c:2788-2838 | splitting a joined list gives the list, if it is not empty and no entry has the character |
| Splitting.PiecesLack | src/bstrlib.c:2676-2692 | no part has the split character in it |
| Splitting.PiecesCount | src/bstrlib.c:2676-2692 | one part more than split characters |
| Splitting.Tokens | src/bstrlib_helper.c:426-452 | delimiters alone and words between them, no word cut in two; joined with nothing they are the line again |
| Splitting.TokensAreUnique | src/bstrlib_helper.c:426-452 | there is only one list of tokens that a line can be cut into |
| Substitution.SubstituteLine | src/ptt2asm.c:657-679 | the four loops over tokens, key lengths and keys replace in each token of the line the longer keys first |
| Substitution.LineWithoutKey | src/ptt2asm.c:657-679 | a line that no key occurs in passes unchanged, token by token and as a whole |
| Substitution.KeyBecomesValue | src/ptt2asm.c:664-675 | a token that is a key is untouched by shorter keys that occur in it, wherever they stand in the list; it becomes its value, which then only the later keys of its length and the shorter keys can change |
| Substitution.LineStandsFor | src/ptt2asm.c:657-679 | when no key is part of a value, nor of a token that is no key, every token that is a key becomes the value of its first entry and all others stay |
| Substitution.KeyInToken | src/ptt2asm.c:664-675 | in a token that holds one key, once, the value takes its place and the rest of the token stays, unless a key occurs in what comes out |
| Substitution.HalfOfN | src/ptt2asm.c:664-675 | so (N/2) becomes the length in place of N |
| Substitution.LongerKeysFirst | src/ptt2asm.c:629-639 | NAME is replaced as a whole although N is a key and comes first |
| Substitution.ValuesAreSearched | src/ptt2asm.c:664-675 | a value that is itself a shorter key is replaced in its turn |
| Nesting.Scan | src/ptt2asm.c:193-262 | one pass finds the first opening line and the first closing line of its kind and name, and splits the code there |
| Nesting.AnalyseKeyword | src/ptt2asm.c:170-328 | the recursion ends and gives the translation of the first region and of what it uncovers |
| Nesting.AnalyseShrinks | src/ptt2asm.c:263-320 | a round leaves fewer translatable opening lines, or the code as it was when there is none |
| Nesting.AnalyseKeeps | src/ptt2asm.c:193-320 | every line that is no keyword comes out once and in order |
| Rounds.RunRounds | src/ptt2asm.c:440-506 | the loop over rounds comes to the specified outcome |
| Rounds.ForeverNeverLeaves | src/ptt2asm.c:440-506 | the outcome Forever is the loop that is never left after any number of rounds, and in all other cases it is left |
| Rounds.DoneKeeps | src/ptt2asm.c:440-506 | when the loop ends with code, no keyword is left and every other line is there once and in order |
| Rounds.ForeverIffLeftOver | src/ptt2asm.c:440-506 | unless a round fails, the loop never ends exactly when closing lines are left over |
| Rounds.AnalyseBalance | src/ptt2asm.c:193-320 | a round keeps the number of closing lines that will be left over |
| Kernels.OneRound | src/ptt2asm.c:170-328 | one round on well-nested code is one step on its tree; it keeps the complete translation and reduces the number of regions |
| Kernels.RoundsTranslate | src/ptt2asm.c:440-506 | well-nested code is translated completely, in however many rounds it takes |
| Kernels.LoneRegionStuck | src/ptt2asm.c:440-506 | a region whose frame holds a closing but no opening keyword keeps the rounds going for ever |
| Kernels.NoRoundFails | src/ptt2asm.c:440-506 | no round fails on nested code whose regions have a frame and are not closed early, whatever closing lines the frames hold |
| Labels.CheckLabels | src/ptt2asm.c:371-434 | two nested loops decide whether equal names of opening and closing lines pair up in number |
| Labels.KernelsPass | src/ptt2asm.c:371-434 | every well-nested kernel with distinct names passes |
| Labels.LoneRegionPasses | src/ptt2asm.c:371-434 | one region alone passes whatever its name is |
| Ptt.OneKeyword | src/ptt2asm.c:126-129 | the prefix test tells the four keywords apart; no line opens and closes |
| Ptt.LoopHeader | include/isa_x86-64.h:101-158 | appends the lines that load start and end value, align, and label |
| Ptt.LoopFooter | include/isa_x86-64.h:160-207 | appends add, cmp and jump, and has no line to append for an unknown direction |
| Ptt.ParseLoop | include/ptt_keyword_loop.h:38-129 | a region is its frame around the unchanged inner lines; all argument errors are reported before any line is put in |
| Ptt.LabelsAreNotOpened | src/ptt2asm.c:78-99 | a label line made from an argument can never be a complete opening line |
| Ptt.PttShrinking | include/ptt_keyword_loop.h:38-129 | a translation needs a complete opening line and puts none in, so recursion and rounds use up opening lines |
| Compiler.PreparePtt | src/ptt2asm.c:331-520 | the whole compiler comes to the specified result for every text |
| Compiler.PttUntouched | include/ptt_keyword_loop.h:99-121 | instructions are neither keywords nor generated |
| Compiler.PttEffects | include/isa_x86-64.h:151-154 | the label is the only generated line that can be a keyword, and how it changes the number of closing lines |
| Compiler.EveryText | src/ptt2asm.c:331-520 | for every text that passes the label check: when code comes out it has no keyword and all instructions once and in order; and, unless a round fails, the compiler never ends exactly when some LOOP label reads like a closing keyword; without a further condition: it ends if no label does, and gives no code if one does |
| Compiler.NestedText | src/ptt2asm.c:331-520 | for every nested text that passes the label check, without further condition: the compiler never ends exactly when some LOOP label reads like a closing keyword, and gives code exactly when none does |
| Compiler.KernelsCompile | src/ptt2asm.c:331-520 | every well-nested kernel with distinct names is compiled completely |
| Compiler.LabelKeepsItGoing | src/ptt2asm.c:440-506 | a lone loop with such a label passes the label check and never ends |
| Arguments.ArgumentsRead | src/ptt2asm.c:78-124 | printed arguments are read back, and the first one is the name |
| Arguments.LoopTranslates | include/ptt_keyword_loop.h:38-129 | a LOOP line printed with given arguments is translated with exactly these arguments |
| Arguments.NeverEnds | src/ptt2asm.c:331-520 | the text of every lone loop whose label reads like a closing keyword passes the check and keeps the compiler going for ever |
| Arguments.StuckKernel | src/ptt2asm.c:331-520 | a concrete text of two lines for which it does |
| CodeGen.HeaderEffect | include/isa_x86-64.h:101-158 | running the header sets counter and end register to the start and end value |
| CodeGen.FooterRun | include/isa_x86-64.h:160-207 | running the footer advances the counter and goes back to the label exactly if the condition holds |
| CodeGen.ViewIsSound | include/isa_x86-64.h:101-207 | for distinct labels the lines of a program, run one by one, obey the laws of structured loops |
| CodeGen.EmittedStands | include/ptt_keyword_loop.h:99-121 | wherever the code of a program stands, its loops stand with header, body and footer in place |
| Simulation.Forward | include/isa_x86-64.h:101-207 | if the structured program ends, the flat code placed anywhere in a program gets to its end in the same state |
| Simulation.Backward | include/isa_x86-64.h:101-207 | if the flat code ends, the structured program ends in the same state |
| Simulation.WholeProgram | include/ptt_keyword_loop.h:99-121 | both for a whole program: the flat run ends in exactly the states the structured program ends in |
| CodeGen.CodeIsCorrect | include/ptt_keyword_loop.h:99-121 | for every program with distinct labels and all states: the emitted code ends in a state exactly when the program does |
| Loops.CountingUp | include/isa_x86-64.h:160-207 | a loop with < and a positive step runs ceil((e - i) / k) times when i is below e, and once otherwise, exactly if the counter behind the last pass does not overflow (or, from i not below e, overflows to a value not below e) |
| Loops.LoopCount | include/isa_x86-64.h:101-207 | the same from the header on, in terms of the values written in the LOOP line: as many passes as that exactly if i + ceil((e - i) / k) * k is below 2^63 |
| Loops.PassesOfIterate | include/isa_x86-64.h:160-207 | the number of passes exists exactly when the loop ends, and is one at least |
| Loops.DirectionKept | include/isa_x86-64.h:178-201 | the jump means the direction for exactly the directions other than <= and >=; for these it means < and > |
| Loops.StartKept | include/isa_x86-64.h:107-113 | after the whole header the counter holds the start value as written exactly if it does not begin with 0 or is zero, whatever is loaded for the end |
| Loops.EndKept | include/isa_x86-64.h:115-148 | after the whole header the other register holds the end value as written, sum and difference included, if its text does not begin with 0; if it does, exactly when it is zero; an offset that is the register itself excepted |
| Loops.LoadedOffset | include/isa_x86-64.h:123-144 | with that register as the offset the sum is twice the base and the difference is 0 |
| Loops.EndIsSum | include/isa_x86-64.h:123-144 | an end value written as a sum is loaded as the sum, and one written as a difference as the difference, unless its offset is the register being loaded |
| Loops.ProgramAsWritten | include/isa_x86-64.h:101-207 | a program whose lines all say what they mean ends in the same states by its text as by the code: start, end and direction as written |
| Translation.NameIsFirstArgument | src/ptt2asm.c:78-124 | the two readers of a keyword line, name and argument list, agree on the name |
| Translation.FlatIsEmitted | src/ptt2asm.c:170-328 | what the compiler makes of a kernel is the code of the program that its lines describe |
| Translation.LabelsAreNames | include/isa_x86-64.h:151-154 | no label occurs more often in the code than regions have its name |
| Translation.KernelIsCorrect | src/ptt2asm.c:331-520 | from text to behaviour: a well-nested kernel with distinct names compiles, and its code ends in a state exactly when the kernel does; for kernels without <= and >=, without leading zeros and such offsets, when the kernel as it is written does |
| Assembly.EmittedIsRead | include/isa_x86-64.h:107-207 | an assembler reads the text of every line that the compiler puts in as the instruction, label or comment it stands for: mnemonic, destination first, one mnemonic for each condition |
| Assembly.TextRunsAsCode | include/isa_x86-64.h:101-207 | running what is read from the texts of the lines ends in the same states as running the lines |
| Assembly.KernelTextIsCorrect | src/ptt2asm.c:331-520 | from kernel text to assembly text: a well-nested kernel with distinct names compiles, and the assembly text, read by an assembler and run, ends in a state exactly when the kernel does |
| CommandQueues.CommandQueue.SendCmd | src/threads.c:463-511 | the command comes last, with head and tail pointers in order for the empty and the non-empty list |
| CommandQueues.CommandQueue.TakeCmd | src/threads.c:371-377 | the first command is taken, the others stay in order |
| CommandQueues.CommandQueue.SignalDone | src/threads.c:442-446 | done is set, no command is lost |
| Protocol.InvAlways | src/threads.c:340-511 | the invariant (queues, positions, rounds, barrier count, waits done and to come) holds in every state of every run, for any number of workers and every interleaving |
| Protocol.ArriveOpens | src/threads.c:447-448 | the last arrival opens the barrier and no earlier one does |
| Protocol.LeaveKeeps | src/bench.c:32-57 | going on from any of the barrier waits, calibration rounds included, keeps the invariant |
| Protocol.SendKeeps | likwid-bench.c:735-788 | sending the commands of the plan to the workers one after the other keeps the invariant |
| Progress.CommandsInOrder | src/threads.c:340-461 | a worker has executed a prefix of what it was sent, in order and once each |
| Progress.SameWaits | src/bench.c:32-144 | the k-th barrier wait of any two workers is at the same place, if they make the same calibration rounds |
| Progress.MeasurementsDoNotOverlap | src/bench.c:106-120 | while one worker is in its measured loop all others are at the measurement |
| Progress.InitializedBeforeTimed | likwid-bench.c:735-788 | no worker measures while another initializes, whatever rounds each makes |
| Progress.NoDeadlock | src/threads.c:340-461 | with the same number of rounds in all some step is always possible until all have ended |
| Progress.OnlyWithSameTotals | src/bench.c:32-57 | and only then can all workers end |
| Progress.RunsAreFinite | src/threads.c:340-461 | every run is bounded by a measure of the start state that every step reduces |
| Progress.EveryRunFinishes | src/threads.c:340-461 | every run is bounded, and one that cannot go on has ended all workers |
| Scripts.StepDoes | src/threads.c:340-461 | every step does the first thing that a worker has still to do, or nothing of it |
| Scripts.WorkerFollowsScript | src/bench.c:32-144 | in every run a worker does a first part of its script of work and waits, and all of it when it has ended; every calibration round and every measured loop lies between its two waits |
| Scripts.WorksOfCommand | src/threads.c:388-440 | the work for a command: initializing; nothing; starting, calibrating as often as there are rounds, and measuring once; exiting |
| Scripts.EveryWorkerMeasures | src/bench.c:106-120 | every run can be led to its end, and on the way every worker is in its measured loop if the plan has a RUN |
| Topology.SortLevel | src/topology.c:256-292 | count, accumulate and distribute is a stable sort by one key, for negative keys too, unless the number of counters overflows: exactly when two values are 2^31 - 1 or more apart |
| Topology.ByValueSorted | src/topology.c:256-292 | a stable sort by one key of what is sorted by the later keys is sorted by both |
| Topology.LevelKeepsEntries | src/topology.c:256-292 | a level keeps all entries, those with nine equal keys in their order |
| Topology.RadixSort | src/topology.c:253-297 | with the buffers changing places the result is sorted by all nine keys and has the same entries; overflows exactly when that holds of one of the keys of the input |
| Topology.EntriesPermuted | src/topology.c:210-302 | such a list is a permutation |
| Topology.HwthreadsSort | src/topology.c:210-302 | a stable permutation sorted lexicographically by the nine keys, in the order that `closed` chooses; -1 exactly for no threads; the overflow has its exact condition on the input; in the result no thread stands behind one that it comes before by socket, die, NUMA domain, caches, core, SMT id and number, with the SMT id in front if `closed` |
| Topology.OrderOfFields | src/topology.c:224-252 | the order of the nine keys is the order by the fields of the threads, and no thread is lost or doubled |
| Topology.HwthreadList | src/topology.c:790-968 | exactly the usable threads of the domain in sorted order, -ENODEV exactly if there are none; overflows exactly when it sorts and the sort does; the sorted list is in that order of the fields |
| Topology.SelectedAre | src/topology.c:790-968 | the list holds the numbers of the threads that are usable and have the id, at their positions in the order of the sorted list, all of them and no others |
| Topology.SortedByValue | src/topology.c:1196-1218 | collecting a sorted list value by value changes nothing |
| Topology.NodeList | src/topology.c:1145-1218 | the double loop over SMT ids gives the sorted list exactly when no SMT id is negative, unless the sort overflows; the sorted list is in that order of the fields |
| Allocator.LinearOffset | src/threads.c:48-60 | the accumulated offset is the row-major position, for any number of dimensions and negative offsets too |
| Allocator.LinearInside | src/threads.c:48-60 | positions of indices inside the sizes lie inside the block |
| Allocator.LinearInjective | src/threads.c:48-60 | different indices have different positions |
| Allocator.RoomForAll | src/allocator.c:100-215 | behind the first element there is room for all of them, in any number of dimensions with offsets |
| Allocator.Linear3 | src/allocator.c:380-396 | the cell that initialisation writes is the one that the linear offset gives |
| Allocator.Stream.Allocate | src/allocator.c:100-215 | succeeds exactly when every dimension is accepted and has an element; then the block has the exact size and all elements from ptr on lie inside; otherwise nothing changes |
| Allocator.Stream.Initialize | src/allocator.c:438-530 | every one of the s1*s2*s3 cells from ptr is written, counted once, and no other cell changes |

## Left out

- GHash.GHashTable.Insert: requires a table of at most 2^28 slots, because beyond the shift computation of the source overflows.
- GHash.GHashTable.constructor: key equality and hash function must respect the content of keys; string keys that contain a zero byte do not, since equality stops at it and the hash does not (src/map.c:53-76).
- IndexedMap.Map.Add: takes the copy of the key, which the source makes, as a second argument.
- Substitution.SubstituteLine: tokens, keys and values are separate strings of one-byte characters; how the lists of keys and values are gathered (src/ptt2asm.c:522-640) is not modelled.
- Streams.BStream.BsReadLnA: the line is appended to a string other than the stream's own buffer, with one terminator character.
- Tokenizer.Tokenize: requires text without a zero byte and a positive token limit; what an overrun of the token buffer does is not modelled, only when it happens.
- Formulas.Calculate: the conversion of number texts (strtod) is a parameter; the commands of the interactive program, off by default, are not modelled.
- Loops.CountingUp: the body must end and leave counter and end value alone.
- Translation.KernelIsCorrect: source lines are opaque instructions that define no labels, do not jump and do not read flags; registers are 64 bits wide.
- Topology.SortLevel: what the source does after the number of counters has overflowed is not defined; the model leaves off there.
- Meanings.CalculatorMeans: assumes exact arithmetic, without rounding; powers with exponents that are no natural numbers and the functions of one argument are parameters.
- Assembly.KernelTextIsCorrect: the instructions of the kernel itself must do what an assembler takes them for, be no jumps, comparisons or labels, and the loops must have names that can be labels.
- Topology.HwthreadList: each of the three source functions is this one with a different id.
- Allocator.Stream.Allocate: sizes are counted in elements of one type; the truncation of indices passed as int arguments is not modelled.
- Protocol.InvAlways: one workgroup; commands to other workgroups only delay the sender. Sending takes no waiting for the done flag, which the main thread does not read between sends.
- Progress.NoDeadlock: assumes equal total calibration rounds, which the code leaves to each worker's own timer.
- Floating-point arithmetic, rounding of intermediate results through text, and the order of numbers are parameters.
- The calculator commands set and get, preferences, and one-argument functions inside larger expressions other than as stated.
- Timers, the 60 second timeout of commands, thread creation and affinity.
- Allocation failure, freeing and ownership of memory, NULL strings, and string lengths near 2^30.
- Removing all entries, destroying and iterating over hash tables and maps.
- Assembly for processors other than x86-64.
- The WARMUP calibration has the same waits as MEASURE and is not a separate case.
- Splitting at strings (bsplitstrcb) and at character sets, reading with several terminators, case-insensitive search other than as a parameter.
- Command line, configuration files, sysfs, bitmaps, tables, and output in JSON and CSV.
