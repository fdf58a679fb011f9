# Preverifier model

A Dafny model of the class-file preverifier in `lib/tools/preverify/src` and of the TCP
receive ring in `src/pico/NetNatives.cpp`, with proofs of what they promise.  The
preverifier loads a class, checks its code by abstract interpretation, inlines its
subroutines, and writes the class again with stack maps.

`dafny verify dfyconfig.toml` checks everything.

## How it is built

| part | modules |
|---|---|
| type lattice and dataflow verifier | Types, Lattice, Bytecode, Merging, Dataflow (with jsr, ret, masks and the second run); Machine is a defensive virtual machine for code without subroutines that defines what the types mean; Soundness, Guarantees and StackLimit relate the two; AnalysisTraces, InnerReturnMethod and FallThroughMethod follow the analysis of given methods turn by turn, and MergeLoops looks at one loop of the merge |
| subroutine inliner and dead-code remover | JsrMachine (a machine with jsr and ret), Inliner, InlinedCode, InlinedHandlers, HandlerRanges, InlinedLines, InlinerSoundness, InlinerPasses; InlinerLimits, FallThroughLimit and LastRange are methods that it changes |
| from the verifier to the inliner, and the loop around both | ReturnAddresses and RecordedNotes (the analysis provides what the inliner is given), Decoding and RewrittenAgain (its result is a method again), VerifyMethod |
| inflater | Bits, Canonical (section 3.2.2 of RFC 1951), Deflate (sections 3.2.3 to 3.2.7), HuffmanTable, FixedCodes, Inflater, LiteralsOnly |
| class writer and reader | ConstantPool, ClassBytes, ClassWriter, MethodFormat, MethodWriter, ClassReader, ClassFormat, ClassFileWriter, ClassFileReader, ClassRoundTrip, LoadedClasses, LoaderRules, StackMapTypes |
| tables and strings | Interning, MethodTables, Descriptors, DescriptorScan, ModifiedUtf8, Octets |
| receive ring | ReceiveRing, ReceiveEnds |

What the program changes in place is a class or an array here: the instruction table of
the analysis, the list of copies of the inliner, the bit buffer and output of the inflater,
the code tables, the class buffer, the reader's pointer, the string tables and the ring.
Each such method is tied to a function of the old state, and the theorems are about those
functions.  Errors and panics of the program are results.

The main theorems are `Soundness.TypeSafety`, `Dataflow.Analysis.Analyse`,
`RecordedNotes.AnalysedIsAccepted`, `InlinerSoundness.InliningPreservesBehaviour`,
`VerifyMethod.VerifyMethod`, `VerifyMethod.PassesPreserveBehaviour`, `Inflater.State.Inflate`,
`HuffmanTable.MakeCodeTable`, `LoadedClasses.VerifiedClassIsRead`,
`StackMapTypes.EntryLeadsBack`, `Interning.InternAll`, `MethodTables.FinalCheckIsExact`,
`ReceiveRing.StreamIsConserved` and `ReceiveEnds.LostExactly`.

## Where the code differs from what it promises

- max_stack is compared when an instruction pushes, not when a handler is entered: a
  method with max_stack 0 and a handler holds one word there.
  `StackLimit.StackLimitExactly` says exactly when runs keep to the limit, and
  `StackLimit.GuardedGotoExceeds` is an accepted method that does not.
- Assignability is not transitive: `Lattice.AssignableExactly` says exactly what it is, and
  `Lattice.AssignableTransitiveExactly` exactly when it is transitive after all.
- inflate takes a dynamic block that uses no distance code for an error, although RFC 1951
  allows one.  `LiteralsOnly.ExpandedExactly` says exactly which streams are lost.
- The inliner copies a subroutine only if the masks recorded for its entry are those of the
  calling instruction with the entry added.  The verifier does not see to that: a subroutine
  that is also called from elsewhere loses masks, and a call of it from within another
  subroutine is then left out.  `InlinerLimits.InnerReturnIsLost` is such a method, a
  `return` inside an inner `finally`, which after inlining returns elsewhere;
  `InnerReturnMethod.IsAnalysed` is its analysis, visit by visit.  The theorem on
  behaviour therefore has the masks of calls as an assumption of its own, `CallsNested`,
  apart from what the verifier establishes (`Accepted`); `InlinerPasses.CallsNestedExactly`
  says that it holds if and only if every call gets its copy.  In the same way
  `BranchesNested` says that branches and handlers lead outwards
  (`InlinerPasses.BranchFoundExactly`), `FallsNested` that no subroutine is left by falling
  through (`FallThroughLimit.FallThroughIsLost` is a method where only that fails, and that
  inlining changes), `RetsInnermost` that a ret leaves the innermost subroutine only, and
  `AddressesOnlyStored` that return addresses are consumed by astore only.
- fixupExceptionHandlers looks up the instruction at the end of a range also when the range
  ends with the code, behind code_data; the pass itself makes such ranges, which the next
  pass reads.  `HandlerRanges.FixupExceptionHandlers` says exactly when it does,
  `InlinerPasses.RewriteCode` and `VerifyMethod.VerifyMethod` have it as an end of their own,
  `InlinerSoundness.MadeRight` says for which values found there the result is right all the
  same, and the theorems on behaviour ask for it.  `LastRange.LastRangeIsLost` is a method
  that loses its handler.
- The first loop of merge_stack does not look for the end of the incoming items.  Only
  unusable items, which an uninitialised object on the stack across a jsr leaves, let it run
  over: `MergeLoops.ReadsInside` and `MergeLoops.ReadsMissingItem`.  The model reports the
  mismatch there.
- get_type_code prints the name of a class into a buffer of 1024 bytes, but a class file may
  have longer names: `StackMapTypes.FitsBufferExactly` and `StackMapTypes.LongNameOverruns`.
- The loader accepts a Code attribute without bytes and the writer leaves it out:
  `LoadedClasses.LoadWriteLoad` says that nothing else is lost.
- The check of Utf8 constants accepts longer forms than the shortest, so that one name has
  several spellings: `ModifiedUtf8.Reencoded` and `ModifiedUtf8.LongFormsAccepted`.
- A receive call returns 0 at the end of the stream, where the Java interface promises -1; a
  call for no bytes returns 0 as well: `ReceiveEnds.ReturnedExactly` and `ReceiveEnds.TwoZeros`.
- Bytes still buffered when an error is signalled are lost, except those of a call that is
  past its test of the state: `ReceiveEnds.LostExactly` and `ReceiveEnds.ResetLosesBytes`.
- The callback drops the part of a segment that does not fit, and what arrives later is
  appended behind the gap: `ReceiveEnds.NothingDroppedExactly` says when nothing is dropped,
  and `ReceiveEnds.StreamHasHole` is a stream with a hole.
- Signature2ArgsSize is given descriptors before they are checked, and reads on behind the
  end of some: `DescriptorScan.ScanExactly` says exactly of which, and
  `DescriptorScan.ShortTextsRunOver` has three of them.

## Model

| member | source | states |
|---|---|---|
| Lattice.CommonSuperclassIsDeepest | lib/tools/preverify/src/check_code.c:3739-3778 | the class found lies above both classes and below every other class above both, for any class tree |
| Lattice.FindCommonSuperclass | lib/tools/preverify/src/check_code.c:3739-3778 | the walk with two cursors returns that class |
| Lattice.LeqPartialOrder | lib/tools/preverify/src/check_code.c:3624-3779 | the precision order on verification types is a partial order |
| Lattice.JoinIsLeastUpperBound | lib/tools/preverify/src/check_code.c:3624-3779 | the merge that is not for assignment is the least upper bound over null, classes, interfaces, arrays of any dimension and primitives |
| Lattice.JoinLaws | lib/tools/preverify/src/check_code.c:3624-3779 | that merge is idempotent, commutative and associative, and orders types as the precision order does |
| Lattice.JoinClimbs | lib/tools/preverify/src/check_code.c:3624-3779 | a merge that was needed climbs strictly, so a register or stack item can change only finitely often |
| Lattice.AssignableExactly | lib/tools/preverify/src/check_code.c:3599-3603 | assignability holds if and only if the source conforms to the target with interfaces read as Object, and a deeper array is not given to an interface |
| Lattice.AssignableNotTransitive | lib/tools/preverify/src/check_code.c:3599-3603 | a concrete triple for which assignability is not transitive |
| Lattice.AssignableTransitiveExactly | lib/tools/preverify/src/check_code.c:3599-3603 | for a assignable to b and b to c, a is assignable to c if and only if a is not a deeper array and c an interface or array of one |
| Lattice.LeqAssignable | lib/tools/preverify/src/check_code.c:3599-3603 | a more precise type is assignable |
| Lattice.AssignableThenLeq | lib/tools/preverify/src/check_code.c:3599-3603 | assignable to b and b at least as precise as c gives assignable to c |
| Lattice.DecrementConforms | lib/tools/preverify/src/check_code.c:3574-3586 | elements of conforming arrays conform |
| Merging.MergeRecordBounds | lib/tools/preverify/src/check_code.c:2717-3124 | after a merge the incoming state is assignable to the record, the masks left are masks of both in order with the changes of both, and the record is no more precise than before |
| Merging.MergeRecordClimbs | lib/tools/preverify/src/check_code.c:2717-3124 | a merge leaves the record as it is, or marks it changed and climbs in types, flags or masks |
| Merging.MasksBelowExactly | lib/tools/preverify/src/check_code.c:3029-3090 | the mask merge changes nothing if and only if the masks recorded are some of those that come in, in order and with no fewer changes |
| Merging.MergeMasksClimb | lib/tools/preverify/src/check_code.c:3029-3090 | a mask merge that changes something drops a mask or adds a changed register, so masks can change only finitely often |
| Dataflow.FlowTargets | lib/tools/preverify/src/check_code.c:2542-2695 | the states an instruction sends on go exactly along the edges of the control-flow graph, handlers and calls included, and those of a ret behind calls |
| Dataflow.MergeMany | lib/tools/preverify/src/check_code.c:2542-2695 | merging into all successors absorbs every state sent, only weakens records, and lessens the work unless it changes nothing |
| Dataflow.ReturnMany | lib/tools/preverify/src/check_code.c:2575-2625 | after the returns of a ret every call of its subroutine has this ret, and what is joined behind it is absorbed unless the call is to be visited again |
| Dataflow.RetKeepsItsEntry | lib/tools/preverify/src/check_code.c:2589-2625 | the subroutine a ret returns from never changes, so its list of return places may be kept |
| Dataflow.UnmarkWork | lib/tools/preverify/src/check_code.c:2575-2580 | taking the mark of a jsr and marking its ret again lessens the work: a marked jsr with a ret counts twice |
| Dataflow.FlowsClean | lib/tools/preverify/src/check_code.c:2341-2524 | no bogus item reaches a stack |
| Dataflow.VisitKeeps | lib/tools/preverify/src/check_code.c:1434-1501 | for all code, subroutines included, a visit keeps: every unmarked reached instruction is settled with its successors, and only reachable instructions are reached; and it lessens the work |
| Dataflow.EvolvesKeepsSettled | lib/tools/preverify/src/check_code.c:1434-1501 | an instruction settled with its successors, or a ret with its return places, stays settled while only other records get weaker |
| Dataflow.SecondRun | lib/tools/preverify/src/check_code.c:606-621 | marking the calls without a ret, and letting them add no mask, leaves everything else settled |
| Dataflow.Analysis.MergeStack | lib/tools/preverify/src/check_code.c:2896-2946 | the in-place stack merge gives the merged record, and fails exactly on different depths or kinds |
| MergeLoops.ReadsInside | lib/tools/preverify/src/check_code.c:2919-2925 | for stacks of the same height, of which the recorded one has no unusable item, the first loop of merge_stack never reads an item that is not there, and passes all if and only if both have as many items and each can be assigned |
| MergeLoops.ReadsMissingItem | lib/tools/preverify/src/check_code.c:2919-2925 | two unusable items and a long: the first loop of merge_stack goes on behind the long |
| Dataflow.Analysis.MergedMasks | lib/tools/preverify/src/check_code.c:3029-3090 | the two loops, which first count and then copy, compute the merged masks, and tell whether they differ from those recorded |
| Dataflow.Analysis.MergeRegisters | lib/tools/preverify/src/check_code.c:2961-3090 | the in-place merge of registers and masks gives the merged record, truncated to the shorter set |
| Dataflow.Analysis.MergeFlags | lib/tools/preverify/src/check_code.c:3106-3124 | the in-place flag merge gives the merged record |
| Dataflow.Analysis.MergeIntoOneSuccessor | lib/tools/preverify/src/check_code.c:2717-2881 | one flow is merged into its target and nothing else changes |
| Dataflow.Analysis.MergeIntoSuccessors | lib/tools/preverify/src/check_code.c:2542-2695 | all flows of an instruction are merged, or the error of the first that cannot be |
| Dataflow.Analysis.MergeReturn | lib/tools/preverify/src/check_code.c:2739-2845 | a return is joined with the registers of the jsr by the changed bits of the mask, masks inside are cut off, and the jsr gets its ret; a second ret or a missing mask is an error |
| Dataflow.Analysis.MergeReturns | lib/tools/preverify/src/check_code.c:2589-2625 | the loop over all instructions returns behind every jsr of the subroutine |
| Dataflow.Analysis.VisitInstruction | lib/tools/preverify/src/check_code.c:1434-1501 | the body of the loop for a marked instruction does one visit |
| Dataflow.Analysis.Sweep | lib/tools/preverify/src/check_code.c:1434-1501 | one sweep over the array keeps the invariants and lessens the work if it visits anything |
| Dataflow.Analysis.RunDataflow | lib/tools/preverify/src/check_code.c:1434-1501 | the loop ends for every method, subroutines included, with no instruction left marked; failure means that some visit was rejected |
| Dataflow.Analysis.MarkUnreturned | lib/tools/preverify/src/check_code.c:606-618 | the loop marks the reached calls without a ret, and asks for a second run if and only if there are any |
| Dataflow.Analysis.Analyse | lib/tools/preverify/src/check_code.c:600-621 | both runs end; on success the table is a post-fixpoint of all instructions, subroutines included, in which only reachable instructions are marked; failure means that some visit was rejected |
| Guarantees.ReachedExactly | lib/tools/preverify/src/check_code.c:604-648 | FLAG_REACHED is set exactly on the instructions reachable in the control-flow graph |
| Soundness.AssignableSound | lib/tools/preverify/src/check_code.c:3599-3603 | a value of a type is a value of every type it is assignable to |
| Soundness.OperandSound | lib/tools/preverify/src/check_code.c:1631-2130 | what pop_stack accepts passes the run-time check of the operand |
| Soundness.ShuffleSound | lib/tools/preverify/src/check_code.c:2341-2524 | dup, pop and swap move the types as the machine moves the values, for one-word and two-word items |
| Soundness.DescribedIsSafe | lib/tools/preverify/src/check_code.c:1513-2130 | in a described state with settled code no run-time check fails: no underflow, no operand or register of the wrong type |
| Soundness.CreatesSound | lib/tools/preverify/src/check_code.c:2107-2126 | executing a new leaves every other typed cell typed, older objects of the same new aside |
| Soundness.InitializesSound | lib/tools/preverify/src/check_code.c:2224-2266 | running a constructor turns exactly the cells typed as its object into ordinary ones |
| Soundness.StepKeepsDescribed | lib/tools/preverify/src/check_code.c:2542-2695 | every step, to a successor or a handler, leads from a described state to a described one |
| Soundness.TypeSafety | lib/tools/preverify/src/check_code.c:1434-2695 | in every run of accepted code every state is described by the recorded stack and registers, and safe |
| Guarantees.NewObjectCellsAgree | lib/tools/preverify/src/check_code.c:2107-2126 | all cells typed as made by instruction i hold one object, the latest made there |
| Guarantees.NoUninitializedMasquerade | lib/tools/preverify/src/check_code.c:2224-2266 | no object made by new is typed as an ordinary object before a constructor ran on it, in loops and handlers too |
| Guarantees.ConstructorsConstruct | lib/tools/preverify/src/check_code.c:1599-1616 | a constructor only returns after the constructor of its own object was called |
| Guarantees.WideLoadsReadOneStore | lib/tools/preverify/src/check_code.c:1513-1586 | an accepted long or double load reads two halves written by one store, or both there on entry |
| Guarantees.StackStaysWithinLimit | lib/tools/preverify/src/check_code.c:2341-2524 | the stack stays within max_stack, except on entry to a handler when max_stack is 0 |
| StackLimit.StackLimitExactly | lib/tools/preverify/src/check_code.c:2341-2524 | every run of accepted jsr-free code keeps to max_stack if and only if max_stack is not 0 or no reachable instruction is covered by a handler |
| StackLimit.GuardedGotoExceeds | lib/tools/preverify/src/check_code.c:2657-2684 | a method of four instructions that is accepted with max_stack 0, its table, and a run in which the stack holds one word |
| Bits.WindowIsByte | lib/tools/preverify/src/jarint.h:130-142 | eight bits of the stream from a byte boundary on are that byte |
| Canonical.MatchesInterval | lib/tools/preverify/src/jar.c:565-702 | a symbol comes next exactly when the next 15 bits, reversed, lie in the interval of its canonical code |
| Canonical.AtMostOneMatches | lib/tools/preverify/src/jar.c:565-702 | the canonical code is free of prefixes |
| Canonical.CompleteMatches | lib/tools/preverify/src/jar.c:565-702 | with a complete code every window starts with some code |
| HuffmanTable.CountLengths | lib/tools/preverify/src/jar.c:588-597 | the counting loop gives the number of symbols of each length |
| HuffmanTable.FirstCodes | lib/tools/preverify/src/jar.c:599-611 | the loop over the lengths gives the first left-justified code of each, and the greatest length |
| HuffmanTable.FillStride | lib/tools/preverify/src/jar.c:662-685 | the stride loops write exactly the entries that end in the code |
| HuffmanTable.FilledDecodes | lib/tools/preverify/src/jarint.h:163-173 | a filled two-level table finds an entry exactly when a code matches, with symbol and bit count |
| HuffmanTable.EnterSymbol | lib/tools/preverify/src/jar.c:650-697 | entering a symbol extends the filled part by that symbol and disturbs no other |
| HuffmanTable.SubtableFor | lib/tools/preverify/src/jar.c:667-685 | a subtable is made at the first long code of a prefix, at an offset that fits 15 bits |
| HuffmanTable.CompleteUsesAllSubtables | lib/tools/preverify/src/jar.c:628-702 | for a complete code exactly the allocated subtables are used |
| HuffmanTable.MakeCodeTable | lib/tools/preverify/src/jar.c:565-702 | for every vector that is not oversubscribed the table decodes every window to the symbol of the matching canonical code; it fails exactly on the empty code |
| FixedCodes.Reverse9IsReverse | lib/tools/preverify/src/jartables.h:196-198 | the two-part table reverses nine bits |
| FixedCodes.FixedSymbolMatches | lib/tools/preverify/src/jar.c:289-315 | the arithmetic on nine reversed bits finds the symbol of the fixed code of section 3.2.6 of RFC 1951 |
| FixedCodes.FixedDistanceMatches | lib/tools/preverify/src/jar.c:343-352 | five reversed bits are the fixed distance code |
| Deflate.CopyIsPeriodic | lib/tools/preverify/src/jar.c:368-381 | a copy that overlaps its output repeats it with the period of the distance |
| Deflate.ExpandsOnce | lib/tools/preverify/src/jar.c:105-198 | a stream has at most one expansion |
| Inflater.State.NeedBits | lib/tools/preverify/src/jarint.h:134-139 | the bit buffer holds the next bits of the stream, and the position in the stream does not move |
| Inflater.State.NextBits | lib/tools/preverify/src/jarint.h:141-143 | the bits returned are the next of the stream |
| Inflater.State.DumpBits | lib/tools/preverify/src/jarint.h:148-152 | the position moves on by the bits dropped |
| Inflater.State.GetHuffmanEntry | lib/tools/preverify/src/jarint.h:163-173 | the lookup gives the next symbol and moves past its code, or fails exactly when no code matches |
| Inflater.State.CopySymbol | lib/tools/preverify/src/jar.c:332-382 | a length-distance pair does one step of the format, or fails exactly when it is invalid or does not fit |
| Inflater.State.InflateHuffman | lib/tools/preverify/src/jar.c:260-393 | the block expands as section 3.2.5 says, or fails when it has no expansion that fits |
| Inflater.State.InflateStored | lib/tools/preverify/src/jar.c:210-247 | a stored block is taken in byte by byte, whatever is left in the bit buffer |
| Inflater.State.DecodeDynamicHuffmanTables | lib/tools/preverify/src/jar.c:396-551 | the code lengths are those of section 3.2.7, and both tables decode them |
| Inflater.State.InflateBlocks | lib/tools/preverify/src/jar.c:105-198 | the blocks up to the final one are expanded in turn |
| Inflater.State.Inflate | lib/tools/preverify/src/jar.c:105-198 | TRUE if and only if the stream has an expansion that fills decompLen bytes and ends in byte compLen; the buffer then holds it |
| LiteralsOnly.ExpandedExactly | lib/tools/preverify/src/jar.c:396-551 | the streams expanded are exactly those RFC 1951 expands in which every dynamic block has a distance code |
| LiteralsOnly.LiteralsOnlyIsLost | lib/tools/preverify/src/jar.c:396-551 | twelve bytes that section 3.2.7 of RFC 1951 expands to one byte and that inflate rejects |
| Inliner.SubroutineGoto | lib/tools/preverify/src/inlinejsr.c:649-659 | the walk over parents answers whether the target context is an initial part of the caller chain |
| Inliner.MatchSubroutine | lib/tools/preverify/src/inlinejsr.c:663-676 | the loop over the masks answers whether the instruction is recorded in this very chain of subroutines |
| Inliner.Rewriter.RewriteOneSubroutine | lib/tools/preverify/src/inlinejsr.c:160-284 | the copies appended are one per member of the context, each call followed by its subroutine, with the flags set in place; it panics if and only if this context or one made below it has a second ret, or the method a ret of its own |
| InlinedCode.OnlyCopies | lib/tools/preverify/src/inlinejsr.c:160-284 | nothing is generated but the copies of live contexts, and none twice |
| InlinedCode.RefAt | lib/tools/preverify/src/inlinejsr.c:160-284 | every instruction of a live context has its copy, at its place |
| InlinedCode.VisibleCopyIsUnique | lib/tools/preverify/src/inlinejsr.c:621-646 | exactly one copy of a branch target is visible from a context, and updateTarget picks it |
| InlinedCode.UpdateTarget | lib/tools/preverify/src/inlinejsr.c:621-646 | the search over the mapping list finds that copy, or panics when there is none |
| InlinedCode.SwitchSize | lib/tools/preverify/src/inlinejsr.c:287-340 | a moved switch has the words of the old one and the padding of the new place |
| InlinedCode.AssignOffsets | lib/tools/preverify/src/inlinejsr.c:287-340 | the first loop gives every copy its offset, and the new code length |
| InlinedCode.DistanceFits | lib/tools/preverify/src/inlinejsr.c:621-646 | a stored distance is read back as it was if and only if it fits its two or four bytes |
| InlinedCode.PlaceAt | lib/tools/preverify/src/inlinejsr.c:340-452 | every copy that is not skipped stands at its own offset in the new code |
| InlinedCode.FixupCode | lib/tools/preverify/src/inlinejsr.c:287-452 | the new code has every copy with its branches retargeted; it panics exactly when a branch has no visible target |
| InlinedHandlers.BuildFrames | lib/tools/preverify/src/inlinejsr.c:454-514 | the inner loop makes the frames of one copy of a handler |
| HandlerRanges.FixupExceptionHandlers | lib/tools/preverify/src/inlinejsr.c:454-514 | given the places of the instructions, code_data and the table in bytes the new table is made entry by entry, copy by copy; it stays within code_data if and only if no range ends with the code |
| InlinedHandlers.CoveredExactly | lib/tools/preverify/src/inlinejsr.c:454-514 | a copy is covered by a new frame of handler copy h if and only if its original was in the old range and h is visible from its context |
| HandlerRanges.FixupByteHandlers | lib/tools/preverify/src/inlinejsr.c:467-475 | with ranges given in bytes the lookups stay within code_data if and only if no range ends with the code, and then give the table of the ranges in instruction numbers |
| InlinerSoundness.MadeRight | lib/tools/preverify/src/inlinejsr.c:467-475 | whatever is found behind code_data, the new method is right if no range ends with the code, and otherwise if what is found is no smaller than any instruction number |
| InlinedHandlers.HandlerKept | lib/tools/preverify/src/inlinejsr.c:454-514 | the first match in the new table is the visible copy of the first match in the old one |
| InlinedLines.FixupLineNumberTable | lib/tools/preverify/src/inlinejsr.c:516-569 | the loops over the map table and the copies make the new table |
| InlinedLines.LinesAreMapped | lib/tools/preverify/src/inlinejsr.c:516-569 | for tables in any order, every generated instruction has the line of the last range that contains its original, and line 0 if none does |
| InlinedLines.LinesAreKept | lib/tools/preverify/src/inlinejsr.c:516-569 | for tables in the order of the code that is the line its original has |
| InlinedLines.NoEntryIsWasted | lib/tools/preverify/src/inlinejsr.c:516-569 | the new table is strictly in the order of the code and no entry repeats the line before it |
| InlinerSoundness.NoPanic | lib/tools/preverify/src/inlinejsr.c:621-646 | under the named assumptions no branch lacks a visible copy of its target |
| InlinerSoundness.InStep | lib/tools/preverify/src/inlinejsr.c:160-452 | outside skipped instructions the two machines can take the same steps and stay matched |
| InlinerSoundness.SkipStep | lib/tools/preverify/src/inlinejsr.c:160-284 | a skipped instruction changes nothing the new code knows of |
| InlinerSoundness.Forward | lib/tools/preverify/src/inlinejsr.c:102-157 | every run of the original is matched by a run of the new code with the same events |
| InlinerSoundness.Backward | lib/tools/preverify/src/inlinejsr.c:102-157 | every run of the new code is matched by a run of the original with the same events |
| InlinerSoundness.InliningPreservesBehaviour | lib/tools/preverify/src/inlinejsr.c:102-157 | accepted code whose calls are nested, and that leaves subroutines by the innermost ret or a branch outwards only, has the same sequences of events after inlining, from the same arguments and with matching ends, in both directions, if its ranges end within the code or the element read behind code_data is no smaller than any instruction number |
| InnerReturnMethod.IsAnalysed | lib/tools/preverify/src/check_code.c:1434-1501 | the seventeen visits in which the analysis comes to an end for a method with a return inside an inner finally, and the table it ends with |
| InlinerLimits.InnerReturnIsLost | lib/tools/preverify/src/inlinejsr.c:160-284 | a method of twelve instructions that the analysis accepts although one call is not nested: it has a run whose events no run of the rewritten method has |
| FallThroughMethod.IsAnalysed | lib/tools/preverify/src/check_code.c:1434-1501 | the nine visits in which the analysis comes to an end for a method whose subroutine is also left by falling through, and the table it ends with |
| FallThroughLimit.FallThroughIsLost | lib/tools/preverify/src/inlinejsr.c:160-284 | a method of nine instructions that the analysis accepts, and that meets every other assumption, but whose subroutine is also left by falling through: it has a run whose events no run of the rewritten method has |
| LastRange.IsAnalysed | lib/tools/preverify/src/check_code.c:1434-1501 | the three visits in which the analysis comes to an end for a method with a handler over all of its code, and the table it ends with |
| LastRange.LastRangeIsLost | lib/tools/preverify/src/inlinejsr.c:467-475 | a method of four instructions that the analysis accepts, and that meets every assumption of the inliner, but whose range ends with the code: if what is found behind code_data is no positive number, the method has a run through its handler whose events no run of the rewritten method has |
| InlinerPasses.RewriteCode | lib/tools/preverify/src/inlinejsr.c:102-157 | the whole pass makes the program of the copies, panics, or reads behind code_data: it panics if and only if some context has a second ret or a branch finds no copy, and under the named assumptions it makes the program if and only if no range ends with the code |
| InlinerPasses.NoSubroutinesLeft | lib/tools/preverify/src/check_code.c:638-641 | whatever the pass makes, its program has neither jsr nor ret |
| InlinerPasses.NothingLeftToRemove | lib/tools/preverify/src/check_code.c:515-648 | once exactly the reachable instructions were kept, all of the new code is reachable |
| InlinerPasses.CallInlinedExactly | lib/tools/preverify/src/inlinejsr.c:160-284 | the entry of a subroutine is copied behind a jsr if and only if its recorded masks are those of the caller with its own added; if nothing has these masks, nothing is executed in place of the call |
| InlinerPasses.CallsNestedExactly | lib/tools/preverify/src/inlinejsr.c:160-284 | the assumption on calls holds if and only if every call is followed by a copy of its subroutine with its entry |
| InlinerPasses.BranchFoundExactly | lib/tools/preverify/src/inlinejsr.c:621-646 | updateTarget finds a copy if and only if the masks of the target are those of an enclosing context |
| InlinerPasses.OneCallIsInlinable | lib/tools/preverify/src/inlinejsr.c:160-284 | all assumptions are met by a method with a subroutine |
| ReturnAddresses.ReplayGrounded | lib/tools/preverify/src/check_code.c:1434-1501 | after any turns of the analysis a recorded return address is that of a recorded call, the entry of a subroutine knows no older one of its own, and a jsr has only a ret of its subroutine |
| RecordedNotes.AnalysedIsAccepted | lib/tools/preverify/src/check_code.c:1434-2845 | what the analysis ends with, read word by word as the inliner reads it, is accepted code for the inliner |
| RecordedNotes.OnlyStackOperations | lib/tools/preverify/src/check_code.c:2341-2524 | return addresses are consumed by astore only, if and only if no pop, dup or swap takes one |
| Decoding.NumberInstructions | lib/tools/preverify/src/check_code.c:541-563 | the loop numbers the instructions, and fails if and only if they do not fill the code |
| Decoding.Decode | lib/tools/preverify/src/check_code.c:541-600 | numbering, operands and exception table succeed if and only if all places are those of instructions, and then describe the same method |
| Decoding.RunNumbered | lib/tools/preverify/src/check_code.c:541-600 | without subroutines a numbered method runs as its bytes do, step by step |
| RewrittenAgain.RewrittenIsLegible | lib/tools/preverify/src/check_code.c:639-641 | the rewritten code can be numbered again: its instructions fill it, and targets and ranges are places of instructions |
| RewrittenAgain.PassPreservesBehaviour | lib/tools/preverify/src/check_code.c:515-641 | a pass and the numbering after it keep the events and the ends of all runs, in both directions |
| RewrittenAgain.PlainIsNested | lib/tools/preverify/src/check_code.c:515-641 | code without subroutines meets all assumptions of the inliner |
| RewrittenAgain.DropsTheRest | lib/tools/preverify/src/check_code.c:622-641 | a pass over code without subroutines keeps at most the reached instructions |
| VerifyMethod.AnalysedExactly | lib/tools/preverify/src/check_code.c:604-621 | the analysis marks exactly the instructions reachable in the program of the method |
| VerifyMethod.SameReachable | lib/tools/preverify/src/check_code.c:2542-2695 | the control-flow graph of the analysis and that of the inliner agree |
| VerifyMethod.NothingUnreached | lib/tools/preverify/src/check_code.c:515-641 | after a pass over code without subroutines every instruction of the new method can be reached |
| VerifyMethod.NextIsLegal | lib/tools/preverify/src/check_code.c:639-641 | what a pass makes passes the checks before the analysis again: only the given method can fail them |
| VerifyMethod.PassIsInlinable | lib/tools/preverify/src/check_code.c:515-641 | a pass meets the assumptions of the inliner if there are no subroutines, or if the stacks are usable and the masks nested |
| VerifyMethod.VerifyMethod | lib/tools/preverify/src/check_code.c:515-648 | the again loop ends; on success no jsr, no ret and no unreachable instruction is left; unless a branch gets too long there are at most two passes; and every other end has its reason: some analysis rejects the method, the assumptions of the inliner do not hold or a distance does not fit, or a range ends with the code, for a method that a pass has made only an analysis, a distance or a range |
| VerifyMethod.PassesPreserveBehaviour | lib/tools/preverify/src/check_code.c:515-648 | the method that the loop ends with has the runs of the one it was given, in both directions, over all its passes |
| ConstantPool.GetLastNotUtf8Index | lib/tools/preverify/src/file.c:180-193 | the loop finds the last entry that is no string |
| ConstantPool.LookupResolves | lib/tools/preverify/src/file.c:136-158 | the index of a known string holds that very string in the written pool |
| ConstantPool.OthersStay | lib/tools/preverify/src/file.c:126-133 | entries other than strings keep their index |
| ConstantPool.MeaningKept | lib/tools/preverify/src/file.c:195-309 | every old reference resolves to the same content in the written pool |
| ConstantPool.AddedClassResolves | lib/tools/preverify/src/file.c:195-309 | the index of the k-th added class resolves to its name |
| ClassBytes.PoolRoundTrip | lib/tools/preverify/src/classloader.c:1091-1190 | the bytes of a writable pool are read as that pool, to their last byte |
| ClassWriter.Writer.LookupUtf8 | lib/tools/preverify/src/file.c:136-158 | a known string is found, another one is appended, and the index is returned |
| ClassWriter.Writer.SealStrings | lib/tools/preverify/src/file.c:195-240 | all strings needed later are added before anything is written |
| ClassWriter.Writer.WriteEntry | lib/tools/preverify/src/file.c:240-290 | one entry is written with its references renumbered, and no string is added |
| ClassWriter.Writer.WriteClasses | lib/tools/preverify/src/file.c:285-295 | the added classes come directly behind the last entry that is no string |
| ClassWriter.Writer.WriteConstantPool | lib/tools/preverify/src/file.c:195-309 | count and entries of the new pool are appended to the buffer, in pool order |
| ClassWriter.WrittenPoolIsRead | lib/tools/preverify/src/file.c:195-309 | the reader takes the written pool in; all old constants and all added classes resolve as they should |
| ClassReader.Reader.LoadConstant | lib/tools/preverify/src/classloader.c:1115-1180 | one entry is read, or an error given exactly where the format has none |
| ClassReader.Reader.LoadConstantPool | lib/tools/preverify/src/classloader.c:1091-1190 | the loop reads exactly the pools of the format, a long or double taking two slots |
| MethodFormat.StackMapSizeIsExact | lib/tools/preverify/src/file.c:376-388 | the size computed ahead is the number of bytes written |
| MethodFormat.CodeLengthIsExact | lib/tools/preverify/src/file.c:390-562 | the declared length of the Code attribute is that of its content |
| MethodFormat.ReadsCode | lib/tools/preverify/src/classloader.c:1247-1301 | the Code attribute is read to its last byte, with code, tables and variables; stack maps are skipped |
| MethodFormat.ReadsMethod | lib/tools/preverify/src/classloader.c:840-896 | a method is read back as it was written, stack maps aside |
| MethodFormat.MethodsRoundTrip | lib/tools/preverify/src/classloader.c:840-896 | all methods are read back, to the last byte |
| ClassReader.VarsAreRows | lib/tools/preverify/src/classloader.c:1344-1364 | looking strings up row by row or behind the table comes to the same |
| ClassReader.Reader.ReadInCode | lib/tools/preverify/src/classloader.c:1247-1301 | the moving pointer reads exactly the Code attributes of the format |
| ClassReader.Reader.ReadMethods | lib/tools/preverify/src/classloader.c:840-896 | the loops of the reader accept exactly the methods part of the format |
| MethodWriter.SizeOfMaps | lib/tools/preverify/src/file.c:414-425 | the loop computes the size of all stack maps |
| MethodWriter.WriteStackMap | lib/tools/preverify/src/file.c:351-374 | the entries are written, an added class as its index behind the old entries |
| MethodWriter.WriteCode | lib/tools/preverify/src/file.c:427-543 | length, code, tables and attributes are written in the order of the format |
| MethodWriter.WriteMethods | lib/tools/preverify/src/file.c:390-562 | all methods are appended to the buffer and no string is added |
| ClassFileWriter.LookupClass | lib/tools/preverify/src/file.c:160-178 | the loop finds the first entry of the class, and panics exactly when there is none |
| ClassFileWriter.WriteFields | lib/tools/preverify/src/file.c:320-349 | all fields are appended with their attributes and no string is added |
| ClassFileWriter.WriteClassAttributes | lib/tools/preverify/src/file.c:643-690 | the attributes of the class are appended in the order of the format, as many as were counted |
| ClassFileWriter.WriteClass | lib/tools/preverify/src/file.c:610-690 | the buffer holds the whole class file, from the magic number to the last attribute; it fails exactly when the class or its superclass has no entry |
| ClassFileReader.ReadFieldAttributes | lib/tools/preverify/src/classloader.c:800-832 | the loop accepts exactly the field attributes of the format; a constant value counts for static fields, and only once |
| ClassFileReader.ReadClassAttributes | lib/tools/preverify/src/classloader.c:898-965 | the loop accepts exactly the class attributes of the format, with their lengths; InnerClasses only once |
| ClassFileReader.ReadClass | lib/tools/preverify/src/classloader.c:705-974 | the moving pointer accepts exactly the class files of the format, which end with their last attribute |
| ClassFileWriter.FittingIsWritten | lib/tools/preverify/src/file.c:195-690 | a class that meets what the reader asks for has all the names and entries that the writer looks up: writing it cannot fail |
| ClassRoundTrip.FieldRebuilt | lib/tools/preverify/src/classloader.c:790-832 | taking in the attributes written for a field gives back the field |
| ClassRoundTrip.WrittenFileIsRead | lib/tools/preverify/src/file.c:195-690 | the class file written is accepted and gives back the pool with its additions, every constant with its meaning, and the class with names, interfaces, fields, methods and attributes; with anything behind its end it is refused |
| LoadedClasses.LoadedFits | lib/tools/preverify/src/classloader.c:705-974 | every class the loader accepts, its interfaces being classes, meets all that the writer asks for, and has nothing the reader would drop |
| LoadedClasses.LoadWriteLoad | lib/tools/preverify/src/classloader.c:705-974 | loading, writing and loading again gives the class that the first loading gave, in a pool of the same size with the same meanings, if and only if no method had a Code attribute without bytes; such a method comes back without it |
| LoadedClasses.VerifiedClassIsRead | lib/tools/preverify/src/file.c:195-690 | for every class that is loaded, has its code rewritten and gets stack maps, the file written is read back as that class without its maps |
| LoaderRules.ArgumentsFit | lib/tools/preverify/src/classloader.c:855-858 | the arguments and the receiver of a loaded method take at most 255 words, and its code has a register for each |
| StackMapTypes.GetTypeName | lib/tools/preverify/src/check_code.c:345-385 | the printed name of a class or array type |
| StackMapTypes.CpIndexToClassFullinfo | lib/tools/preverify/src/check_code.c:3401-3415 | the loops read a class constant as the type its name denotes |
| StackMapTypes.ReadsBack | lib/tools/preverify/src/check_code.c:3458-3561 | a printed name is read as the very type it was printed from |
| StackMapTypes.TypeCoder.CheckClassConstant | lib/tools/preverify/src/check_code.c:400-416 | an index of a class with this name, or none exactly when there is none |
| StackMapTypes.TypeCoder.GetTypeCode | lib/tools/preverify/src/check_code.c:429-490 | the entry describes the type; a class is added only if it is new, once |
| StackMapTypes.TypeCoder.LocalEntries | lib/tools/preverify/src/check_code.c:676-691 | the loop over the registers makes one entry for both halves of a long or double |
| StackMapTypes.TypeCoder.StackEntries | lib/tools/preverify/src/check_code.c:693-705 | the entries of the stack, from the bottom up |
| StackMapTypes.MapCoversRegisters | lib/tools/preverify/src/check_code.c:676-691 | the entries cover the registers one by one, halves without partner becoming unusable |
| StackMapTypes.EntryLeadsBack | lib/tools/preverify/src/file.c:351-374 | the written index of a class entry resolves, in the written pool, to a name that is read as the type the entry was made for |
| Interning.ProbesDiffer | lib/tools/preverify/src/util.c:181-284 | a probe with a step from 1 to 8 meets every one of the 2003 slots once |
| Interning.FindSlot | lib/tools/preverify/src/util.c:205-227 | the probe ends at the text or at an empty slot |
| Interning.StrIDTable.Search | lib/tools/preverify/src/util.c:205-227 | the search over the chained tables finds the text, or the empty slot of the last table |
| Interning.StrIDTable.Str2ID | lib/tools/preverify/src/util.c:181-284 | a text keeps its ID, a new one gets an unused ID below 2^15, and all other IDs stay |
| Interning.IdsDiffer | lib/tools/preverify/src/util.c:181-284 | IDs agree exactly where texts do |
| Interning.ID2Str | lib/tools/preverify/src/util.c:333-352 | the text that was given the ID |
| Interning.InternAll | lib/tools/preverify/src/util.c:181-284 | over any sequence of calls IDs agree exactly where texts do and never change |
| Interning.NameAndTypeToHash | lib/tools/preverify/src/classresolver.c:1198-1217 | the two IDs are packed into one key |
| Interning.KeysDiffer | lib/tools/preverify/src/classresolver.c:1198-1217 | keys agree exactly for the same name and the same type |
| MethodTables.ResolveMethods | lib/tools/preverify/src/classresolver.c:222-354 | the two loops compute offsets and table of a class; they fail exactly when a slot exceeds 16 bits |
| MethodTables.OffsetsDiffer | lib/tools/preverify/src/classresolver.c:269-325 | virtual methods of a class have different offsets |
| MethodTables.OwnOffset | lib/tools/preverify/src/classresolver.c:269-354 | every virtual method sits at its own offset |
| MethodTables.InheritsSlotExactly | lib/tools/preverify/src/classresolver.c:287-318 | a method takes an inherited slot exactly when it may override what is there; otherwise its slot is new |
| MethodTables.SlotsAreStable | lib/tools/preverify/src/classresolver.c:222-354 | a slot keeps its name and type in all subclasses, along chains of any length |
| MethodTables.FinalCheckIsExact | lib/tools/preverify/src/check_class.c:116-147 | the check fires exactly when a method takes the slot of a final method of a superclass |
| MethodTables.PassesFinalCheck | lib/tools/preverify/src/check_class.c:116-147 | the loops over the bit vector compute that check |
| Descriptors.SkipOverFieldname | lib/tools/preverify/src/check_class.c:702-722 | the loop finds the end of a class name |
| Descriptors.SkipOverFieldSignature | lib/tools/preverify/src/check_class.c:738-777 | the loop finds the end of a field descriptor |
| Descriptors.PrintedIsSkipped | lib/tools/preverify/src/check_class.c:738-777 | the printed form of every legal type is skipped as a whole |
| Descriptors.SkippedIsPrinted | lib/tools/preverify/src/check_class.c:738-777 | whatever is skipped is the printed form of a legal type |
| Descriptors.IsLegalMethodSignature | lib/tools/preverify/src/check_class.c:384-410 | the recogniser accepts exactly the method descriptors of the grammar |
| Descriptors.Signature2ArgsSize | lib/tools/preverify/src/classloader.c:1406-1463 | the loop on any text: a size, 0 for an error, the panic without floating point, or an access behind the text |
| DescriptorScan.ScanExactly | lib/tools/preverify/src/classloader.c:1406-1463 | for any text: the loop runs over its end if and only if the text is made of opening parentheses and parameters and then breaks one off, brackets up to the end, or an L with no semicolon behind it; and it returns a size if and only if the text is made of such items with that many words, up to a closing parenthesis or the end |
| DescriptorScan.ShortTextsRunOver | lib/tools/preverify/src/classloader.c:1406-1463 | three texts that the loop runs over: an opening parenthesis with an L or a bracket behind it, and one with a class in an array of arrays broken off |
| Descriptors.LegalArgsSize | lib/tools/preverify/src/classloader.c:1406-1463 | for every legal descriptor that is the number of words of its parameters |
| Descriptors.SignatureToFieldtype | lib/tools/preverify/src/check_code.c:3458-3561 | the type printed there, its operand letter and the place behind it |
| Descriptors.FillArguments | lib/tools/preverify/src/check_code.c:1383-1412 | the registers filled are those of the parameters, as many as the argument size and as the words an invoke pops |
| Descriptors.OperandString | lib/tools/preverify/src/check_code.c:1684-1691 | the loop makes the operand letters of all parameters behind that of the object, and reports too many exactly from 256 on; their words are those of the parameters |
| Descriptors.PoppedAreWords | lib/tools/preverify/src/check_code.c:1684-1691 | the words that the operand letters of parameters take are the words of the parameters |
| ModifiedUtf8.Unicode2UtfStrlen | lib/tools/preverify/src/utf.c:121-135 | the length with the terminating zero is that of the encoding |
| ModifiedUtf8.Unicode2Utf | lib/tools/preverify/src/utf.c:73-116 | the encoding of the longest prefix that fits is written, and a zero behind it |
| ModifiedUtf8.UtfStrlen | lib/tools/preverify/src/utf.c:138-144 | the number of characters decoded |
| ModifiedUtf8.Utf2Unicode | lib/tools/preverify/src/utf.c:156-170 | the characters decoded, as many as fit, and the number of all |
| ModifiedUtf8.StopsAtZero | lib/tools/preverify/src/utf.c:181-223 | decoding never steps over the first zero, whatever the bytes |
| ModifiedUtf8.RoundTrip | lib/tools/preverify/src/utf.c:73-223 | decoding the encoding of any 16-bit sequence, zeros included, gives it back |
| ModifiedUtf8.VerifyUtf8String | lib/tools/preverify/src/classloader.c:1193-1233 | the loop accepts exactly the strings made of acceptable groups |
| ModifiedUtf8.EncodedIsAcceptable | lib/tools/preverify/src/classloader.c:1193-1233 | the check accepts whatever the encoder writes |
| ModifiedUtf8.AcceptableDecodes | lib/tools/preverify/src/classloader.c:1193-1233 | in accepted strings the decoder takes the groups the check has seen |
| ModifiedUtf8.Reencoded | lib/tools/preverify/src/classloader.c:1193-1233 | an accepted string is the encoding of what it decodes to if and only if every group is in shortest form |
| ModifiedUtf8.LongFormsAccepted | lib/tools/preverify/src/classloader.c:1193-1233 | two accepted spellings of one name |
| ReceiveRing.CallbackLeavesUnread | src/pico/NetNatives.cpp:176-216 | the callback does not write where buffered bytes are being read |
| ReceiveRing.AcceptAppends | src/pico/NetNatives.cpp:193-212 | accepted bytes are appended to the buffered ones, as many as fit |
| ReceiveRing.StepKeepsInv | src/pico/NetNatives.cpp:176-216 | every step of the callback and of a receive call keeps the invariant, in any order |
| ReceiveRing.StreamIsConserved | src/pico/NetNatives.cpp:176-216 | after any interleaving the bytes delivered and the bytes buffered are, in order, the bytes accepted, and as many were reported to tcp_recved |
| ReceiveRing.EndOfFileIsLast | src/pico/NetNatives.cpp:463-466 | end of file is reported only when all bytes accepted before the close are delivered |
| ReceiveRing.EndOfFileDeliversAll | src/pico/NetNatives.cpp:448-493 | if no segment follows the close, end of file means that every accepted byte is delivered |
| ReceiveRing.CallsMakeProgress | src/pico/NetNatives.cpp:458-489 | a call that asks for bytes and is told neither the end nor an error gets at least one |
| ReceiveRing.RecvBuffer.OnTcpRecv | src/pico/NetNatives.cpp:193-212 | the copies into the array append the bytes that fit |
| ReceiveRing.RecvBuffer.Take | src/pico/NetNatives.cpp:465-489 | the copies out of the array give the oldest bytes and remove them |
| ReceiveEnds.NothingDroppedExactly | src/pico/NetNatives.cpp:193-216 | all the bytes that arrive in a run are taken, in order, if and only if each segment is at most what is free when it arrives |
| ReceiveEnds.StreamHasHole | src/pico/NetNatives.cpp:193-216 | a segment as long as the ring, some calls, and one byte more: what the calls are given has a hole where the last byte of the segment was |
| ReceiveEnds.ReturnedExactly | src/pico/NetNatives.cpp:458-493 | a call returns 0 if and only if it found the end of the stream or asked for no bytes, and -1 if and only if it found an error |
| ReceiveEnds.NothingAfterError | src/pico/NetNatives.cpp:458-463 | after an error, with no call past its test of the state, no continuation delivers anything, every call returns -1, and what is buffered stays buffered |
| ReceiveEnds.LostExactly | src/pico/NetNatives.cpp:448-493 | the first n bytes taken can still be delivered if and only if there is no error, or they are delivered already or belong to the call that is past its test of the state |
| ReceiveEnds.ResetLosesBytes | src/pico/NetNatives.cpp:176-226 | a byte arrives, the connection is reset, and no later call gets the byte |
| ReceiveEnds.TwoZeros | src/pico/NetNatives.cpp:448-493 | two runs of a new socket: the end of the stream and a call for no bytes return the same 0 |

## Left out

- RecordedNotes.AnalysedIsAccepted: asks for recorded stacks without unusable items, which an uninitialised object on the stack across a jsr can leave.
- Soundness.TypeSafety: is about code without subroutines; checks for protected access, access flags and the floating-point switches are not part of the machine; an interface type is read as any reference, as the program does.
- InlinerSoundness.InliningPreservesBehaviour: besides acceptance it assumes the five conditions named above, that branch distances fit, and that no range ends with the code or that what is found behind code_data does no harm; jsr_w, which the pass turns into a goto with an operand of four bytes, is excluded; return addresses consumed by other instructions than astore are not part of the machine.
- Inflater.State.Inflate: for header errors the program does not look for (oversubscribed lengths, repeats that run over) the outcome is called unspecified; the two literal symbols beyond 285 that a header can declare are accepted as in the code; bytes past the end of the file read as ones, as EOF does.
- VerifyMethod.VerifyMethod: the checks of access flags and checked exceptions around the loop are not part of it, and neither are the line and variable tables, which a pass rewrites beside the code; that the second analysis accepts what the first has accepted is not shown.
- VerifyMethod.PassesPreserveBehaviour: asks of every pass that its distances fit, and of a pass over subroutines the conditions of the inliner; a pass that reads behind code_data is not one.
- HuffmanTable.MakeCodeTable: oversubscribed vectors are excluded, incomplete ones are not.
- ClassReader.Reader.ReadMethods: what the reader derives from flags and descriptors is a parameter, which LoaderRules gives its value; lengths of 2^31 and more, which the program takes as negative, are errors here.
- ClassFileReader.ReadClass: is given no class loader object, as at both of its callers, so the checks for one are not part of it; whether a superclass name is legal is a parameter, and lengths of 2^31 and more are errors.
- LoadedClasses.VerifiedClassIsRead: takes the check of the pool, and that interfaces are classes, as done by the verifier.
- StackMapTypes.GetTypeName: the name is a sequence, not a buffer of 1024 bytes; FitsBufferExactly says which names that buffer holds.
- Interning.StrIDTable.Str2ID: the overflow panic is for a chain of 16 tables; interning across files is not modelled, since the table is freed after each file.
- MethodTables.ResolveMethods: name-and-type IDs of one class are assumed to be distinct; packages are numbers; finalizers are not modelled.
- MethodTables.PassesFinalCheck: the bit vector is an array of booleans.
- Descriptors.SignatureToFieldtype: is given legal descriptors, as at all its uses after the check of the class; the limit of 255 array dimensions is not modelled.
- Descriptors.SkipOverFieldname: works on characters, with the Unicode tables as predicates that exclude the marks of descriptors; a slash at the end of a name is accepted, as in the code.
- ReceiveRing.StreamIsConserved: negative request lengths are not modelled, and the shared variables are read and written one at a time and in program order.
- The stack maps themselves: which instructions are targets is not derived here; StackMapTypes makes the entries of one map from its registers and stack.
- fixupVariableTable, with its inclusive ranges of local variables for a debugger.
- The packing of verification types into words, and the memory pool, caches and error exits of the verifier.
- AddBinClass and FindLoadedClass, the two passes over allocNBytes, and the growth of the class buffer.
- Files, directories, the class path, archives, options and character set conversion.
