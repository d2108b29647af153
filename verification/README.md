# Verified models of the packet-processing engine

Dafny models of the core of a P4 software switch (`src/bm_sim` and the C trie in
`src/bf_lpm_trie`), with proofs of the laws that this core is relied on for.
`dafny verify dfyconfig.toml` checks the whole project.

| file | what it models |
|---|---|
| `Expressions.dfy` | the compiler from JSON expressions to postfix ops, the linear register allocator and the stack machine |
| `LpmTrie.dfy` | the byte-wise longest-prefix-match trie, first as a shape over a map, then as linked nodes with counters |
| `Learning.dfy` | the learning engine: double buffer, transmit thread, de-duplication filter, acks |
| `Crc.dfy` | table-driven CRC |
| `Checksum.dfy`, `Ipv4Checksum.dfy` | the wide Internet checksum and its use on IPv4 headers |
| `Extract.dfy`, `Headers.dfy` | bit-level extraction and deparsing of fields, headers and calculation buffers |
| `EntryLists.dfy` | the intrusive list behind ternary and range tables, and their comparisons |
| `MatchKeys.dfy`, `MatchParams.dfy`, `MatchConversion.dfy`, `MatchMeaning.dfy` | the match key builder, parameters to entries and back, and what an entry matches |
| `ValueMeaning.dfy` | what parameters say about the values of fields, when a stored key means that, and the key of a packet |
| `MatchUnit.dfy` | the table of entries with versioned handles |
| `Tables.dfy` | match units with their lookup structures: which entry a packet's key finds and what the packet gets |
| `Debugger.dfy`, `DebuggerRuns.dfy` | the debugger's request/reply protocol, and what its client sees over a run |
| `Ageing.dfy` | ageing sweeps |
| `Bits.dfy`, `Options.dfy`, `Sets.dfy`, `Sequences.dfy` | words as bits, and what several models share |

How the models are built:

- Code that changes state in place is a class. Its methods are proved equal to steps
  on values (`View() == Step(old(View()))`), and the properties are proved of these
  steps: one step, then every run.
- Threads are steps under the mutex. A condition wait ends a step, code outside the
  lock is a step of its own, timeouts are choices of the environment. A run is any
  interleaving.
- The arithmetic of `Data`, foreign libraries and I/O are parameters, so the results
  hold for every behaviour of them. Judy arrays and hash tables are maps and sets.

## What the proofs found

For each of these a lemma says, for all inputs, exactly when the code does what it
should; the lemmas that give a failing run are named beside it.

- A narrow field that straddles two bytes keeps stray bits in its padding, because
  line 55 of `extract.h` overwrites the byte that line 54 masked
  (`Extract.ExtractionIsExact`). The header round trip still holds, since the stray
  bits repeat the packet (`Headers.ExtractedPaddingAgrees`); in a calculation buffer
  they are or-ed onto the bits before (`Headers.WithFieldExact`).
- The branch counter of a trie node is an unsigned char. With exact counters a delete
  fails if and only if it takes the last prefix of a node with all 256 children, and
  then drops the whole subtree (`LpmTrie.DeleteRemoves`, `LpmTrie.FullNodeOverflows`).
- `insert_prefix` takes a prefix with value 0 for an absent one and counts it again,
  so the prefix counter stays exact if and only if no such prefix is inserted again
  (`LpmTrie.InsertStores`). Otherwise nodes stay behind or are freed with live
  prefixes (`LpmTrie.ZeroTwiceLeavesNode`, `LpmTrie.ZeroAgainLosesPrefix`). Whatever
  the counters say, `LpmTrie.DeleteExactIff` and `LpmTrie.RunAgreesIff` give the exact
  condition. The tables never insert a present prefix (`Tables.TrieFollows`).
- Without `release_memory`, `bf_lpm_trie_delete` reports success and removes nothing.
- `EntryList::handle_from_entry` measures from `head`, not from the start of the
  array, so ternary and range tables report slot h - head for the entry in slot h.
  A packet or a retrieve gets the selected entry if and only if slot 0 is live
  (`EntryLists.DistanceIsHandle`, `Tables.PacketGets`); otherwise it gets what another
  slot last held, possibly a deleted entry (`Tables.DeletedValueReturned`).
- The prefix length of an LPM parameter is counted from the padding of its field. The
  stored key means the prefix of the value if and only if the width is a multiple of 8
  or the prefix is empty (`ValueMeaning.FieldValueIff`, for whole keys
  `ValueMeaning.ValueMeaningIff`); otherwise the last bit of the prefix is not compared
  (`ValueMeaning.PaddedPrefixFails`, `ValueMeaning.FourteenBits`).
- The key of a packet takes the bytes of a field with their padding. An exact parameter
  matches if and only if the values agree and the padding is zero
  (`ValueMeaning.ExactByValue`), which the stray bits above can spoil
  (`ValueMeaning.ExactOfPacket`).
- A field pushed after `build` never gets a place in the key
  (`MatchKeys.MatchKeyBuilder.PushBack`).
- The version in a handle has eight bits, that of an entry 32. An entry can be deleted
  or modified exactly in the first 256 lives of its slot (`MatchUnit.Acceptance`,
  `MatchUnit.StuckForever`, `MatchUnit.LaterLivesAreStuck`).
- `MatchUnitAbstract_` means to limit oversized tables, but assigns its parameter
  instead of the member. A handle names its slot if and only if the slot is below 2^24
  (`MatchUnit.HandleNamesSlot`); in a larger table two live entries can have the same
  handle (`MatchUnit.OversizedTable`).
- A whole-buffer ack after per-sample acks takes an unacknowledged sample out of the
  learning filter if and only if a sample acked before was learnt again
  (`Learning.AckBufferIff`, `Learning.MixedAcksLoseSample`). In the code the iterators
  of erased samples must not be used at all; `Learning.UsesErased` says when they are.
- A debugger client that sets a watchpoint or a break while the data plane runs makes
  the next hit overwrite a reply (`Debugger.RunningBreakpointFaults`,
  `Debugger.RunningBreakFaults`), and nothing else does (`Debugger.RunsAreSafe`).
  Replies to attach, detach and reset carry request id 0, because `reset_state` clears
  it first.

## Model

| member | source | states |
|---|---|---|
| `Expressions.CodeMoves` | src/bm_sim/expressions.cpp:158-185 | Appended code is the code of the same tree: every relocated LOAD_CONST reads the constant it was built with and no jump inside changes target |
| `Expressions.AllocatorFits` | src/bm_sim/expressions.cpp:509-599 | The linear register pass never pops an empty stack on the code of any well-typed tree, and the abstract stack keeps what was below it |
| `Expressions.ProtectedGrows` | src/bm_sim/expressions.cpp:509-599 | The extra abstract entry that a branch jumped over leaves behind endangers no live register |
| `Expressions.ProtectedPop` | src/bm_sim/expressions.cpp:244-250 | After popping the operands, the destination register lies above every register that the rest of the runtime stack refers to |
| `Expressions.StoreKeepsValues` | src/bm_sim/expressions.cpp:244-250 | A write to a register that nothing on the stack refers to changes no value on the stack |
| `Expressions.Simulate` | src/bm_sim/expressions.cpp:224-484 | Wherever the code of a well-typed tree stands in a program, running it pushes the tree's value and stops just past the code (each SKIP lands past its branch), without underflow or a write to a live register |
| `Expressions.CompiledCodeIsCorrect` | src/bm_sim/expressions.cpp:224-484 | From any contents of the temporaries, the code of a well-typed tree runs to completion and leaves exactly the tree's recursive value |
| `Expressions.DenoteMeans` | src/bm_sim/expressions.cpp:274-484 | The value of a tree is the one that each kind of node has on the values of its operands, every comparison, logical operation and conversion being written out in plain operators |
| `Expressions.ComparisonLaws` | src/bm_sim/expressions.cpp:357-391 | The six comparisons order the values: exactly one of <, == and > holds, the others are their negations, and turning the operands round turns < into > |
| `Expressions.TreeIff` | src/bm_sim/P4Objects.cpp:50-115 | Exactly the expressions without missing operands have a tree, unary plus and minus needing none on their left |
| `Expressions.JsonMeans` | src/bm_sim/P4Objects.cpp:50-115 | A sign without left operand has 0 there, and a constant register index is narrowed to 32 bits |
| `Expressions.ResolveMeaning` | src/bm_sim/expressions.cpp:620-636 | The resolved tree reads field i of the header wherever the expression read local i |
| `Expressions.ResolveCode` | src/bm_sim/expressions.cpp:620-636 | Rewriting the loads of built code gives the code of the resolved tree, at the same positions |
| `Expressions.Expression.PushBackLoadConst` | src/bm_sim/expressions.cpp:116-122 | Appends the constant and a load of its index |
| `Expressions.Expression.PushBackOp` | src/bm_sim/expressions.cpp:151-155 | Appends one op and changes nothing else |
| `Expressions.Expression.AppendExpression` | src/bm_sim/expressions.cpp:158-185 | Appends the ops with constants relocated, and the constants |
| `Expressions.Expression.PushBackTernaryOp` | src/bm_sim/expressions.cpp:187-198 | Lays out TERNARY_OP, first branch, SKIP, second branch with the jump lengths of the branches |
| `Expressions.Expression.AssignDestRegisters` | src/bm_sim/expressions.cpp:509-599 | Gives every op the destination that the abstract stack prescribes, all below the returned count |
| `Expressions.AssignOne` | src/bm_sim/expressions.cpp:509-599 | One case of the switch: the pops and pushes of the op and the counter of registers |
| `Expressions.Expression.Build` | src/bm_sim/expressions.cpp:201-204 | Building assigns all registers and records their number |
| `Expressions.Expression.Resolve` | src/bm_sim/expressions.cpp:620-636 | The resolved expression is the built code of the resolved tree |
| `Expressions.BuildExpression` | src/bm_sim/P4Objects.cpp:50-115 | Appends to the expression exactly the code of the JSON tree, ternaries nested anywhere |
| `Expressions.EvalThread.Eval` | src/bm_sim/expressions.cpp:224-484 | Evaluating a built expression returns the value of the tree it was built from, as each operator has it; false or 0 if it is empty |
| `Expressions.EvalThread.EvalOp` | src/bm_sim/expressions.cpp:274-484 | Each case of the switch does what one step of the checked machine does |
| `Expressions.EvalThread.EvalUnary` | src/bm_sim/expressions.cpp:274-484 | The unary cases of the switch |
| `Expressions.EvalThread.EvalBinary` | src/bm_sim/expressions.cpp:274-484 | The binary cases of the switch |
| `Expressions.CompileAndEval` | src/bm_sim/P4Objects.cpp:50-115 | JSON to ops to registers to value: the result is the recursive value of the tree, as each operator has it |
| `LpmTrie.PlaceInjective` | src/bf_lpm_trie/bf_lpm_trie.c:105-108 | Different prefixes live under different nodes or prefix keys |
| `LpmTrie.LongestMatchRule` | src/bf_lpm_trie/bf_lpm_trie.c:208-246 | The descent with its sub-byte loop returns the value of a stored prefix of the key that no longer stored prefix beats, and fails iff no prefix of the key is stored |
| `LpmTrie.InsertStores` | src/bf_lpm_trie/bf_lpm_trie.c:111-167 | Insertion is a map update at one prefix, whatever the counters say; it keeps the counters exact if and only if it does not meet the prefix with value 0 |
| `LpmTrie.PruneSafe` | src/bf_lpm_trie/bf_lpm_trie.c:270-284 | Upward pruning from a node with fewer than 256 children loses no prefix and leaves no useless node on the path |
| `LpmTrie.DeleteRemoves` | src/bf_lpm_trie/bf_lpm_trie.c:248-287 | With exact counters, deletion removes exactly one prefix from the map if and only if it is not the last prefix of a non-root node with all 256 children, and leaves exact counters and no useless node |
| `LpmTrie.DeleteExactIff` | src/bf_lpm_trie/bf_lpm_trie.c:248-287 | From any trie, with the counters as they are: exactly the prefix goes if and only if nothing else is stored below the highest node that the two counters let the loop unlink |
| `LpmTrie.PruneFinds` | src/bf_lpm_trie/bf_lpm_trie.c:270-284 | The loop forgets exactly what is stored below the highest node it unlinks |
| `LpmTrie.LosesIsOverflow` | src/bf_lpm_trie/bf_lpm_trie.c:270-284 | With exact counters the two conditions are one |
| `LpmTrie.DeleteOverflow` | src/bf_lpm_trie/bf_lpm_trie.c:35-42 | In the remaining case the unsigned char counter reads 0 and a subtree with live prefixes is unlinked |
| `LpmTrie.RunRefines` | src/bf_lpm_trie/bf_lpm_trie.c:137-287 | After any run in which no insert meets its prefix with value 0 and no delete overflows, the trie holds exactly the prefixes of the plain map, its counters are exact and no node is useless |
| `LpmTrie.RunAgreesIff` | src/bf_lpm_trie/bf_lpm_trie.c:137-287 | Over every run, of any values, with or without release_memory: the trie agrees with the plain map throughout if and only if no delete fails |
| `LpmTrie.ZeroTwiceLeavesNode` | src/bf_lpm_trie/bf_lpm_trie.c:111-120 | Two inserts of one prefix with value 0 and its deletion leave a node without prefixes and children |
| `LpmTrie.ZeroAgainLosesPrefix` | src/bf_lpm_trie/bf_lpm_trie.c:111-120 | 256 inserts of one prefix with value 0, then an insert and a delete of another prefix of its node, lose the first |
| `LpmTrie.FullNodeOverflows` | src/bf_lpm_trie/bf_lpm_trie.c:270-284 | A run of 257 inserts that reaches the overflow with exact counters; the delete after it loses all 256 other prefixes |
| `LpmTrie.LookupAfterRun` | src/bf_lpm_trie/bf_lpm_trie.c:208-246 | After any such run, lookup is the longest-prefix rule over the plain map, failure included |
| `LpmTrie.AtMost255` | src/bf_lpm_trie/bf_lpm_trie.c:105-108 | A node has room for at most 255 different prefixes, so an exact prefix counter does not wrap |
| `LpmTrie.ChildAdded` | src/bf_lpm_trie/bf_lpm_trie.c:144-160 | Linking a new node keeps the branch counters right and parent and child_id inverse to the branch maps |
| `LpmTrie.PrefixesChanged` | src/bf_lpm_trie/bf_lpm_trie.c:111-135 | Changing prefixes and their counter keeps the structure linked |
| `LpmTrie.SubtreeCut` | src/bf_lpm_trie/bf_lpm_trie.c:270-284 | Cutting a branch keeps counters and parent links right for everything that is left |
| `LpmTrie.LinkChild` | src/bf_lpm_trie/bf_lpm_trie.c:52-56 | Allocates a node, links it under its byte and counts the branch |
| `LpmTrie.Trie.constructor` | src/bf_lpm_trie/bf_lpm_trie.c:57-64 | An empty trie: a root without branches or prefixes |
| `LpmTrie.Trie.Insert` | src/bf_lpm_trie/bf_lpm_trie.c:137-167 | The linked nodes hold the shape with the prefix inserted and counted as the code counts it; parent links and branch counters stay exact |
| `LpmTrie.Trie.EnsurePath` | src/bf_lpm_trie/bf_lpm_trie.c:144-160 | Creates exactly the missing nodes on the path |
| `LpmTrie.Trie.InsertPrefix` | src/bf_lpm_trie/bf_lpm_trie.c:111-120 | Stores the value and counts the prefix unless it was there with a value other than 0 |
| `LpmTrie.Trie.Walk` | src/bf_lpm_trie/bf_lpm_trie.c:169-200 | Ends at the node of the whole bytes of the prefix, or finds that it is missing |
| `LpmTrie.Trie.Retrieve` | src/bf_lpm_trie/bf_lpm_trie.c:169-200 | Finds exactly the value stored under this prefix |
| `LpmTrie.Trie.Lookup` | src/bf_lpm_trie/bf_lpm_trie.c:208-246 | Returns the value of the longest stored prefix of the key, and fails iff there is none |
| `LpmTrie.Trie.SubByte` | src/bf_lpm_trie/bf_lpm_trie.c:224-233 | The inner loop finds the longest of the 7 to 1 leading bits that is stored |
| `LpmTrie.Trie.Delete` | src/bf_lpm_trie/bf_lpm_trie.c:248-287 | The linked nodes hold the shape after deletion and pruning; false iff the prefix is not stored |
| `LpmTrie.Trie.RemovePrefix` | src/bf_lpm_trie/bf_lpm_trie.c:130-135 | Removes the prefix and decrements the counter |
| `LpmTrie.Trie.PruneUp` | src/bf_lpm_trie/bf_lpm_trie.c:270-284 | The upward loop unlinks exactly what pruning of the shape removes |
| `LpmTrie.Trie.Unlink` | src/bf_lpm_trie/bf_lpm_trie.c:99-103 | Removes one branch of the parent and decrements its counter as an unsigned char |
| `LpmTrie.RunAll` | src/bf_lpm_trie/bf_lpm_trie.c:137-287 | Any run of calls on linked nodes gives the shape of that run, with both counters and both settings of release_memory |
| `Learning.StepKeepsExactlyOnce` | src/bm_sim/learning.cpp:336-455 | Every critical section of every thread keeps the accounting of samples and buffer ids |
| `Learning.LearningIsExactlyOnce` | src/bm_sim/learning.cpp:336-455 | In every interleaving the accepted samples are those sent, pending and filling, in order, none twice; every message has the id and sample count its samples were recorded with, and ids increase |
| `Learning.RoundIs` | src/bm_sim/learning.cpp:382-455 | One round of the transmit thread from its wait on sends exactly one message if and only if samples are swapped out, or some are learnt and the deadline has passed; it carries all of them, in order, and otherwise nothing changes |
| `Learning.TransmitSends` | src/bm_sim/learning.cpp:382-455 | The same in every run, whenever the thread waits |
| `Learning.AddFills` | src/bm_sim/learning.cpp:353-379 | A sample in the filter is ignored; any other is learnt, and the one that brings the buffer to the maximum has it swapped at once if the other is free, and otherwise makes its thread wait |
| `Learning.WaiterSwaps` | src/bm_sim/learning.cpp:343-351 | A waiting thread swaps after the transmit thread has finished and it is woken up, and not before |
| `Learning.NewMaximum` | src/bm_sim/learning.cpp:326-333 | A new maximum is stored, and a buffer that is full by it is swapped or queued at once |
| `Learning.MaximumKept` | src/bm_sim/learning.cpp:326-333 | The maximum that was set last holds for every later add of a run |
| `Learning.FastPathIsSlowPath` | src/bm_sim/learning.cpp:485-503 | When unacked_count equals the filter size, the filter holds nothing but the live samples of the buffer, so clear() is the slow path, after per-sample acks too |
| `Learning.AckBufferIff` | src/bm_sim/learning.cpp:484-503 | A whole-buffer ack leaves the filter of the live samples if and only if no sample of the buffer acked before is live in another buffer |
| `Learning.AckOneIff` | src/bm_sim/learning.cpp:465-481 | A per-sample ack keeps filter and counts right if and only if the sample was not acked before |
| `Learning.RepeatedAckIff` | src/bm_sim/learning.cpp:465-481 | A second ack of one sample leaves the filter right if and only if the buffer stays and the sample was not learnt again |
| `Learning.DefinedIsPolite` | src/bm_sim/learning.cpp:465-503 | Acks of received messages that use no erased iterator meet these conditions |
| `Learning.StepKeepsFilter` | src/bm_sim/learning.cpp:361-503 | Every step with polite clients keeps the filter equal to the disjoint union of the unacknowledged samples |
| `Learning.FilterOfRun` | src/bm_sim/learning.cpp:361-503 | The same over every run in which clients ack a received sample at most once, and a whole buffer only when no sample of it acked before is live in another one |
| `Learning.MixedAcksLoseSample` | src/bm_sim/learning.cpp:466-503 | A run that breaks the condition of AckBufferIff and ends with an unacknowledged sample missing from the filter |
| `Learning.LearnList.constructor` | src/bm_sim/learning.cpp:266-270 | The initial state |
| `Learning.LearnList.Swap` | src/bm_sim/learning.cpp:335-341 | swap_buffers as a step |
| `Learning.LearnList.FullBuffer` | src/bm_sim/learning.cpp:343-351 | process_full_buffer up to its wait |
| `Learning.LearnList.WakeUp` | src/bm_sim/learning.cpp:343-351 | process_full_buffer from a wake-up on |
| `Learning.LearnList.Add` | src/bm_sim/learning.cpp:353-380 | add_sample as a step: duplicates dropped, the sample recorded under the current buffer id |
| `Learning.LearnList.SetMax` | src/bm_sim/learning.cpp:326-333 | set_max_samples as a step |
| `Learning.LearnList.TransmitBegin` | src/bm_sim/learning.cpp:383-414 | From a test of the wait to the release of the lock: goes on if and only if samples are swapped out, or some are learnt and the deadline has passed |
| `Learning.LearnList.TransmitHead` | src/bm_sim/learning.cpp:417-425 | Reading buffer_id without the lock |
| `Learning.LearnList.TransmitSend` | src/bm_sim/learning.cpp:425-444 | Sending the message without the lock |
| `Learning.LearnList.TransmitEnd` | src/bm_sim/learning.cpp:446-455 | Taking the lock again and clearing the sent buffer |
| `Learning.LearnList.AckSamples` | src/bm_sim/learning.cpp:466-482 | ack as a step: one erase and one decrement per sample |
| `Learning.LearnList.AckWhole` | src/bm_sim/learning.cpp:485-503 | ack_buffer as a step, both paths |
| `Crc.SerialIsDivision` | src/bm_sim/calculations.cpp:233-251 | The bit-serial CRC is the remainder of long division over GF(2) of the message followed by w zeros |
| `Crc.StepsLinear` | src/bm_sim/calculations.cpp:233-251 | Division steps are linear, which is why a table can be used |
| `Crc.ByteStepIsSerial` | src/bm_sim/calculations.cpp:212-217 | One table look-up does the work of eight serial steps |
| `Crc.TableRunIsSerial` | src/bm_sim/calculations.cpp:205-221 | The table-driven loop equals the bit-serial CRC for every polynomial, initial value, width of at least 8 and message |
| `Crc.ReverseSerial` | src/bm_sim/calculations.cpp:205-221 | Reversing the register turns the CRC into the right-shifting, least-significant-bit-first one |
| `Crc.ReverseInvolution` | src/bm_sim/calculations.cpp:137-151 | Reflecting an n-bit value twice gives it back |
| `Crc.ReflectedCrc` | src/bm_sim/calculations.cpp:205-221 | With both reflect flags the result is the LSB-first CRC with reversed polynomial and initial value, for every message |
| `Crc.PlainCrcIsDivision` | src/bm_sim/calculations.cpp:205-221 | Without reflection the result is the remainder of a division of polynomials, plus the final xor |
| `Crc.CrcIsDivision` | src/bm_sim/calculations.cpp:205-221 | For all four settings of the flags, bit by bit: the result is the remainder of the division of the message in the order in which it is read, reversed if remainders are reflected, plus the final value |
| `Crc.CrcIsLsbFirst` | src/bm_sim/calculations.cpp:205-221 | With reflected remainders it is the LSB-first CRC with reversed polynomial and initial value, whether or not the data are reflected |
| `Crc.Reflect` | src/bm_sim/calculations.cpp:137-151 | The loop reverses the low nBits bits of a 32-bit word and clears the rest |
| `Crc.DivideByte` | src/bm_sim/calculations.cpp:236-246 | The inner loop computes the table entry of its dividend |
| `Crc.CrcCustom.RecomputeTable` | src/bm_sim/calculations.cpp:233-251 | All 256 entries are the remainders of their dividends |
| `Crc.CrcCustom.UpdateConfig` | src/bm_sim/calculations.cpp:223-230 | Configuration and table change together |
| `Crc.CrcCustom.Run` | src/bm_sim/calculations.cpp:205-221 | The byte loop over the table returns the bit-serial CRC of the configuration: bit by bit the remainder of the division, for all settings of the flags |
| `Checksum.RfcStandsFor` | src/bm_sim/checksums.cpp:32-74 | The one's-complement sum of section 1 of RFC 1071 is determined by the plain sum modulo 65535, with 0 only for the empty sum |
| `Checksum.StandsForUnique` | src/bm_sim/checksums.cpp:32-74 | The choice between the two zeros is forced |
| `Checksum.SwapStandsFor` | src/bm_sim/checksums.cpp:32-74 | Byte order independence (section 2 of RFC 1071) |
| `Checksum.AddLoad` | src/bm_sim/checksums.cpp:39-44 | One addition with end-around carry keeps what the sum stands for |
| `Checksum.SumBuffer` | src/bm_sim/checksums.cpp:38-63 | Eight bytes at a time and tails of 4, 2 and 1 stand for the sum of all words, for every length |
| `Checksum.Fold` | src/bm_sim/checksums.cpp:64-73 | Folding to 32 and 16 bits keeps what the sum stands for |
| `Checksum.Cksum16` | src/bm_sim/checksums.cpp:32-74 | For every buffer, the returned word in memory is the RFC 1071 checksum in network order |
| `Checksum.Cksum16Host` | src/bm_sim/calculations.cpp:282-326 | For every buffer, the result is the RFC 1071 checksum in host order |
| `Extract.ExtractionIsExact` | src/bm_sim/extract.h:30-67 | The value bits are exactly the requested bits; the padding is zero if and only if the field is not narrower than a byte, or does not straddle, or no one precedes it there |
| `Extract.GenericExtract` | src/bm_sim/extract.h:30-67 | All three shift cases produce the extracted bits (line 54 masks, line 55 overwrites) |
| `Extract.ExtractShiftLeft` | src/bm_sim/extract.h:50-58 | The left-shift case |
| `Extract.ExtractShiftRight` | src/bm_sim/extract.h:59-66 | The right-shift case |
| `Extract.DeparsingIsExact` | src/bm_sim/extract.h:69-118 | A zero-padded field is written bit for bit and all earlier bits stay |
| `Extract.GenericDeparse` | src/bm_sim/extract.h:69-118 | All shift cases write the deparsed bits, and no byte outside the field's changes |
| `Extract.DeparseUnshifted` | src/bm_sim/extract.h:88-93 | The byte-aligned case |
| `Extract.DeparseShiftLeft` | src/bm_sim/extract.h:94-101 | The left-shift case |
| `Extract.DeparseShiftRight` | src/bm_sim/extract.h:102-117 | The right-shift case |
| `Headers.PutFieldExact` | src/bm_sim/fields.cpp:43-46 | A deparsed field puts its value at its offset and keeps everything before if and only if its padding agrees with the buffer |
| `Headers.PutFieldAt` | src/bm_sim/fields.cpp:43-46 | Bit by bit: the value is written, and set bits of the padding are or-ed onto the bits before |
| `Headers.ExtractedPaddingAgrees` | src/bm_sim/extract.h:50-58 | Where the padding of an extracted field is not zero it repeats the packet |
| `Headers.RoundTrip` | src/bm_sim/headers.cpp:152-196 | Deparsing the extracted fields onto any buffer reproduces the packet bits, for all positive widths |
| `Headers.HeaderRoundTrip` | src/bm_sim/headers.cpp:152-196 | In bytes: for widths that add up to whole bytes the packet comes back, whatever the buffer held |
| `Headers.DeparseConcat` | src/bm_sim/calculations.cpp:59-96 | Deparsing zero-padded fields is concatenating their values |
| `Headers.Header.Extract` | src/bm_sim/headers.cpp:152-162 | The loop extracts every field at its bit offset and marks the header valid |
| `Headers.Header.ExtractVL` | src/bm_sim/headers.cpp:164-185 | The same with one field of computed width, and the resulting size of the header |
| `Headers.Header.Deparse` | src/bm_sim/headers.cpp:187-196 | The loop writes all fields at their bit offsets and nothing outside the header |
| `Headers.ExtractField` | src/bm_sim/fields.cpp:27-33 | A field takes exactly its bits |
| `Headers.DeparseField` | src/bm_sim/fields.cpp:43-46 | A field is put at its bit offset |
| `Headers.ExtractAll` | src/bm_sim/headers.cpp:154-160 | The pointer and the bit offset advance to the place of every field |
| `Headers.DeparseAll` | src/bm_sim/headers.cpp:189-195 | The same for deparsing |
| `Headers.ExtractThenDeparse` | src/bm_sim/headers.cpp:152-196 | Running both loops gives the original bytes |
| `Headers.BufBuilder.PushField` | src/bm_sim/calculations.cpp:75-88 | Extends the buffer with zeros and deparses the field into it, whatever its padding |
| `Headers.BufBuilder.PushHeader` | src/bm_sim/calculations.cpp:90-96 | Appends the bits of a valid header |
| `Headers.BufBuilder.PushEntry` | src/bm_sim/calculations.cpp:75-96 | Does so for one entry; invalid headers add nothing |
| `Headers.BufBuilder.Build` | src/bm_sim/calculations.cpp:109-123 | The buffer holds the bits that the entries make up one after the other, zeros to the byte boundary, then the payload |
| `Headers.WithFieldExact` | src/bm_sim/calculations.cpp:75-88 | A field follows the bits so far and leaves them alone if and only if its padding agrees with them; otherwise stray bits are or-ed onto them |
| `Headers.CleanEntries` | src/bm_sim/calculations.cpp:75-96 | Zero-padded entries give the bit concatenation of their values |
| `Headers.ExtractedHeaderBits` | src/bm_sim/calculations.cpp:90-96 | An extracted header gives the bits of the packet, stray padding or not |
| `Ipv4Checksum.BufferIrrelevant` | src/bm_sim/checksums.cpp:148-174 | The deparsed header does not depend on the local buffer it is written to |
| `Ipv4Checksum.ReplacedBytes` | src/bm_sim/checksums.cpp:148-159 | Changing the checksum field changes bytes 10 and 11 only |
| `Ipv4Checksum.ComputeChecksum` | src/bm_sim/checksums.cpp:150-157 | Deparse, blank bytes 10 and 11, sum: the RFC 1071 checksum of any header that fits the buffer |
| `Ipv4Checksum.Update` | src/bm_sim/checksums.cpp:148-159 | A valid header gets its checksum in the target field, wherever that is, and changes nowhere else; an invalid one is left alone |
| `Ipv4Checksum.Verify` | src/bm_sim/checksums.cpp:161-174 | True iff the header is invalid or the field starts with the checksum |
| `Ipv4Checksum.UpdateVerifies` | src/bm_sim/checksums.cpp:148-174 | Verification holds after an update, for every header whose target field is bytes 10 and 11 |
| `Ipv4Checksum.ReceiverAccepts` | src/bm_sim/checksums.cpp:148-159 | The one's-complement sum of an updated header is 0xffff |
| `EntryLists.BigEndianIsNat` | src/bm_sim/lookup_structures.cpp:315-323 | A big-endian byte string denotes the number that its bits denote |
| `EntryLists.MemCmpIsNumeric` | src/bm_sim/lookup_structures.cpp:315-323 | memcmp on equal lengths orders byte strings as the numbers they denote |
| `EntryLists.TernaryCompare` | src/bm_sim/lookup_structures.cpp:268-274 | True iff the key agrees with the entry under its mask |
| `EntryLists.RangeCompare` | src/bm_sim/lookup_structures.cpp:313-331 | True iff each range field lies numerically within its bounds and the rest agrees under the mask |
| `EntryLists.InsertChained` | src/bm_sim/lookup_structures.cpp:198-219 | Adding at the lowest free handle keeps next visiting exactly the live handles in increasing order, with prev its inverse |
| `EntryLists.RemoveChained` | src/bm_sim/lookup_structures.cpp:221-229 | Unlinking keeps the same for the other handles |
| `EntryLists.DistanceIsHandle` | src/bm_sim/lookup_structures.cpp:246-250 | The distance from head is the handle if and only if handle 0 is live |
| `EntryLists.SelectedUnique` | src/bm_sim/lookup_structures.cpp:159-184 | At most one entry is the one a lookup must select |
| `EntryLists.HandleZeroMatters` | src/bm_sim/lookup_structures.cpp:246-250 | A run after which the only live handle is 1 and its distance is 0 |
| `EntryLists.EntryList.constructor` | src/bm_sim/lookup_structures.cpp:156-157 | An empty list over an array of the given size |
| `EntryLists.EntryList.Add` | src/bm_sim/lookup_structures.cpp:198-219 | The table gains the key under the handle and the list stays chained |
| `EntryLists.EntryList.Splice` | src/bm_sim/lookup_structures.cpp:203-218 | The pointer writes of add |
| `EntryLists.EntryList.FindEntry` | src/bm_sim/lookup_structures.cpp:252-258 | The first entry in handle order with this priority and key, or none |
| `EntryLists.EntryList.Exists` | src/bm_sim/lookup_structures.cpp:186-189 | True iff the key is stored |
| `EntryLists.EntryList.RetrieveHandle` | src/bm_sim/lookup_structures.cpp:191-196 | Finds a stored key; the reported handle is right iff handle 0 is live |
| `EntryLists.EntryList.DeleteEntry` | src/bm_sim/lookup_structures.cpp:221-229 | Removes exactly the first entry with this key |
| `EntryLists.EntryList.Unlink` | src/bm_sim/lookup_structures.cpp:224-228 | The pointer writes of delete_entry |
| `EntryLists.EntryList.Lookup` | src/bm_sim/lookup_structures.cpp:159-184 | Selects the matching entry of least priority below INT_MAX, ties to the lowest handle; reports its handle iff handle 0 is live |
| `EntryLists.RunAll` | src/bm_sim/lookup_structures.cpp:198-229 | Over every run of adds (lowest free handle) and deletes the list is chained and holds the table of the run |
| `MatchKeys.SumPermuted` | src/bm_sim/match_units.cpp:118-132 | The reordering keeps the total size of the key |
| `MatchKeys.SameLength` | src/bm_sim/match_units.cpp:125-132 | The stored key is as long as the key in program order |
| `MatchKeys.Tiling` | src/bm_sim/match_units.cpp:125-132 | Every byte of the key belongs to exactly one field |
| `MatchKeys.SortFields` | src/bm_sim/match_units.cpp:106-116 | inv_mapping is the permutation that sorts by match type, then position |
| `MatchKeys.StoredOrder` | src/bm_sim/match_units.cpp:104-116 | In the stored key ranges come first, then validities, exact, LPM and ternary fields, each in the order of the program |
| `MatchKeys.Reorder` | src/bm_sim/match_units.cpp:118-123 | key_mapping and inv_mapping are inverse permutations |
| `MatchKeys.FieldOffsets` | src/bm_sim/match_units.cpp:125-132 | Each offset is the total size of the fields stored before |
| `MatchKeys.PlaceMasks` | src/bm_sim/match_units.cpp:134-137 | big_mask holds every field's mask at that field's place |
| `MatchKeys.MatchKeyBuilder.PushBack` | src/bm_sim/match_units.cpp:146-154 | Appends a field in program order and its size; the builder stays consistent if and only if the key was not built before |
| `MatchKeys.MatchKeyBuilder.Build` | src/bm_sim/match_units.cpp:100-140 | Establishes all of the above; a second call changes nothing |
| `MatchParams.CreateMask` | src/bm_sim/match_units.cpp:273-282 | The mask has exactly the first p bits set |
| `MatchParams.TrickIsOnes` | src/bm_sim/match_units.cpp:265-268 | The shift-and-mask arithmetic counts the ones of every byte |
| `MatchParams.PrefLenFromMask` | src/bm_sim/match_units.cpp:256-271 | The result is the number of ones of the mask |
| `MatchParams.MaskGivesPrefix` | src/bm_sim/match_units.cpp:256-282 | The prefix length is recovered exactly from its own mask |
| `MatchParams.FieldFixpoint` | src/bm_sim/match_units.cpp:305-542 | One field through entry and back: bytes, mask and prefix are stable |
| `MatchParams.FieldOfEntry` | src/bm_sim/match_units.cpp:426-542 | Each field of a stored key is that of its own parameter |
| `MatchParams.StoredPrefix` | src/bm_sim/match_units.cpp:445-474 | The stored prefix length is that of the LPM parameters plus all other bits |
| `MatchParams.PrefixesRecovered` | src/bm_sim/match_units.cpp:324-356 | In an LPM table prefix lengths come back exactly if and only if every LPM parameter but the last is 0, so always with one LPM field |
| `MatchParams.ConversionFixpoint` | src/bm_sim/match_units.cpp:305-542 | Parameters to entry to parameters to entry: the second entry is the first, for exact, LPM, ternary and range keys |
| `MatchParams.AgainSane` | src/bm_sim/match_units.cpp:560-594 | Parameters read back from an entry pass the sanity check if and only if the recovered prefix length fits its field, so always but for several LPM fields |
| `MatchParams.CheckField` | src/bm_sim/match_units.cpp:570-591 | The test of one parameter, its range test being numeric |
| `MatchParams.SanityCheck` | src/bm_sim/match_units.cpp:560-594 | Accepts exactly the parameters that are sane in program order |
| `MatchConversion.ExactEntry` | src/bm_sim/match_units.cpp:423-440 | The loop builds the stored key of an exact table |
| `MatchConversion.LpmEntry` | src/bm_sim/match_units.cpp:442-474 | The same for LPM, with the prefix length |
| `MatchConversion.RawTernary` | src/bm_sim/match_units.cpp:513-542 | Data and mask before masking |
| `MatchConversion.FormatTernary` | src/bm_sim/match_units.cpp:284-289 | Masks the data from a position on |
| `MatchConversion.TernaryEntry` | src/bm_sim/match_units.cpp:476-487 | The stored key of a ternary table |
| `MatchConversion.RangeEntry` | src/bm_sim/match_units.cpp:489-510 | The stored key of a range table; the range ends stay unmasked |
| `MatchConversion.RangeBytes` | src/bm_sim/match_units.cpp:496-507 | The range widths add up to the place where the other fields begin |
| `MatchConversion.ExactParams` | src/bm_sim/match_units.cpp:301-322 | Parameters of an exact entry in program order |
| `MatchConversion.LpmParams` | src/bm_sim/match_units.cpp:324-356 | Parameters of an LPM entry |
| `MatchConversion.TernaryParams` | src/bm_sim/match_units.cpp:358-412 | Parameters of a ternary or range entry |
| `MatchMeaning.TernaryMeaning` | src/bm_sim/match_units.cpp:476-542 | A ternary or range entry matches, byte for byte, exactly the packet keys whose fields match every parameter; what that says about values is ValueMeaning.ValueMeaningIff |
| `MatchMeaning.LpmMeaning` | src/bm_sim/match_units.cpp:442-474 | A packet key agrees with the stored LPM key in its prefix exactly when every field matches its parameter byte for byte |
| `MatchMeaning.LpmMeaningIff` | src/bm_sim/match_units.cpp:442-474 | With any number of LPM fields this holds for every packet if and only if the masks of the fields make up a prefix mask |
| `MatchMeaning.LpmPrefixFits` | src/bm_sim/match_units.cpp:442-474 | The stored prefix is no longer than the key |
| `MatchMeaning.ExactMeaning` | src/bm_sim/match_units.cpp:423-440 | A packet key equals the stored key exactly when every field matches its parameter byte for byte |
| `MatchMeaning.LpmLast` | src/bm_sim/match_units.cpp:109-116 | With one LPM field, that field is stored last |
| `MatchMeaning.BigMaskMeaning` | src/bm_sim/match_units.cpp:134-137 | With a mask for the whole key a table stores what it would store without one for the parameters under the masks of their fields, for every kind of key |
| `ValueMeaning.PaddedPrefixFails` | src/bm_sim/match_units.cpp:273-282 | A non-empty prefix on a field with padding ignores its own last bit: flipping it in the value gives a zero-padded field that matches and does not satisfy the parameter |
| `ValueMeaning.FieldValueIff` | src/bm_sim/match_units.cpp:442-474 | One field: the stored key means the parameter's prefix of the value for every zero-padded field if and only if the width is a multiple of 8 or the prefix is empty |
| `ValueMeaning.FourteenBits` | src/bm_sim/match_units.cpp:273-282 | A 14-bit field and a /14 parameter: a value that differs in its lowest two bits matches all the same |
| `ValueMeaning.ValueMeaningIff` | src/bm_sim/match_units.cpp:423-542 | Whole keys of every kind: comparing bytes is comparing values as the parameters say, for every zero-padded packet, if and only if no LPM prefix falls into padding |
| `ValueMeaning.ExactByValue` | src/bm_sim/match_units.cpp:423-440 | An exact parameter matches a field if and only if its value is the parameter's and its padding is zero |
| `ValueMeaning.TernaryByValue` | src/bm_sim/match_units.cpp:513-542 | A ternary parameter matches a field if and only if its value does and the mask hides what the padding holds |
| `ValueMeaning.ExtractedPadding` | src/bm_sim/extract.h:50-58 | The field that a packet's key takes is zero-padded unless it is narrower than a byte, straddles two bytes and is preceded there by a one |
| `ValueMeaning.ExactOfPacket` | src/bm_sim/match_units.cpp:189-215 | So an exact parameter matches a field extracted from a packet if and only if the values agree and no such one precedes it |
| `ValueMeaning.PacketKey` | src/bm_sim/match_units.cpp:189-215 | The key of a packet holds at every field's place the byte 1 or 0 for a validity field, zeros for a field of an invalid header that is not hidden, the field's own bytes otherwise; under the mask of the whole key if there is one |
| `ValueMeaning.ValidParameter` | src/bm_sim/match_units.cpp:194-196 | A VALID parameter of value 1 matches the key of a packet if and only if the header is valid, one of value 0 if and only if it is not |
| `ValueMeaning.InvalidHeader` | src/bm_sim/match_units.cpp:197-209 | An exact parameter on a field of an invalid header that is not hidden matches if and only if the value it asks for is zero |
| `MatchUnit.AddCases` | src/bm_sim/match_units.cpp:944-976 | Which error add_entry returns and when, duplicates being told by the fields of the keys; otherwise the entry goes to the lowest free slot |
| `MatchUnit.DuplicateIff` | src/bm_sim/match_units.cpp:954-956 | DUPLICATE_ENTRY if and only if a live entry has the same data (exact), the same prefix (LPM), or the same data, mask and priority (ternary, range) |
| `MatchUnit.StepKeeps` | src/bm_sim/match_units.cpp:944-1003 | Every operation keeps num_entries, the index, the versions and their copies consistent |
| `MatchUnit.RunKeeps` | src/bm_sim/match_units.cpp:944-1003 | Over every run, of a table of any size, num_entries is the number of live handles and the index holds exactly the live keys |
| `MatchUnit.StepRefines` | src/bm_sim/match_units.cpp:944-1003 | Seen as a plain map from live slots to keys and values, each operation changes one slot (the lowest free one for an add), or nothing when it returns an error |
| `MatchUnit.KeysDiffer` | src/bm_sim/match_units.cpp:954-956 | No two live entries are the same to the lookup structure; in an LPM table no two have the same prefix |
| `MatchUnit.SameEntryIff` | src/bm_sim/lookup_structures.cpp:60-147 | The lookup structures take two keys for one exactly if they have the same data (exact), the same prefix (LPM), or the same data, mask, range widths and priority (ternary, range) |
| `MatchUnit.HandleParts` | src/bm_sim/match_units.cpp:38-41 | What HANDLE_INTERNAL and HANDLE_VERSION read back from any handle: the slot modulo 2^24, and the version or-ed with what the slot has above |
| `MatchUnit.HandleNamesSlot` | src/bm_sim/match_units.cpp:38-41 | A handle names its slot if and only if the slot is below 2^24 |
| `MatchUnit.OversizedTable` | src/bm_sim/match_units.cpp:638-649 | In a table larger than that, a run after which two live entries have one handle and deleting the one deletes the other |
| `MatchUnit.Acceptance` | src/bm_sim/match_units.cpp:978-1003 | For every slot below 2^24, a handle is accepted if and only if its slot is live, still in the life it was given out for, and that life is among the first 256 |
| `MatchUnit.HandlesOfRun` | src/bm_sim/match_units.cpp:944-1003 | Over every run of a table of any size, a handle is refused once a newer one was given out for its slot, and accepted exactly as above; beyond 2^24 it names another slot |
| `MatchUnit.StuckForever` | src/bm_sim/match_units.cpp:978-1003 | An entry in the 257th life of a slot can never be deleted or modified |
| `MatchUnit.LaterLivesAreStuck` | src/bm_sim/match_units.cpp:38-41 | A run of 256 adds and deletes that gets there |
| `MatchUnit.ReportedIff` | src/bm_sim/lookup_structures.cpp:246-250 | The slot reported for a live entry is its own if and only if slot 0 is live or the table is neither ternary nor range |
| `MatchUnit.RunUsed` | src/bm_sim/match_units.cpp:944-976 | Over every run slots are used from the first on, so that a reported slot has held an entry |
| `MatchUnit.GetsSomething` | src/bm_sim/match_units.cpp:903-914 | So whatever slot is reported for a live entry, there is a value to return |
| `MatchUnit.MatchUnitGeneric.constructor` | src/bm_sim/match_units.cpp:638-649 | An empty table |
| `MatchUnit.MatchUnitGeneric.BuildKey` | src/bm_sim/match_units.cpp:917-942 | The key of sane parameters, none for others: the data of their entry under the mask of the whole key, the priority if the table is ternary or range |
| `MatchUnit.MatchUnitGeneric.Add` | src/bm_sim/match_units.cpp:944-976 | add_entry as a step; its error is BAD_MATCH_KEY, DUPLICATE_ENTRY (a live entry has the same key, field by field) or TABLE_FULL, tested in this order |
| `MatchUnit.MatchUnitGeneric.Check` | src/bm_sim/match_units.cpp:981-985 | The handle test of delete, modify and get |
| `MatchUnit.MatchUnitGeneric.Delete` | src/bm_sim/match_units.cpp:978-990 | delete_entry as a step |
| `MatchUnit.MatchUnitGeneric.Modify` | src/bm_sim/match_units.cpp:992-1003 | modify_entry as a step |
| `MatchUnit.MatchUnitGeneric.GetValue` | src/bm_sim/match_units.cpp:1005-1016 | The value of a live entry under an accepted handle |
| `MatchUnit.MatchUnitGeneric.RetrieveHandle` | src/bm_sim/match_units.cpp:1036-1053 | Succeeds if and only if a live entry has the key, field by field; gives the handle of the slot that the lookup structure reports for it, which is an accepted handle of that entry if and only if that is its slot and its version is below 256 |
| `MatchUnit.MatchUnitGeneric.LookupKey` | src/bm_sim/match_units.cpp:903-914 | Handle and last value of the slot that the lookup structure reports, live or not |
| `Tables.RunHolds` | src/bm_sim/match_units.cpp:944-1003 | Every key in a table was added in the run |
| `Tables.LpmStep` | src/bm_sim/lookup_structures.cpp:63-88 | One operation of an LPM table: its index changes as the plain map of the trie does, and no insertion meets a present prefix |
| `Tables.TrieFollows` | src/bm_sim/lookup_structures.cpp:63-88 | In every run of an LPM table in which no delete overflows, the trie holds exactly the prefixes of the live entries, each with its slot |
| `Tables.LpmTableFinds` | src/bm_sim/match_units.cpp:903-914 | After such a run a lookup finds the slot of the live entry with the longest prefix that agrees with the packet |
| `Tables.LpmTableMatches` | src/bm_sim/match_units.cpp:903-914 | End to end, byte for byte: a packet finds an entry if and only if it matches the parameters of a live one, and then one of longest prefix |
| `Tables.ListFollows` | src/bm_sim/lookup_structures.cpp:198-229 | In every run of a ternary or range table the entry list holds exactly the keys of the live entries, each at its slot |
| `Tables.ListKeyIff` | src/bm_sim/lookup_structures.cpp:252-258 | The entry list tells two keys apart by data, mask, widths and priority, and the match unit takes them for one exactly when the list does |
| `Tables.ListTellsDuplicates` | src/bm_sim/match_units.cpp:953-956 | In every run of a ternary or range table DUPLICATE_ENTRY is returned if and only if the list holds the very key, and a retrieve finds an entry if and only if the list does, and then that one |
| `Tables.TernaryTableMatches` | src/bm_sim/lookup_structures.cpp:159-184 | What the list may select for a packet are exactly the live entries whose parameters it matches byte for byte, and it selects one of least priority |
| `Tables.ExactTableMatches` | src/bm_sim/match_units.cpp:903-914 | End to end, byte for byte: the hash map has the key of a packet if and only if the packet matches the parameters of a live entry, and leads to it |
| `Tables.ListReports` | src/bm_sim/lookup_structures.cpp:246-250 | For a live entry in slot h the list reports slot h - head, head being the least live slot; that is h if and only if slot 0 is live |
| `Tables.PacketGets` | src/bm_sim/match_units.cpp:903-914 | Over every run of a ternary or range table: the list selects a live entry h of least priority among those the packet matches, the packet gets the content of slot h if and only if slot 0 is live, and otherwise what slot h - head last held |
| `Tables.DeletedValueReturned` | src/bm_sim/match_units.cpp:903-914 | Two adds and a delete of the first: a packet that matches the second entry gets the value of the deleted one, and the handle of that slot is refused |
| `Tables.PacketLookup` | src/bm_sim/match_units.cpp:903-914 | The lookup of a packet through the list and the unit: it finds something if and only if an entry is eligible, and returns the value of the slot reported for the selected one |
| `Tables.MatchedIsSatisfied` | src/bm_sim/match_units.cpp:423-542 | In every run, for zero-padded packets and entries without a prefix in padding, matching byte for byte is satisfying by value |
| `Tables.LpmTableSelects` | src/bm_sim/match_units.cpp:903-914 | LPM tables end to end, by value: a packet finds an entry if and only if its values satisfy the parameters of a live one, and then one of longest prefix |
| `Tables.TernaryTableSelects` | src/bm_sim/match_units.cpp:903-914 | Ternary and range tables end to end, by value: the selected entry is a live one of least priority among those the packet's values satisfy, and the packet gets the content of its slot if and only if slot 0 is live |
| `Tables.ExactTableSelects` | src/bm_sim/match_units.cpp:903-914 | Exact tables end to end, by value: the hash map has the key of a packet if and only if its values satisfy the parameters of a live entry, and leads to it |
| `Debugger.StepKeeps` | src/bm_sim/debugger.cpp:296-907 | Every step of every thread keeps the reply slot from being overwritten, the data plane stopped while attached with no continue or next pending, and one reply per request |
| `Debugger.RunsAreSafe` | src/bm_sim/debugger.cpp:662-907 | The same over every run in which breakpoints are set only while the data plane is stopped |
| `Debugger.AttachingIsAllowed` | src/bm_sim/debugger.cpp:661-675 | A client that attaches before anything else sets breakpoints only then |
| `Debugger.AttachingRunsAreSafe` | src/bm_sim/debugger.cpp:643-907 | In every run with such a client no reply is overwritten and each request gets exactly one reply, with its own id or, for attach, detach and reset, with 0 |
| `Debugger.RunningBreakpointFaults` | src/bm_sim/debugger.cpp:296-310 | Otherwise the next hit of the watchpoint overwrites a reply |
| `Debugger.RunningBreakFaults` | src/bm_sim/debugger.cpp:363-390 | The same for a break on incoming packets |
| `Debugger.FaultWithoutAttaching` | src/bm_sim/debugger.cpp:615-625 | A run of a client that never attaches and overwrites a reply |
| `Debugger.StepCounts` | src/bm_sim/debugger.cpp:363-450 | Every step keeps the count of each packet id equal to its tracked copies |
| `Debugger.RunsCount` | src/bm_sim/debugger.cpp:363-450 | The same over every run, whatever the client does |
| `Debugger.ValuesAreLatest` | src/bm_sim/debugger.cpp:496-521 | In every run get_value answers with the latest value the data plane gave that register since the copy entered, status 2 if none, status 1 for an unknown copy |
| `DebuggerRuns.SettingsOfRun` | src/bm_sim/debugger.cpp:477-692 | In every run a watchpoint, break, hold, step, attachment and the running of the data plane are what the last request or reply that concerns them made them |
| `DebuggerRuns.FiltersOfRun` | src/bm_sim/debugger.cpp:587-613 | In every run the filters are what the last request for filters listed, nothing after a reset |
| `DebuggerRuns.UpdatesReported` | src/bm_sim/debugger.cpp:295-331 | In every run an update of a running data plane is reported and stops it if and only if its copy is selected and a next or a watchpoint on its id is in force; a stopped data plane does nothing |
| `DebuggerRuns.CountersReported` | src/bm_sim/debugger.cpp:341-360 | The same for parser states and actions |
| `DebuggerRuns.PacketsReported` | src/bm_sim/debugger.cpp:362-390 | In every run a copy is held if and only if the data plane is stopped, or packets are and no copy of its packet is in the switch; one that enters is reported if and only if it is selected and a next or a break on packets is in force |
| `DebuggerRuns.PacketsLeave` | src/bm_sim/debugger.cpp:392-409 | In every run a copy leaves a running switch; a stopped one keeps it |
| `DebuggerRuns.RequestsAnswered` | src/bm_sim/debugger.cpp:477-692 | In every run continue and next are left to the data plane, and every other request is answered at once, with status 1 exactly if there is nothing to undo or attach |
| `DebuggerRuns.BacktracesAreOpen` | src/bm_sim/debugger.cpp:523-540 | In every run a backtrace lists what was entered for the copy and not left, in order; status 1 for an unknown copy |
| `DebuggerRuns.CtrBytesAre` | src/bm_sim/debugger.cpp:316-321 | The bytes of a counter are its low 32 bits, the highest first |
| `Debugger.DebuggerNN.constructor` | src/bm_sim/debugger.cpp:261-263 | The initial state |
| `Debugger.DebuggerNN.Send` | src/bm_sim/debugger.cpp:695-803 | Fills the slot with the current request id and marks it |
| `Debugger.DebuggerNN.NotifyUpdateGeneric` | src/bm_sim/debugger.cpp:295-310 | Records the value and stops the data plane if a watchpoint or next applies |
| `Debugger.DebuggerNN.NotifyUpdateNow` | src/bm_sim/debugger.cpp:324-331 | notify_update once can_continue holds |
| `Debugger.DebuggerNN.NotifyCtrNow` | src/bm_sim/debugger.cpp:341-360 | Pushes or pops the counter stack and notifies |
| `Debugger.DebuggerNN.CountIn` | src/bm_sim/debugger.cpp:426-432 | One more copy of a packet id |
| `Debugger.DebuggerNN.CountOut` | src/bm_sim/debugger.cpp:434-442 | One less, and no entry for none |
| `Debugger.DebuggerNN.PacketInNow` | src/bm_sim/debugger.cpp:362-390 | packet_in once the thread is not held |
| `Debugger.DebuggerNN.PacketOutNow` | src/bm_sim/debugger.cpp:392-409 | packet_out once can_continue holds |
| `Debugger.DebuggerNN.ResetState` | src/bm_sim/debugger.cpp:642-651 | Clears filters, breaks and the request id |
| `Debugger.DebuggerNN.ReqFilterNotifications` | src/bm_sim/debugger.cpp:587-613 | The two filter sets are exactly the listed copies and the listed packets |
| `Debugger.DebuggerNN.ReqAttach` | src/bm_sim/debugger.cpp:661-675 | attach as a step |
| `Debugger.DebuggerNN.ReqDetach` | src/bm_sim/debugger.cpp:677-692 | detach as a step |
| `Debugger.DebuggerNN.ReqRead` | src/bm_sim/debugger.cpp:496-540 | get_value and get_backtrace as steps, with their error codes |
| `Debugger.DebuggerNN.ReqResume` | src/bm_sim/debugger.cpp:477-494 | continue and next as steps |
| `Debugger.DebuggerNN.ReqPackets` | src/bm_sim/debugger.cpp:542-585 | Breaks on packets, stopping and resuming packets |
| `Debugger.DebuggerNN.ReqFilters` | src/bm_sim/debugger.cpp:587-659 | Filters, watchpoints and reset |
| `Debugger.DebuggerNN.RequestDispatch` | src/bm_sim/debugger.cpp:806-854 | Every request does its step |
| `Debugger.DebuggerNN.Receive` | src/bm_sim/debugger.cpp:871-879 | Receiving a request clears the slot |
| `Debugger.DebuggerNN.NumberAndDispatch` | src/bm_sim/debugger.cpp:881-883 | Writing req_id and dispatching |
| `Debugger.DebuggerNN.KeepAliveTimeout` | src/bm_sim/debugger.cpp:885-901 | The keep-alive stops the data plane and answers |
| `Debugger.DebuggerNN.Deliver` | src/bm_sim/debugger.cpp:903-907 | The slot goes to the client |
| `Ageing.SweepTells` | src/bm_sim/ageing.cpp:151-201 | A sweep sends about each table exactly the aged handles that the sweep before did not notify, and records them |
| `Ageing.NotifiedIsDifference` | src/bm_sim/ageing.cpp:151-201 | In every run the set notified at sweep k is the set aged at k minus the set notified at k - 1 |
| `Ageing.NotifiedEveryOther` | src/bm_sim/ageing.cpp:151-201 | A handle is notified at sweep k if and only if it has been aged for an odd number of sweeps in a row |
| `Ageing.NeverTwiceInARow` | src/bm_sim/ageing.cpp:151-201 | No handle is notified by two sweeps in a row |
| `Ageing.MessagesNumbered` | src/bm_sim/ageing.cpp:182-199 | Message i of a run has buffer id i and is not empty |
| `Ageing.FreshLists` | src/bm_sim/ageing.cpp:163-168 | What is notified are the aged handles not notified before, each where the sweep found it and in that order |
| `Ageing.ListsDistinct` | src/bm_sim/ageing.cpp:163-168 | Handles that the sweep finds once are notified once |
| `Ageing.SweepMessages` | src/bm_sim/ageing.cpp:151-200 | A sweep sends one message for each table that has a handle to notify and none for others, in the order of the tables |
| `Ageing.RunMessages` | src/bm_sim/ageing.cpp:151-200 | The same for every sweep of every run |
| `Ageing.AgeingMonitor.constructor` | src/bm_sim/ageing.cpp:98-104 | No table has a previous sweep |
| `Ageing.AgeingMonitor.DoSweep` | src/bm_sim/ageing.cpp:151-201 | do_sweep over all tables |
| `Ageing.AgeingMonitor.SweepOne` | src/bm_sim/ageing.cpp:153-200 | The body of the loop, with both early exits |
| `Ageing.AgeingMonitor.Collect` | src/bm_sim/ageing.cpp:163-168 | Collects the aged handles not in the previous sweep, in order |

## Left out

- The rest of `P4Objects` and JSON loading, Thrift and nanomsg servers, pcap, device managers, command-line tools: plumbing and I/O.
- Expressions: the operations of `Data` are parameters of the environment; register and local accesses out of range, which the code does not check, are not modelled.
- The literal tables of `crc_tables.h`, xxhash and the fixed `crc16`, `crc32` and `crcCCITT` functors: constants and foreign code; the generated table is modelled instead.
- Headers: hidden fields, the cached arithmetic value of a field and the written-to flags; the width of a variable-length field is a parameter, its expression being evaluated outside.
- Headers.BufBuilder.PushHeader: a header entry must start on a byte boundary, which the code asserts.
- Ipv4Checksum.ComputeChecksum: the header has at most 60 bytes, the size of the local buffer; a target field to be updated has two bytes, which the code asserts.
- Crc.CrcCustom.Run: the lock around the run is not modelled; configuration and table change in one step.
- LpmTrie: freeing memory, destroying a trie, and the limit of 64 bytes on keys.
- Learning: `reset_state`, shutdown, changing the writer and mode NONE, which sends nothing; that inserting into the filter may move it and with it the iterators.
- Learning.LearnList.AckSamples: using an erased iterator, an index out of range, or the record of a buffer after its last sample is undefined in the code; here the sample is erased by value, and the loop ends. Learning.UsesErased marks these calls.
- EntryLists.EntryList.Add: the handle must be the lowest free one, as the comment in the code says; out-of-range handles throw.
- EntryLists.EntryList.DeleteEntry: the key must be present, which the code asserts.
- MatchKeys: names of fields.
- MatchKeys.MatchKeyBuilder.PushBack: the mask is as long as the field, which the code asserts.
- MatchMeaning.LpmMeaning: for keys with one LPM field, as LPM tables have; the exact condition for more is that of MatchMeaning.LpmMeaningIff.
- MatchUnit: `reset_state`, serialization, `get_entry`, dumps, counters, meters, time-to-live.
- Tables: LPM tables are covered up to the first delete that overflows; the theorems by value are for packets whose fields are zero-padded and entries without a prefix in padding, the exact condition being that of ValueMeaning.ValueMeaningIff.
- Debugger: `config_change_`, shutdown, unknown request types; the data plane is assumed to announce a packet before it updates it and to leave only states it entered.
- Ageing: `reset_state`, adding tables between sweeps, and the clock that decides what has aged.
- Widths: sizes, counters and buffer ids of 64 bits are unbounded numbers; 8-, 16-, 24- and 32-bit quantities that can wrap are modelled with their wrap-around.
