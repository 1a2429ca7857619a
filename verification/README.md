# Verified models of DPDK's test applications

Dafny models of the algorithms inside `app/test-pmd` and `app/test-crypto-perf`, with proofs about them.

* **Flow command parser** (`FlowTokens`, `FlowArena`, `FlowState`, `FlowValues`, `FlowInput`, `FlowParser`, `FlowTable`,
  `FlowLine`, `BitFill`, `BitFields`, `PrefixMask`): the table-driven pushdown machine of the `flow` command. Each token
  names the lists that may follow and the arguments those will consume; callbacks pop, restore and repush; items and
  actions grow up in the output buffer while their structures grow down. `FlowTokens` says when a token table is fit for
  the parser: every list carries the kind of place it stands for. `FlowState` lists the states between two words,
  `FlowParser` is the parser itself, `FlowTable` a representative part of the real table, `FlowLine` one line read with
  it. `BitFill`, `BitFields` and `PrefixMask` are the bit-field and prefix stores.
* **Crypto benchmarks** (`CryptoDevice`, `Throughput`, `Latency`, `Cyclecount`): operations travel between a pool, a
  pointer array and a device that accepts any prefix of a burst and returns what it holds in any order.
* **Segmented packets and tunnels** (`SplitCopy`, `ScatterWrite`, `Dissect`, `TunnelCksums`, `ChecksumForward`): copies
  between chains, scattered header writes, the dissector with its packet grammar, the ordered rewriting of inner and outer
  checksums, and both together on one packet.
* **Internet checksums** (`OnesComplement`, `Checksums`, `IcmpEcho`): RFC 1071 sums with both zeros, the four checksum
  routines, and the incremental update of RFC 1624 in the echo responder.
* **Configuration** (`FwdConfig`, `FlowRules`, `FlowRuleListing`): which core owns which queue, the rule list kept in
  step with the device, and the sorted listing.

`Sums` and `Optional` hold what several modules share.

State that the original updates in place is a class field or an array here; the device, the pool and `rte_flow` are
classes whose methods promise only what any implementation keeps, so a proof covers every behaviour of theirs. Numbers
are unbounded except where the original's width shows; there the wrap-around is written out.

Where the code does not do what one would expect, the model follows the code and a lemma says exactly when the expected
property holds:

* the mean of the dequeue bursts divides by the number of enqueue bursts and can exceed the maximum
  (`Latency.DequeueMeanOrderedIff`, with a run in `Latency.Runner.BookTwoPolls`);
* a prefix length of 2^35 or more is taken modulo 2^35 by the byte path (`PrefixMask.EffectiveIsExact`);
* `pkt_copy_split()` mistakes a first segment without tailroom for success and writes beyond it
  (`SplitCopy.PktCopySplit`, with an input in `SplitCopy.OverrunFirstSegment`), and a segment length can wrap at 2^16
  (`SplitCopy.PlanCovers`, `SplitCopy.WrappedPlan`);
* a segment of a copy never holds bytes of two segments of its source, so that a copy may fail although there is room
  (`SplitCopy.MbufCopySplit`, `SplitCopy.SegmentsDoNotMix`);
* with random splitting the headers fit only if they fit the first segment (`ScatterWrite.RandomSplitIff`,
  `ScatterWrite.RandomSplitTooShort`);
* a rule stays on the device when creating its list entry fails and destroying it fails too (`FlowRules.Port.Create`),
  or when the device refuses a flush, which empties the list all the same (`FlowRules.Port.Flush`);
* `ip_sum()` drops an odd last byte (`Checksums.IpSumMatchesRfcIff`); the multicast test of the echo responder knows only
  224/8, so that a request to any other multicast address is answered from that address (`IcmpEcho.MacroAgreesIff`,
  `IcmpEcho.UnicastReplyIff`, `IcmpEcho.MacroMissesMulticast`);
* an all-zero rest turns the echo reply's checksum into the other zero (`IcmpEcho.ReplyVerifies`);
* IPv4 options are left out of header and transport checksums (`TunnelCksums.FixIpVerifiesIff`,
  `TunnelCksums.FixL4VerifiesIff`, with a packet in `TunnelCksums.OptionsPacket`);
* an IP in IP packet keeps the outer protocol of an earlier packet, so that a word of its inner header may be replaced by
  a UDP checksum (`Dissect.TunnelInverts`, `TunnelCksums.StaleProtocol`, `TunnelCksums.SpoiltHeader`); IPv6 in IPv4 is not
  recognised (`Dissect.Ipv6InIpNotFound`), although the comment above `pkt_burst_checksum_forward()` lists it;
* RSS polls no more receive queues than there are transmit queues (`FwdConfig.RssCoversIff`, `FwdConfig.RssQueueMissed`),
  and the echo set-up uses transmit queues that may not exist (`FwdConfig.EchoTxQueuesExistIff`,
  `FwdConfig.EchoTxQueueMissing`). The number of streams could wrap at 2^16, but not within the limits of the default
  build (`FwdConfig.NoWrap`).

## Model

| member | source | states |
|---|---|---|
| FlowTokens.PushKeepsSync | app/test-pmd/cmdline_flow.c:4843-4861 | pushing a token's lists and arguments keeps the argument stack the concatenation of what the pending lists will consume |
| FlowTokens.TopArgs | app/test-pmd/cmdline_flow.c:2849-2853 | the arguments on top of the stack are those of the list on top; taking both leaves the rest in step |
| FlowTokens.TokenBringsArgs | app/test-pmd/cmdline_flow.c:1253-1358 | in a well-formed table every token brings exactly the arguments of the lists it brings, list by list, and at most three lists |
| FlowArena.OpenItemKeepsArena | app/test-pmd/cmdline_flow.c:3085-3104 | a new item whose block fits keeps items and blocks aligned, inside the buffer and pairwise disjoint, each pointer in its own block |
| FlowArena.OpenActKeepsArena | app/test-pmd/cmdline_flow.c:3105-3131 | the same for an action and its configuration |
| FlowArena.WritableIsSafe | app/test-pmd/cmdline_flow.c:3085-3135 | no byte a value may go to is a word the parser maintains, an item, an action or part of an earlier block |
| FlowArena.EntriesAreSafe | app/test-pmd/cmdline_flow.c:4126-4132 | the same for the rule and group numbers of destroy and list: earlier entries and the header words stay |
| FlowArena.KeepFrozen | app/test-pmd/cmdline_flow.c:3178-3195 | writes to the newest block leave every earlier block with the bytes it had when the next one was opened |
| FlowArena.FreezeLast | app/test-pmd/cmdline_flow.c:3131-3134 | opening a block settles the bytes of the block before it |
| FlowState.DepthBound | app/test-pmd/cmdline_flow.c:343-353 | in every state between two words neither stack holds more than three entries, so CTX_STACK_SIZE is never reached |
| FlowState.NoArgsLeft | app/test-pmd/cmdline_flow.c:4975-4991 | no argument is left over when nothing is pending or the command may end |
| FlowState.ValueRoom | app/test-pmd/cmdline_flow.c:4337-4362 | in every state a value has room: its field lies in the buffer, on bytes that may be written, apart from its mask |
| FlowState.EntryStep | app/test-pmd/cmdline_flow.c:3005-3028 | the state after the word flow |
| FlowState.CommandStep | app/test-pmd/cmdline_flow.c:3044-3055 | every command token leads to a valid state with its own pending lists |
| FlowState.AttrStep | app/test-pmd/cmdline_flow.c:3056-3075 | attributes and the pattern keyword lead to valid states |
| FlowState.ItemStep | app/test-pmd/cmdline_flow.c:3089-3104 | an item leads to its fields, the end item to the actions, with END in the pattern exactly once |
| FlowState.ActionStep | app/test-pmd/cmdline_flow.c:3105-3131 | an action leads to its fields, the end action to the complete command, with END in the actions exactly once |
| FlowState.ItemFieldStep | app/test-pmd/cmdline_flow.c:1443-1449 | a field asks for a parameter and then a value that fits the item |
| FlowState.ParamStep | app/test-pmd/cmdline_flow.c:3138-3197 | is, spec, last, mask and prefix choose a third of the newest block; prefix replaces the value list and keeps the stacks in step |
| FlowState.ActionFieldStep | app/test-pmd/cmdline_flow.c:3200-3218 | a field of an action asks for a value that fits its configuration |
| FlowState.RssStep | app/test-pmd/cmdline_flow.c:3344-3348 | leaving an RSS list, or keeping it for another entry, leads to a valid state |
| FlowState.EntryOfList | app/test-pmd/cmdline_flow.c:4126-4132 | another rule or group leads to a valid state when it fits the buffer |
| FlowState.ValueStep | app/test-pmd/cmdline_flow.c:4840-4842 | a value that was read makes way for what was pending below it |
| FlowValues.IntBytesRead | app/test-pmd/cmdline_flow.c:4339-4361 | a stored integer reads back, in the byte order of the field, as the value modulo its size |
| FlowValues.AllOnesStored | app/test-pmd/cmdline_flow.c:4362-4366 | the mask of a stored value is all ones |
| FlowValues.ByteBack | app/test-pmd/cmdline_flow.c:4349-4355 | a stored byte is the value modulo 256 |
| FlowInput.FindName | app/test-pmd/cmdline_flow.c:4599-4601 | the first name equal to a word, or none |
| FlowInput.Reader.PopArgs | app/test-pmd/cmdline_flow.c:2849-2853 | takes the last argument, if any |
| FlowInput.Reader.PushArgs | app/test-pmd/cmdline_flow.c:2856-2863 | adds an argument unless the stack is full |
| FlowInput.Reader.ParseInt | app/test-pmd/cmdline_flow.c:4294-4367 | accepts exactly the numbers between the bounds, signed or not as the argument is, for a storable argument; the field then holds the value and its mask all ones; a refusal restores the stack and writes nothing |
| FlowInput.Reader.ParsePrefix | app/test-pmd/cmdline_flow.c:2923-2988 | accepts exactly the lengths that fit; the field holds the top bits; a refusal restores the stack |
| FlowInput.Reader.ParseBoolean | app/test-pmd/cmdline_flow.c:4589-4610 | even and odd names stand for 0 and 1, anything else must be a number; a refusal restores the stack |
| FlowInput.Reader.ParseAddress | app/test-pmd/cmdline_flow.c:4448-4481 | MAC and IPv6 addresses are stored with a full mask; a refusal restores the stack |
| FlowInput.Reader.ParseIpv4 | app/test-pmd/cmdline_flow.c:4489-4527 | an IPv4 address, or else a number, is stored; a refusal restores the stack |
| FlowInput.Reader.ParseString | app/test-pmd/cmdline_flow.c:4375-4440 | length, then data and its mask, then address and its mask are written, whether or not the fields overlap; a refusal puts all three arguments back in order |
| FlowInput.Reader.StringFields | app/test-pmd/cmdline_flow.c:4404-4433 | fields that do not overlap hold the padded bytes, their number and their address, their masks 0xff over the bytes, all ones, and the address of the mask |
| FlowInput.Reader.ReadValue | app/test-pmd/cmdline_flow.c:4294-4635 | the callback of a value takes a word exactly when it fits the arguments; their fields then hold what the word says |
| FlowInput.Reader.ParseAction | app/test-pmd/cmdline_flow.c:4190-4222 | the type of the action a word names is stored; a refusal restores the stack |
| FlowParser.CalledSync | app/test-pmd/cmdline_flow.c:3165-3170 | with the list of a prefix replaced or an RSS list repeated, the stacks are still in step once the token's own list and arguments are gone |
| FlowParser.FitsIsTakes | app/test-pmd/cmdline_flow.c:3044-3135 | in a state with room a pattern item or action is accepted exactly when it and its block fit between both ends, counted in bytes |
| FlowParser.VcMeans | app/test-pmd/cmdline_flow.c:3044-3135 | what taking validate, create, an attribute, pattern, actions, an item or an action does to the view, field by field and with the sizes of the structures as numbers |
| FlowParser.CommandMeans | app/test-pmd/cmdline_flow.c:4099-4133 | the same for the other commands and for another rule or group |
| FlowParser.ParamMeans | app/test-pmd/cmdline_flow.c:3145-3197 | is and spec, last, and mask choose the first, second and third block of an item, and which pointer of it that sets |
| FlowParser.NotNamed | app/test-pmd/cmdline_flow.c:2997-3000 | a token goes by its exact name: no other word is taken |
| FlowParser.OnlyOne | app/test-pmd/cmdline_flow.c:4822-4841 | at most one candidate of a list takes a word |
| FlowParser.Parser.ParseDefault | app/test-pmd/cmdline_flow.c:2991-3002 | a token is matched by its exact name and changes nothing |
| FlowParser.Parser.ParseInit | app/test-pmd/cmdline_flow.c:3005-3028 | clears the header, fills the rest with 0x22, and refuses a buffer that is too small |
| FlowParser.Parser.ParseVc | app/test-pmd/cmdline_flow.c:3031-3135 | accepts exactly when name, position and room allow; then the header, the object and the new item or action, of the type and size of the token, are as stated, its block is zeroed, and an attribute sets its own bit only |
| FlowParser.Parser.OpenItem | app/test-pmd/cmdline_flow.c:3085-3104 | a pattern item fails exactly when it and its block do not fit between both ends; otherwise the pattern is the old one and an item of the type of the token without pointers |
| FlowParser.Parser.OpenAction | app/test-pmd/cmdline_flow.c:3105-3131 | an action fails exactly when it and its configuration do not fit; otherwise the actions are the old ones and one of the type of the token, pointing to its configuration unless that is empty |
| FlowParser.Parser.ParseVcSpec | app/test-pmd/cmdline_flow.c:3138-3197 | points the object and the item at the chosen third, for is also the mask, and swaps in the prefix list |
| FlowParser.Parser.ParseVcConf | app/test-pmd/cmdline_flow.c:3200-3218 | points the object at the configuration of the newest action |
| FlowParser.Parser.ParseVcActionRss | app/test-pmd/cmdline_flow.c:3221-3273 | opens an RSS action whose configuration has the default types, key and queues |
| FlowParser.Parser.ParseRssFunc | app/test-pmd/cmdline_flow.c:3281-3312 | stores the hash function the token stands for |
| FlowParser.Parser.OrTypes | app/test-pmd/cmdline_flow.c:3353-3355 | the bits of a type are added to the types of the configuration |
| FlowParser.Parser.ParseRssType | app/test-pmd/cmdline_flow.c:3319-3356 | takes type names until end, keeping its list pending and adding their bits; the first word of a list clears the types; an unknown name leaves the stacks alone |
| FlowParser.Parser.ParseRssQueue | app/test-pmd/cmdline_flow.c:3363-3408 | takes up to 32 queue numbers until end, keeping its list pending; queue, count and address are stored and the earlier queues kept; a refusal leaves stacks and buffer alone |
| FlowParser.Parser.ParseCommand | app/test-pmd/cmdline_flow.c:4099-4133 | destroy, list, flush, query and isolate start their command; a rule or group is refused exactly when it does not fit |
| FlowParser.Parser.ParseValue | app/test-pmd/cmdline_flow.c:4294-4635 | a value token takes a word exactly when its callback accepts it, consumes the arguments of the list on top, and their fields hold the value; a refusal restores the stack |
| FlowParser.Parser.Callback | app/test-pmd/cmdline_flow.c:4828-4831 | a callback takes a word exactly when the pending view, the token and the word allow, with the effect stated for it; otherwise both stacks are as they were |
| FlowParser.Parser.TryCandidates | app/test-pmd/cmdline_flow.c:4822-4841 | a word is taken exactly when some candidate of the list on top takes it, and by that one; when none does, both stacks are as before |
| FlowParser.Parser.CmdFlowParse | app/test-pmd/cmdline_flow.c:4789-4863 | a word is taken exactly when some candidate of the list on top takes it: by name, for items and actions by position and room, for values by their arguments; the lists pending afterwards, the object, the new item or action with its type, and the bytes written are as stated; a refused word leaves both stacks unchanged |
| FlowParser.Parser.AcceptWord | app/test-pmd/cmdline_flow.c:4842-4863 | the list on top makes way for the lists of the token that took the word, and its arguments for those of the token |
| FlowParser.Parser.WordTaken | app/test-pmd/cmdline_flow.c:4789-4863 | the rest of a line is accepted exactly when it is from the state after the word just taken |
| FlowParser.Parser.Refused | app/test-pmd/cmdline_flow.c:4840-4841 | a line goes no further than a word that no candidate takes |
| FlowParser.Parser.FlowTok | app/test-pmd/cmdline_flow.c:4965-4992 | no further token exactly when nothing is pending, or the line is over and END is a candidate |
| FlowParser.Parser.MatchLine | app/test-pmd/cmdline_flow.c:4789-4992 | for any line: it is accepted exactly when its words spell a path through the table, each with room for what it stores; then no argument is left over, and a rule to create or validate has a pattern and actions ended by exactly one END in a sound buffer |
| FlowParser.Parser.WriteRssDefaults | app/test-pmd/cmdline_flow.c:3243-3262 | the default configuration, field by field, with queue i at place i and zeros behind the queues |
| FlowTable.TableIsWellFormed | app/test-pmd/cmdline_flow.c:1153-2846 | 81 tokens of the table, some of every kind, meet the requirements of the parser |
| FlowLine.ValidateLineIff | app/test-pmd/cmdline_flow.c:4789-4992 | with the table, the line flow validate {port} ingress pattern eth / end actions drop / end is accepted exactly when the port is a number and the buffer has at least 194 bytes, whatever it held |
| FlowLine.Next | app/test-pmd/cmdline_flow.c:4822-4863 | a line whose next word a candidate names goes on exactly when that candidate takes it |
| FlowLine.Rest | app/test-pmd/cmdline_flow.c:4789-4992 | from each word on, the line is accepted exactly when there is room for everything still to come |
| BitFill.ArgEntryBfFill | app/test-pmd/cmdline_flow.c:2866-2902 | returns the number of bits of the mask, with or without a destination, and deposits the value into exactly those bits |
| BitFill.PositionsAre | app/test-pmd/cmdline_flow.c:2885-2900 | the bits visited are exactly those of the mask |
| BitFill.DepositedUnique | app/test-pmd/cmdline_flow.c:2885-2900 | the deposit determines every byte |
| BitFields.GatherInvertsDeposit | app/test-pmd/cmdline_flow.c:2866-2902 | gathering the bits of the mask again gives the value modulo 2^len, in both byte orders |
| BitFields.FillsAreIndependent | app/test-pmd/cmdline_flow.c:2866-2902 | fills with disjoint masks do not disturb each other, in any order |
| BitFields.VlanTci | app/test-pmd/cmdline_flow.c:1594-1613 | filling PCP, DEI and VID in any order gives pcp*2^13 + dei*2^12 + vid |
| PrefixMask.ByteMask | app/test-pmd/cmdline_flow.c:2963-2984 | accepts exactly the lengths that fit the field, and sets exactly its top bits |
| PrefixMask.BitMask | app/test-pmd/cmdline_flow.c:2945-2962 | accepts exactly the lengths the mask has bits for, and deposits ones into its top bits |
| PrefixMask.OnesThenZeros | app/test-pmd/cmdline_flow.c:2951-2955 | the value with its top u bits set |
| PrefixMask.EffectiveIsExact | app/test-pmd/cmdline_flow.c:2963-2966 | the byte path takes the length as it is exactly when it is below 2^35 |
| PrefixMask.HugeLengthAccepted | app/test-pmd/cmdline_flow.c:2963-2966 | 2^35 is accepted as length 0 |
| PrefixMask.HoldsIsTopBits | app/test-pmd/cmdline_flow.c:2945-2984 | with a full mask a deposit of the mask value is the same as having the top bits set |
| PrefixMask.PathsCoincide | app/test-pmd/cmdline_flow.c:2923-2988 | both paths write the same bytes for a field with a full mask |
| PrefixMask.PrefixNumber | app/test-pmd/cmdline_flow.c:2969-2984 | the field, read in its byte order, is 2^(8s) - 2^(8s-u) |
| CryptoDevice.Mempool.GetBulk | app/test-crypto-perf/cperf_test_throughput.c:154-162 | takes n distinct free operations, or none |
| CryptoDevice.Mempool.PutBulk | app/test-crypto-perf/cperf_test_throughput.c:215-216 | returns operations none of which was free |
| CryptoDevice.Cryptodev.EnqueueBurst | app/test-crypto-perf/cperf_test_throughput.c:196-197 | takes any prefix of a burst of distinct, filled operations not in flight |
| CryptoDevice.Cryptodev.DequeueBurst | app/test-crypto-perf/cperf_test_throughput.c:210-211 | returns any operations in flight in any order |
| CryptoDevice.OfferLogged | app/test-crypto-perf/cperf_test_throughput.c:188-206 | one more offer of the calls made to the device: what it accepted, and that no offer exceeds the burst size or the rest of the operations |
| CryptoDevice.PollLogged | app/test-crypto-perf/cperf_test_throughput.c:208-222 | one more poll: what it returned, and that every poll asks for a whole burst |
| Throughput.JoinHeld | app/test-crypto-perf/cperf_test_throughput.c:151-182 | fresh operations join those held back without overlap |
| Throughput.AcceptPrefix | app/test-crypto-perf/cperf_test_throughput.c:196-206 | whatever prefix the device takes, the rest and the operations in flight still partition the set |
| Throughput.ReturnBurst | app/test-crypto-perf/cperf_test_throughput.c:210-218 | whatever the device returns, the pool, the array and the device still partition the set |
| Throughput.Runner.MoveOps | app/test-crypto-perf/cperf_test_throughput.c:176-182 | memmove() for a move to the front |
| Throughput.Runner.FillBurst | app/test-crypto-perf/cperf_test_throughput.c:151-182 | the burst then holds distinct, filled operations, and those held back close it |
| Throughput.Runner.Offer | app/test-crypto-perf/cperf_test_throughput.c:196-206 | a whole filled burst is offered; what is not accepted stays held |
| Throughput.Runner.Round | app/test-crypto-perf/cperf_test_throughput.c:143-228 | one round keeps the invariant; the counters account for the burst |
| Throughput.Runner.EnqueueAll | app/test-crypto-perf/cperf_test_throughput.c:143-228 | pool, held operations and device partition the set however the loop ends |
| Throughput.Runner.Drain | app/test-crypto-perf/cperf_test_throughput.c:232-246 | dequeued plus in flight stays the total, and at the end all were dequeued |
| Throughput.Runner.RunBurstSize | app/test-crypto-perf/cperf_test_throughput.c:133-246 | for every device: a completed pass has every operation back in the pool and enqueued = dequeued = total, in bursts of the size asked for; that size is then among the passes, and a run gives up only when its polls are used up |
| Throughput.OneMoreSize | app/test-crypto-perf/cperf_test_throughput.c:307-313 | one more burst size of the list or of the range |
| Throughput.NextSize | app/test-crypto-perf/cperf_test_throughput.c:307-309 | the sizes of a range follow each other modulo 2^16 |
| Throughput.Runner.Run | app/test-crypto-perf/cperf_test_throughput.c:124-317 | the burst sizes measured are those of the list, in order, up to the first above the maximum, or minimum + i * increment modulo 2^16 while it is not above it, each by one complete pass of its own by the account of the device; it stops early exactly when the pool refuses operations or the polls are used up, and nothing is lost or duplicated then |
| Latency.EnqueueKeeps | app/test-crypto-perf/cperf_test_latency.c:221-234 | the accepted prefix and the freed rest are disjoint and exhaust the burst |
| Latency.Returned | app/test-crypto-perf/cperf_test_latency.c:249-253 | what comes back may be freed once |
| Latency.AddDescribes | app/test-crypto-perf/cperf_test_latency.c:256-262 | one more sample keeps total, maximum and minimum those of the samples |
| Latency.SumBounds | app/test-crypto-perf/cperf_test_latency.c:303-305 | a total lies between count times minimum and count times maximum |
| Latency.MinAvgMax | app/test-crypto-perf/cperf_test_latency.c:291-305 | minimum <= mean <= maximum when the mean divides by the number of samples |
| Latency.MeanBetween | app/test-crypto-perf/cperf_test_latency.c:291-305 | smallest sample <= mean rounded down, and mean rounded up <= largest, when the mean divides by the number of samples |
| Latency.Runner.DequeueMeanExceedsMax | app/test-crypto-perf/cperf_test_latency.c:303-305 | in every state of a finished run of one burst whose operations came back in more than one poll, the dequeue mean exceeds the maximum |
| Latency.Runner.BookTwoPolls | app/test-crypto-perf/cperf_test_latency.c:236-265 | the runner reaches such a state: one burst of two operations that come back one by one |
| Latency.DequeueMeanOrderedIff | app/test-crypto-perf/cperf_test_latency.c:303-305 | for t operations back in n polls after b bursts, minimum <= t/b <= maximum however the polls share them out exactly when t/b lies between t/n rounded down and rounded up |
| Latency.Runner.AssignSlot | app/test-crypto-perf/cperf_test_latency.c:236-245 | an accepted operation gets the next slot and its start stamp; no other slot changes |
| Latency.Runner.AssignSlots | app/test-crypto-perf/cperf_test_latency.c:236-245 | every accepted operation gets its own slot |
| Latency.Runner.StoreTimestamp | app/test-crypto-perf/cperf_test_latency.c:113-121 | the end stamp goes to the slot of the operation and nowhere else |
| Latency.Runner.StampAll | app/test-crypto-perf/cperf_test_latency.c:249-250 | every returned operation is stamped once |
| Latency.Runner.BookPoll | app/test-crypto-perf/cperf_test_latency.c:248-265 | what a poll returned is stamped and freed once, and becomes one more sample if it is not empty |
| Latency.RoundBooked | app/test-crypto-perf/cperf_test_latency.c:215-265 | one round adds to the samples what the device accepted and returned, and to the slots the clock of the offer and of the poll |
| Latency.PollBooked | app/test-crypto-perf/cperf_test_latency.c:268-289 | so does one poll of the last loop |
| Latency.Runner.AllBack | app/test-crypto-perf/cperf_test_latency.c:268-289 | when everything came back, the samples of a run are what its calls to the device accepted and returned, and no operation is with the device |
| Latency.Runner.Round | app/test-crypto-perf/cperf_test_latency.c:181-265 | one round keeps slots, counters and ownership, and every sample within its bounds |
| Latency.Runner.Drain | app/test-crypto-perf/cperf_test_latency.c:268-289 | the rest is stamped and returned |
| Latency.Runner.Summarise | app/test-crypto-perf/cperf_test_latency.c:291-296 | total, maximum and minimum are those of the cycle counts of the slots |
| Latency.Runner.RunBurstSize | app/test-crypto-perf/cperf_test_latency.c:172-305 | for every device order: each slot below total gets one start and exactly one end stamp with end >= start, the clock at its offer and its poll; the samples of enqueue and dequeue bursts are what the calls to the device accepted and returned; the means of enqueue bursts and cycles lie between minimum and maximum, that of the dequeue bursts under the condition of DequeueMeanOrderedIff |
| Cyclecount.SameSetSameMultiset | app/test-crypto-perf/cperf_test_pmd_cyclecount.c:257-278 | bursts without repetition over the same set are permutations of each other |
| Cyclecount.Refill | app/test-crypto-perf/cperf_test_pmd_cyclecount.c:263-277 | the slots refilled so far and the operations in flight share what was sent |
| Cyclecount.FilledMore | app/test-crypto-perf/cperf_test_pmd_cyclecount.c:236-252 | one more burst sent: what the ring took, and a retry exactly when that was less than the burst |
| Cyclecount.DrainedMore | app/test-crypto-perf/cperf_test_pmd_cyclecount.c:266-276 | one more burst taken back, with its retries |
| Cyclecount.State.BuildOps | app/test-crypto-perf/cperf_test_pmd_cyclecount.c:190-224 | allocates distinct filled operations, burst by burst |
| Cyclecount.State.BenchEnq | app/test-crypto-perf/cperf_test_pmd_cyclecount.c:227-254 | the device holds exactly the first enqd operations of the array |
| Cyclecount.State.BenchDeq | app/test-crypto-perf/cperf_test_pmd_cyclecount.c:257-278 | dequeueing into the same array leaves it a permutation of what was sent |
| Cyclecount.State.Rearranged | app/test-crypto-perf/cperf_test_pmd_cyclecount.c:257-278 | the slots a pass used hold its operations in some order, the others what they held |
| Cyclecount.State.Pass | app/test-crypto-perf/cperf_test_pmd_cyclecount.c:327-370 | the bulk put returns exactly the allocated set; what was sent and taken back and the retries are those of the calls made to the device |
| Cyclecount.State.BenchBurstSize | app/test-crypto-perf/cperf_test_pmd_cyclecount.c:326-370 | over the run enqueued = dequeued = total and the pool is whole |
| SplitCopy.MbufCopySplit | app/test-pmd/csumonly.c:514-574 | on success the chain holds the bytes of the source, linked, each segment within its length; it runs out of segments exactly when they cannot be cut into runs, one for each segment of the source and at least as long; the other error says that the length of the packet is wrong |
| SplitCopy.ReachedNext | app/test-pmd/csumonly.c:535-566 | taking as much as fits at each step gets as far through the source as any way to cut the destination |
| SplitCopy.ReachedEnd | app/test-pmd/csumonly.c:535-570 | so the copy ends exactly when there is such a way |
| SplitCopy.FitsOne | app/test-pmd/csumonly.c:535-570 | a source in one segment fits exactly when the destination is long enough altogether |
| SplitCopy.FitsIsRoom | app/test-pmd/csumonly.c:535-570 | a source that fits is not longer than its destination |
| SplitCopy.SegmentsDoNotMix | app/test-pmd/csumonly.c:535-570 | segments for two bytes and one byte hold three bytes, but not one and then two |
| SplitCopy.PlanSegments | app/test-pmd/csumonly.c:598-613 | the shortest prefix of the configured lengths that covers the packet, the rest added to its last |
| SplitCopy.WrappedPlan | app/test-pmd/csumonly.c:606-611 | a packet of 2^16 bytes is planned into one segment of no bytes |
| SplitCopy.PlanCovers | app/test-pmd/csumonly.c:598-613 | the plan covers the packet exactly when its last length did not wrap at 2^16 |
| SplitCopy.AllUsed | app/test-pmd/csumonly.c:559-566 | a finished copy uses every segment of the plan |
| SplitCopy.AllocCompleteIff | app/test-pmd/csumonly.c:614-636 | allocation looks complete exactly when every segment came and all but the first had the tailroom |
| SplitCopy.AllocAll | app/test-pmd/csumonly.c:614-633 | allocates from the last segment to the first and stops where the original stops |
| SplitCopy.FreeAll | app/test-pmd/csumonly.c:649-652 | frees what was allocated |
| SplitCopy.CopyPlanned | app/test-pmd/csumonly.c:614-654 | for planned lengths: a null result leaves the pool as it was; otherwise exactly the planned segments were taken and hold the packet; which of the two, exactly |
| SplitCopy.PktCopySplit | app/test-pmd/csumonly.c:580-655 | plan, allocation and copy together: a copy is null and leaves the pool as it was, or takes exactly the planned segments, linked, with the bytes of the packet; they stay inside the segments exactly when the first one has room for its part; a packet is copied exactly when the planned segments are granted, all but the first with the tailroom, and can be cut into runs for those of the packet |
| SplitCopy.OverrunFirstSegment | app/test-pmd/csumonly.c:627-640 | two bytes are copied into a first segment with room for one |
| ScatterWrite.FindSegment | app/test-pmd/txonly.c:62-67 | finds the segment of an offset, or runs off the chain exactly when there is none |
| ScatterWrite.CopyBufToPktSegs | app/test-pmd/txonly.c:57-81 | stays in the chain exactly when the bytes fit; the flat packet is the old one with them in place |
| ScatterWrite.CopyBufToPkt | app/test-pmd/txonly.c:83-92 | the fast path agrees with the loop, with the exact condition for staying in the chain |
| ScatterWrite.CopyHeaders | app/test-pmd/txonly.c:234-242 | the three header copies equal one write of 42 bytes, whatever the segments |
| ScatterWrite.PatchSegment | app/test-pmd/txonly.c:70-79 | a write inside one segment is a write at its offset in the flat packet |
| ScatterWrite.PatchTwice | app/test-pmd/txonly.c:70-79 | two adjacent writes are one |
| ScatterWrite.SetTxPktSegments | app/test-pmd/config.c:2499-2538 | accepts exactly the lengths that fit descriptors and buffers and whose 16-bit total holds the headers |
| ScatterWrite.AcceptedHoldsHeaders | app/test-pmd/config.c:2517-2534 | accepted lengths hold the headers, also when the 16-bit total wrapped |
| ScatterWrite.RandomSplitIff | app/test-pmd/txonly.c:207-242 | cut to any number of segments, the headers fit exactly when they fit the first |
| ScatterWrite.RandomSplitTooShort | app/test-pmd/txonly.c:207-242 | segments of 10 and 32 bytes hold the headers, but not when cut to the first |
| Dissect.OffloadInfo.ParseIpv4 | app/test-pmd/csumonly.c:102-118 | lengths and protocol of an IPv4 header |
| Dissect.OffloadInfo.ParseIpv6 | app/test-pmd/csumonly.c:121-137 | lengths and protocol of an IPv6 header |
| Dissect.OffloadInfo.ParseEthernet | app/test-pmd/csumonly.c:144-175 | ethertype and lengths with an optional tag |
| Dissect.OffloadInfo.ParseVxlan | app/test-pmd/csumonly.c:178-204 | a VXLAN packet moves the headers found so far to the outer fields |
| Dissect.OffloadInfo.ParseVxlanGpe | app/test-pmd/csumonly.c:207-268 | the same by the next-protocol field |
| Dissect.OffloadInfo.ParseGre | app/test-pmd/csumonly.c:271-328 | the same behind a GRE header with its optional words, whose length is that of the fields present |
| Dissect.OffloadInfo.ParseEncapIp | app/test-pmd/csumonly.c:332-357 | IP in IP keeps the old outer protocol |
| Dissect.OffloadInfo.DissectPacket | app/test-pmd/csumonly.c:761-818 | the fields and header offsets of a packet, a function of its bytes and the fields left by the packet before |
| Dissect.IpFound | app/test-pmd/csumonly.c:102-137 | an IP header of any version and length is found as it was built |
| Dissect.EtherFound | app/test-pmd/csumonly.c:144-175 | so is a frame with one |
| Dissect.GreLength | app/test-pmd/csumonly.c:271-290 | a GRE header is four bytes and four for each of checksum, key and sequence number (section 2 of RFC 2890) |
| Dissect.GreFields | app/test-pmd/csumonly.c:271-290 | the flag word and the payload type of a GRE header are found as it was built |
| Dissect.TunnelFoundIff | app/test-pmd/csumonly.c:784-812 | when a packet is taken for a tunnel, whatever its bytes: by the UDP destination port or the flag of the device, the payload type of GRE, the version of an IP header in IP |
| Dissect.TunnelInverts | app/test-pmd/csumonly.c:102-357 | every tunnelled packet of the grammar is found as it was built, and outer_l2 + outer_l3 + l2 is the offset of the inner IP header |
| Dissect.PlainInverts | app/test-pmd/csumonly.c:667-683 | every packet without a tunnel is found as it was built, and so is every packet when tunnels are not looked for |
| Dissect.Ipv6InIpNotFound | app/test-pmd/csumonly.c:804-812 | protocol 41 is never taken for a tunnel |
| TunnelCksums.FixIpVerifiesIff | lib/librte_net/rte_ip.h:251-257 | an IPv4 header verifies after the rewriting exactly when its options add up to zero modulo 0xFFFF |
| TunnelCksums.FixL4VerifiesIff | lib/librte_net/rte_ip.h:312-345 | a segment verifies exactly when the length taken for it gives the same sum as its real one |
| TunnelCksums.SameSumWithoutOptions | lib/librte_net/rte_ip.h:312-345 | without options both lengths are the same |
| TunnelCksums.OptionsMislead | lib/librte_net/rte_ip.h:312-345 | with options, a segment followed by zeros never gets a valid checksum |
| TunnelCksums.OptionsPacket | lib/librte_net/rte_ip.h:312-345 | a packet with options for which neither checksum verifies |
| TunnelCksums.LayerVerifiesIff | app/test-pmd/csumonly.c:361-449 | one layer of any protocol: header and segment verify exactly under these conditions, a zero UDP checksum stays zero, nothing below changes |
| TunnelCksums.OnlyChecksums | app/test-pmd/csumonly.c:361-506 | the checksums of a layer are all that is written; the inner one of SCTP is cleared, the outer ones of TCP and SCTP stay |
| TunnelCksums.OuterBelow | app/test-pmd/csumonly.c:452-506 | the outer rewriting changes nothing from the inner header on |
| TunnelCksums.BothLayersVerify | app/test-pmd/csumonly.c:822-833 | after inner then outer both layers verify at once, each exactly under its condition |
| TunnelCksums.AllVerify | app/test-pmd/csumonly.c:822-833 | without IP options all four checksums verify |
| TunnelCksums.StaleWord | app/test-pmd/csumonly.c:472-503 | the outer rewriting changes one word behind the outer header, and keeps it exactly when what follows passes for a UDP datagram without a checksum or with the right one |
| TunnelCksums.StaleProtocol | app/test-pmd/csumonly.c:472-503 | with a stale outer protocol UDP and an inner header of either version: nothing from the inner header on changes exactly when it passes for a UDP datagram; a valid inner IPv4 header stays valid exactly then and its segment always; a valid inner IPv6 segment stays valid exactly when the next header is kept |
| TunnelCksums.StaleBothLayers | app/test-pmd/csumonly.c:822-833 | the same after both rewritings, and the outer header verifies as always |
| TunnelCksums.SpoiltHeader | app/test-pmd/csumonly.c:472-503 | a packet whose valid inner IPv4 header no longer verifies |
| TunnelCksums.FoldSum | lib/librte_net/rte_ip.h:334-341 | folding the sum of two folded sums folds the whole sum |
| TunnelCksums.PhdrCksum | lib/librte_net/rte_ip.h:278-308 | the folded sum of the pseudo-header |
| TunnelCksums.UdpTcpCksum | lib/librte_net/rte_ip.h:325-345 | the complement of the folded sum of pseudo-header and segment, never zero |
| TunnelCksums.ProcessInnerCksums | app/test-pmd/csumonly.c:361-449 | the packet becomes the inner rewriting of it; no byte but those of the checksums changes, and that of SCTP is cleared |
| TunnelCksums.ProcessOuterCksums | app/test-pmd/csumonly.c:452-506 | the packet becomes the outer rewriting of it; no byte but those of the IPv4 and UDP checksums changes |
| TunnelCksums.ProcessPacket | app/test-pmd/csumonly.c:820-833 | inner first, then outer |
| ChecksumForward.Forward | app/test-pmd/csumonly.c:761-833 | the packet becomes its rewriting at the headers the dissector found, for every packet and every state left by the packet before; no byte but those of the checksums of these headers changes |
| ChecksumForward.TunnelledPacketVerifiesIff | app/test-pmd/csumonly.c:667-833 | end to end: every tunnelled packet of the grammar, with any IP options and after any packet, has its headers found where they were built, and afterwards each header and checksum verifies exactly under its condition |
| ChecksumForward.TunnelledPacketVerifies | app/test-pmd/csumonly.c:667-833 | without IP options and stale UDP tunnel both IPv4 headers and every non-zero checksum verify at once |
| ChecksumForward.PlainPacketVerifiesIff | app/test-pmd/csumonly.c:667-833 | end to end for every packet without a tunnel |
| OnesComplement.TwoFoldsSuffice | lib/librte_net/rte_ip.h:143-149 | two folds reduce any 32-bit sum |
| OnesComplement.ComplementVerifies | lib/librte_net/rte_ip.h:251-257 | a buffer verifies when its checksum complements the fold of the rest |
| OnesComplement.SumConcat | lib/librte_net/rte_ip.h:105-131 | the sum of a concatenation after an even number of bytes |
| OnesComplement.SumPatch | lib/librte_net/rte_ip.h:105-131 | replacing a word changes the sum by the difference |
| OnesComplement.ByteOrderIndependence | lib/librte_net/rte_ip.h:105-131 | section 2 of RFC 1071: summing in host order gives the bytes of the network order sum |
| OnesComplement.VerifiesInNetworkOrder | lib/librte_net/rte_ip.h:105-131 | acceptance does not depend on the byte order |
| Checksums.IpSum | app/test-pmd/flowgen.c:89-106 | never overflows 32 bits, terminates, and is the complement of the one's complement sum of the even part |
| Checksums.IpSumMatchesRfcIff | app/test-pmd/flowgen.c:89-106 | it agrees with RFC 1071 exactly on even lengths and zero last bytes |
| Checksums.TxonlyCksum | app/test-pmd/txonly.c:126-147 | the complement of the folded sum without the checksum field, never zero |
| Checksums.TxonlyReduce | app/test-pmd/txonly.c:138-147 | one fold and a conditional subtraction are enough for nine words |
| Checksums.Ipv4HdrCksum | app/test-pmd/icmpecho.c:245-264 | the same value by two folds |
| Checksums.HeaderChecksumsAgree | app/test-pmd/icmpecho.c:245-264 | the three routines agree up to the two zeros, and any of them makes the header verify |
| Checksums.RawSum | lib/librte_net/rte_ip.h:105-131 | the sum of the words, an odd byte padded, without overflow |
| Checksums.RawCksum | lib/librte_net/rte_ip.h:162-170 | the folded sum |
| Checksums.RteIpv4Cksum | lib/librte_net/rte_ip.h:251-257 | the complement of the folded sum of 20 bytes, 0xFFFF for zero |
| IcmpEcho.UpdateAddsEight | app/test-pmd/icmpecho.c:479-484 | the update adds 8 to the checksum modulo 0xFFFF |
| IcmpEcho.IcmpSums | app/test-pmd/icmpecho.c:478-484 | how type and checksum change the sum of the message |
| IcmpEcho.NothingElseIff | app/test-pmd/icmpecho.c:478-484 | a sum is zero exactly for zero bytes |
| IcmpEcho.ReplyVerifies | app/test-pmd/icmpecho.c:478-484 | a valid request of any length gives a message whose sum is 0 modulo 0xFFFF, and verifies exactly when something else in it is not zero |
| IcmpEcho.MacroAgreesIff | app/test-pmd/icmpecho.c:266-267 | the macro agrees with class D exactly for addresses outside 225.0.0.0 to 239.255.255.255 |
| IcmpEcho.UnicastReplyIff | app/test-pmd/icmpecho.c:459-484 | a valid request from a unicast address is answered from a unicast address exactly when it was not sent to 225.0.0.0 to 239.255.255.255 |
| IcmpEcho.MacroMissesMulticast | app/test-pmd/icmpecho.c:459-484 | a valid request to 225.0.0.1 is answered from 225.0.0.1 |
| IcmpEcho.OtherSourceDiffers | app/test-pmd/icmpecho.c:466-471 | the new source differs from the requester in its last two bits only |
| IcmpEcho.SwapKeepsSum | app/test-pmd/icmpecho.c:475-476 | exchanging the addresses keeps the header sum |
| IcmpEcho.IpReplyVerifies | app/test-pmd/icmpecho.c:462-477 | the reply's header verifies and goes to the requester from another address |
| IcmpEcho.BuildEthReply | app/test-pmd/icmpecho.c:459-461 | the link addresses change places |
| IcmpEcho.BuildIpReply | app/test-pmd/icmpecho.c:462-477 | the header becomes the reply header; no other byte changes |
| IcmpEcho.Update | app/test-pmd/icmpecho.c:479-484 | the update as computed |
| IcmpEcho.BuildIcmpReply | app/test-pmd/icmpecho.c:478-484 | the message becomes the reply message |
| IcmpEcho.BuildEchoReply | app/test-pmd/icmpecho.c:459-484 | the whole packet becomes the reply: the link addresses change places, the reply goes to the requester from the address it asked, or from the address next to its own if that was 224/8; type and checksums are new, and no other byte changes |
| IcmpEcho.WholePacket | app/test-pmd/icmpecho.c:459-484 | what the replies of the three layers change in the packet, by offset |
| IcmpEcho.RepliesKeep | app/test-pmd/icmpecho.c:459-484 | what each of them leaves alone |
| IcmpEcho.IpReplyAnswers | app/test-pmd/icmpecho.c:462-477 | which address is the source and which the destination of the reply |
| IcmpEcho.ChosenSplits | app/test-pmd/icmpecho.c:430-435 | answered and freed packets together are the burst |
| IcmpEcho.Compact | app/test-pmd/icmpecho.c:485-486 | replies move to the front in order and every other packet is freed once |
| FwdConfig.OneOwner | app/test-pmd/config.c:1843-1881 | a stream has at most one owner |
| FwdConfig.OwnedIff | app/test-pmd/config.c:1843-1881 | a stream has an owner exactly when it is below the total |
| FwdConfig.SetupLcores | app/test-pmd/config.c:1843-1881 | consecutive ranges that differ in size by at most one, the longer ones last, and cover the streams, or give every core one when there are more cores |
| FwdConfig.TopologyPermutes | app/test-pmd/config.c:1883-1911 | every topology is a permutation of the ports |
| FwdConfig.TopologyMeans | app/test-pmd/config.c:1883-1911 | paired: ports 2k and 2k+1 feed each other, and the last of an odd number itself; chained: each port feeds the next and the last the first; loop: each feeds itself |
| FwdConfig.WiredOnce | app/test-pmd/config.c:1883-1911 | this determines where a stream sends |
| FwdConfig.RssWired | app/test-pmd/config.c:1979-1986 | every stream sends to the partner of the port it receives from |
| FwdConfig.RssExclusive | app/test-pmd/config.c:1972-1993 | no two streams share a receive or a transmit queue, for any topology |
| FwdConfig.EchoExclusive | app/test-pmd/config.c:2112-2135 | the same for the echo set-up |
| FwdConfig.RssCoversIff | app/test-pmd/config.c:1958-1963 | every receive queue is polled exactly when there are as many transmit queues and the number of streams did not wrap; no stream uses a port or queue that does not exist |
| FwdConfig.RssQueueMissed | app/test-pmd/config.c:1958-1960 | of three receive queues the third is not polled with two transmit queues |
| FwdConfig.NoWrap | app/test-pmd/config.c:1962-1963 | within the limits of ports and queues of the default build the number of streams does not wrap |
| FwdConfig.EchoCoversIff | app/test-pmd/config.c:2097-2098 | in the echo set-up every receive queue is polled exactly when the number of streams did not wrap |
| FwdConfig.SimpleCoversIff | app/test-pmd/config.c:1934-1944 | the simple set-up polls one receive queue of each port |
| FwdConfig.EchoTxQueuesExistIff | app/test-pmd/config.c:2121-2124 | the transmit queues used exist exactly when there are as many as receive queues with a stream |
| FwdConfig.EchoTxQueueMissing | app/test-pmd/config.c:2121-2124 | with two receive queues and one transmit queue the second stream sends to a queue that does not exist |
| FwdConfig.QueueExclusivity | app/test-pmd/config.c:1843-1994 | no queue is reached from two cores |
| FwdConfig.Config.SimpleSetup | app/test-pmd/config.c:1913-1944 | stream i receives from port i and sends to the partner of the topology; shared out evenly among as many cores as there are, at most one a stream, queues exclusive; all receive queues are polled exactly when there is one |
| FwdConfig.Config.RssSetup | app/test-pmd/config.c:1951-1994 | one stream per queue that has a partner, queue after queue and within it port after port, to the partner port of the topology; shared out evenly among as many cores as there are, at most one a stream, queues exclusive and existing; all receive queues are polled exactly under the condition of RssCoversIff |
| FwdConfig.Config.EchoSetup | app/test-pmd/config.c:2083-2137 | one stream per receive queue, port after port, which answers on the port and queue it receives from; shared out evenly among no more cores than transmit queues and streams, queues exclusive; when all are polled, and when all transmit queues exist |
| FwdConfig.Config.EchoLcore | app/test-pmd/config.c:2114-2135 | the streams of one core continue where the core before stopped |
| FlowRules.Port.Create | app/test-pmd/config.c:1168-1207 | a new rule with the next id goes in front of the others exactly when the device makes it, memory is there and ids are left; otherwise the list stays, and the device keeps the rule exactly when it made it and refused to destroy it |
| FlowRules.Port.TryDestroy | app/test-pmd/config.c:1226-1241 | the device is asked once for each time the id is listed, until it agrees; it loses the rule exactly then; every refusal is one of this rule |
| FlowRules.Port.Unlink | app/test-pmd/config.c:1242-1243 | removes one rule through the pointer to it and keeps the chain |
| FlowRules.Port.DestroyOne | app/test-pmd/config.c:1223-1249 | one step of the walk, whether or not the rule leaves |
| FlowRules.Port.Destroy | app/test-pmd/config.c:1210-1251 | removes exactly the requested rules whose destruction succeeded, keeps the order of the rest and the device in step; a requested rule stays only if the device refused, and the call fails exactly when it refused at all |
| FlowRules.Port.Flush | app/test-pmd/config.c:1254-1277 | empties the list unless the port is invalid; after a refused flush list and device agree exactly when the device is empty |
| FlowRules.KeepMembers | app/test-pmd/config.c:1223-1249 | what is left are the rules that were not removed |
| FlowRules.KeepAsSet | app/test-pmd/config.c:1223-1249 | removed and remaining rules together are the old ones |
| FlowRules.WithoutChained | app/test-pmd/config.c:1242-1243 | unlinking keeps the chain |
| FlowRuleListing.InsertAscending | app/test-pmd/config.c:1371-1384 | inserting before the first greater rule keeps the order |
| FlowRuleListing.InsertListed | app/test-pmd/config.c:1383-1384 | and the tmp chain |
| FlowRuleListing.FindPlace | app/test-pmd/config.c:1371-1382 | the place before the first rule that does not come first |
| FlowRuleListing.Insert | app/test-pmd/config.c:1371-1384 | adds one rule to an ascending chain |
| FlowRuleListing.GroupWanted | app/test-pmd/config.c:1363-1370 | a rule is wanted when its group is listed or no group is |
| FlowRuleListing.List | app/test-pmd/config.c:1344-1385 | the tmp chain holds exactly the wanted rules, each once, ascending by group, then priority, then id; the list proper is untouched |

## Left out

- Completion, help and printing of the flow command, and the mode of the parser without an output buffer that only they use.
- `strtoumax()`, `inet_pton()`, `cmdline_parse_etheraddr()` and the splitting of the line into words: what they find is input of the parser.
- FlowTable.TableIsWellFormed: `FlowTable` has 81 of the 227 tokens of the table; anything that meets `FlowTokens.WellFormed` will do. Tunnel encapsulation actions, which fill their configuration from global variables, are not modelled.
- The words of `struct buffer` that the parser maintains are fields beside the byte array; `FlowArena.WritableIsSafe` shows that no value reaches their bytes. `ctx->port`, used for completion and for the key length of a port, is not modelled: the key length is a parameter.
- FlowInput.Reader.ParseAction: the type is copied in the size of the argument, which is four bytes in the table; a larger argument would read beyond it.
- `rte_*` calls as code: mempool, device and rte_flow are classes with adversarial contracts; a clock that never goes back stands for the TSC.
- Polling loops that wait for the device have a budget of polls, after which the outcome says so: the original never gives up.
- The loop over burst sizes is modelled in `Throughput.Runner.Run`; that of the latency and cycle count runners is the same.
- Latency.Runner.RunBurstSize: the status word copied by store_timestamp() and the conversion to microseconds are left out, and 64-bit totals are unbounded.
- `pmd_cyclecount_bench_ops()` (allocate, build, free) and the linearisation of packets in the runners.
- `cperf_test_verify.c`, `fill_multi_seg_mbuf()`, `noisy_vnf.c`, the retry loops of the forwarders: easy counting, or counting that does not balance.
- SplitCopy.MbufCopySplit: the source chain is a sequence of byte sequences, so that source and copy cannot share memory; VLAN and offload fields are not copied.
- SplitCopy.PktCopySplit: with random splitting the number of lengths is chosen outside; when the first segment is overrun, what the bytes behind its buffer belong to is not modelled.
- ScatterWrite.CopyBufToPktSegs: a chain is an array of segments; stepping past the last one, a null pointer in the original, ends the walk with a failure.
- Hardware offload flags, TSO, GSO, GRO and SCTP CRC: checksums are rewritten in software; the SCTP checksum is cleared, as the original does.
- Dissect: headers are read from unbounded memory; the original reads whatever lies behind a truncated packet, too.
- TunnelCksums.ProcessPacket: where the headers are is input, computed by `Dissect`; what the length fields say has to lie in the buffer, which the original does not check.
- The burst loop of the echo responder beyond 255 packets, where its 8-bit index wraps; ARP replies; which packets are echo requests, a parameter of `IcmpEcho.Compact`.
- `dcb_fwd_config_setup()`, which follows opaque device information, and the softnic set-up.
- FwdConfig.Config.EchoSetup: a transmit queue is required unless there are no streams; without one the original divides by zero.
- Statistics, option parsing, the traffic manager and metering commands, Python tools, pdump and proc-info.
