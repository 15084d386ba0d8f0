# A verified model of MayCloud

Formal models, in Dafny, of the stateful parts of the MayCloud library, and proofs of what they promise. Each
imperative component appears twice: as functions on values that say what it does, and as a class or a method
with the loops and fields of the original, proved against those functions. The laws are proved about the
functions, for every input and every run.

- **Output buffers** (`Layouts`, `BlockPool`, `BlockImages`, `BufferSpec`, `OutputBuffers`, `NetDaemon`,
  `DaemonRuns`). Every descriptor queues its bytes in a linked chain of 4096-byte blocks borrowed from one free
  stack. A write may take any number of the bytes offered, or fail; its answers are given. `DaemonRuns.Serve`
  is the theorem about the objects: no byte is lost, repeated or reordered over any run on all descriptors, and
  no block leaks.
- **Template expressions** (`InjaSyntax`, `InjaParser`, `InjaParserProofs`, `InjaParserLimits`, `InjaCommas`,
  `InjaPrinter`, `InjaTable`, `InjaEval`, `InjaEvalProofs`, `InjaMachines`). The shunting yard emits the postfix
  order of the tree, and the stack machine computes its value or its error; which of two operators binds more is
  said operator by operator. JSON values and the operators on them are parameters.
- **Template blocks** (`InjaBlocks`, `InjaBlockProofs`, `InjaBlockLimits`, `InjaNesting`, `InjaBlockMachine`,
  `InjaRendering`). if, else if, else and for, printed, parsed and rendered; pointers to blocks and statements are
  indices into the parser's memory.
- **SNMP** (`Asn1`, `SnmpRequests`, `SnmpParser`, `SnmpPackets`, `SnmpBuilder`, `SnmpRoundTrip`, `SnmpLayout`). A
  GET request written with back-patched lengths is read back; writer and reader each against the bytes that the
  standards ask for (sections 8.1.3, 8.3, 8.7, 8.8 and 8.19 of X.690, section 3 of RFC 1901, section 3 of RFC 3416).
- **XML** (`XmlTrees`, `XmlSearch`, `XmlRemoval`, `XmlTags`, `XmlText`, `XmlWriter`, `XmlReader`, `XmlStanzas`,
  `XmlBuilder`). Path search with resume over tags that point to parent and children; the serialiser and the
  chunked writer, whose text a reader of its own takes apart again; cutting a stream into stanzas, each of which is
  a tree of tags in memory that can be searched, changed and serialised; what a lost connection does to the stanzas
  of the next.
- **Containers** (`Hasher`, `Chains`, `HashTable`, `Queue`). A chained hash table and a queue, each in a heap of
  fixed size, refine a bounded map and a bounded sequence.
- **Timers** (`TimerRuns`, `TimerPasses`, `Timers`), **registry** (`Registry`), **reconnecting agent** (`AgentRuns`, `Agent`).
  Whole-run invariants of the event loop's state machines.
- **Strings** (`Strings`, `Codecs`). explode, implode, strReplace, base64 and percent-decoding.

What the system answers is a parameter of each call or an arbitrary value: write(2), epoll_ctl(2), fcntl(2),
socket(2), connect(2), the resolver, the clock, and whether memory can be had. `size_t` is modelled as an
unbounded number except where it wraps (`Hashers.Feed`); `int` is bounded where the code can overflow it
(`Asn1.ReadItem`, `SnmpPackets.Writable`, `TimerRuns.Narrow`). What C++ leaves undefined is an explicit outcome.

## Where the code falls short of its documentation

The model follows the code, and each of these is a lemma or an if-and-only-if below.

- `cleanup` also forgets the quota of the descriptor (`NetDaemons.NetDaemon.Cleanup`); `reserve` answers -1
  always (`BlockPools.BlockPool.Reserve`).
- In a template, an operator word before an opening parenthesis is taken for a function, as in `a and (b)`
  (`InjaParserLimits.FailsExactly`); a comma does not end the argument before it, so that `f(g(x), y)` is read
  as `f(x, g(y))` (`InjaCommas.ParsesExactly`, `InjaCommas.NestedCallMoves`); `if` and `for` may end in the
  wrong order (`InjaBlockLimits.AcceptedExactly`, `InjaNesting.CrossingIsNoTemplate`).
- INTEGER contents of three bytes, or of more than four, leave the array of the reader; numbers of 2^31 or more
  overflow it; second arcs of 40 or more come back as different arcs (`SnmpRoundTrip.RoundTrip`,
  `SnmpParsers.ScanInt`). Lengths of 128 bytes or more are written into one byte
  (`SnmpRoundTrip.LongBindingIsNotRead`).
- The reset of the tag builder is meant to drop a half-built tag (`src/tagbuilder.cpp:41-47`) and keeps it: after a
  connection is lost inside a stanza, no stanza of the next one comes out (`XmlStanzas.NextConnection`).
- The time of a timer is cut to an int, so that a timer for a time of 2^31 or later can fire early
  (`TimerRuns.FiresEarly`); a callback that removes its own timer breaks the pass off (`Timers.BreaksExactly`).
- `setFd` and `setDaemon` go on when epoll does not let the object go (`Registries.AsyncObject.SetFd`).
- A DNS question that is refused stops an agent for good (`AgentRuns.LostForGood`); a second start from outside
  can report a connection twice (`AgentRuns.StartedTwice`).
- `pushFirst` on an empty queue, and `searchAndDel` of the last of several items, leave the pointer to the last
  item wrong (`Queues.Queue.PushFirst`, `Queues.Queue.SearchAndDel`); the next value pushed can be lost
  (`Queues.PushAfterTail`).

`dafny verify dfyconfig.toml` checks the project.

## Model

| member | source | states |
|---|---|---|
| BufferSpec.RunConserves | src/netdaemon.cpp:483-661 | Over any run of put, push, cleanup and setQuota on all descriptors, sent bytes followed by buffered bytes are exactly the bytes accepted since the last cleanup; free blocks plus needed blocks stay constant |
| BufferSpec.StepConserves | src/netdaemon.cpp:483-661 | One operation keeps every channel valid and neither makes nor loses a block |
| BufferSpec.StepHistory | src/netdaemon.cpp:483-661 | One operation neither loses, repeats nor reorders a byte of any descriptor |
| BufferSpec.StepChannel | src/netdaemon.cpp:483-661 | An operation changes its own descriptor only, and never needs more blocks than are free |
| BufferSpec.HeldShrinks | src/netdaemon.cpp:605-632 | A queue that has lost n bytes from the front gives back exactly the blocks those bytes filled |
| BufferSpec.HeldByUpdate | src/netdaemon.cpp:483-661 | The number of busy blocks changes by what one queue gains or loses |
| BufferSpec.StopsAtShortWrite | src/netdaemon.cpp:605-632 | push goes on until the first write that takes less than it was offered, and no further; the queue is empty if and only if the last write took all it was offered |
| BufferSpec.WillingSocketEmpties | src/netdaemon.cpp:605-632 | A socket that takes whole blocks empties the queue, with one call of write for each block |
| BufferSpec.RunSetsQuota | src/netdaemon.cpp:462-661 | After any run the quota of a descriptor is the argument of its last setQuota since its last cleanup, 0 if there was none since then, and what it was before if there was neither |
| BufferSpec.PutAnswers | src/netdaemon.cpp:485-537 | After any run, put of data that is not empty answers true if and only if the quota that its history left is 0 or not passed, and the blocks that the bytes would begin are free |
| BufferSpec.PutAfterCleanup | src/netdaemon.cpp:485-661 | After a run that ends with a cleanup of the descriptor, put answers true if and only if the free blocks hold the data: no quota is left |
| BufferSpec.QuotaMovesNothing | src/netdaemon.cpp:462-470 | setQuota answers whether the descriptor is one; it moves no byte and no block, and no other quota |
| DaemonRuns.Serve | src/netdaemon.cpp:483-661 | Any sequence of requests on the daemon object, whatever its sockets answer: the run, the calls of write and what every socket received are those that the answers decide; sent and buffered bytes are the accepted ones, and the busy blocks are those the queues need |
| DaemonRuns.ServeOne | src/netdaemon.cpp:483-661 | One request on the daemon object is the operation that the answers decide, and only the socket of its descriptor receives bytes |
| NetDaemons.NetDaemon.Put | src/netdaemon.cpp:568-583 | put is all or nothing: the answer and the new state of all descriptors are those of the admission rule, errors for bad descriptors and empty data included |
| NetDaemons.NetDaemon.Push | src/netdaemon.cpp:591-639 | push sends what the answers of write allow, a prefix of the queue in order, keeps the rest and the quota, answers true if and only if all was sent, and leaves other descriptors alone |
| NetDaemons.NetDaemon.Cleanup | src/netdaemon.cpp:646-661 | cleanup leaves an empty queue and quota 0 on one descriptor, gives all its blocks back, and leaves every other descriptor as it was; a bad descriptor changes nothing |
| NetDaemons.NetDaemon.SetQuota | src/netdaemon.cpp:462-470 | setQuota changes one quota to its argument, and neither a byte nor a block, or refuses a bad descriptor |
| NetDaemons.NetDaemon.GetBufferedSize | src/netdaemon.cpp:441-444 | The length of the queue, 0 for a bad descriptor |
| NetDaemons.NetDaemon.BusyBlocks | src/netdaemon.cpp:483-661 | In every valid state the blocks that are not free number the sum over descriptors of ceil((offset + size) / 4096) |
| NetDaemons.NetDaemon.Ownership | src/netdaemon.cpp:483-661 | The blocks of one chain and of the free stack belong to no other chain |
| NetDaemons.NetDaemon.OthersMeet | src/netdaemon.cpp:483-661 | Descriptors whose record, blocks and bytes nobody touched keep their meaning |
| NetDaemons.NetDaemon.PutAt | src/netdaemon.cpp:483-558 | put on one descriptor of the table: only its own chain grows, by blocks off the free stack |
| NetDaemons.NetDaemon.PushAt | src/netdaemon.cpp:591-639 | push on one descriptor of the table: what is written is what the answers allow; its chain and the free stack exchange blocks, nothing else moves |
| NetDaemons.NetDaemon.CleanupAt | src/netdaemon.cpp:646-661 | cleanup on one descriptor of the table: its whole chain lands on the free stack |
| NetDaemons.NetDaemon.constructor | src/netdaemon.cpp:22-44 | A new daemon has empty queues and the whole pool free |
| NetDaemons.AdmitsIs | src/netdaemon.cpp:485-537 | The test in the code, in terms of the room in the last block, is the admission rule in blocks |
| OutputBuffers.PutData | src/netdaemon.cpp:483-558 | One descriptor: accepted exactly when the quota and the free blocks allow it; then the queue is longer by the data, otherwise nothing has changed |
| OutputBuffers.PutFirst | src/netdaemon.cpp:516-558 | put on an empty queue |
| OutputBuffers.PutMore | src/netdaemon.cpp:492-558 | put behind queued data: first the room in the last block, then new blocks |
| OutputBuffers.PutBorrowing | src/netdaemon.cpp:516-558 | put that needs new blocks: all of them or none |
| OutputBuffers.Growth | src/netdaemon.cpp:492-516 | How many new blocks len more bytes need, from the room in the last block |
| OutputBuffers.TailOffset | src/netdaemon.cpp:494-500 | (offset + size) mod 4096 is where the last block has room, also when it is full |
| OutputBuffers.Extend | src/netdaemon.cpp:539-556 | Linking new blocks behind the last one extends the chain |
| OutputBuffers.FillBlocks | src/netdaemon.cpp:539-556 | The copy loop cuts the data into whole blocks and a rest |
| OutputBuffers.PushData | src/netdaemon.cpp:591-639 | The loop of push as a whole: the queue is split at what the answers of write allow, emptied blocks return to the pool |
| OutputBuffers.SendAll | src/netdaemon.cpp:605-632 | The loop writes on until the queue is empty or a write takes less than it was offered, and splits the queue there |
| OutputBuffers.SendSome | src/netdaemon.cpp:605-632 | One write: offset, size and first block move by what was taken, and the block is set aside exactly when it is used up |
| OutputBuffers.SetAside | src/netdaemon.cpp:620-630 | An emptied block moves from the chain to the list of blocks to return |
| OutputBuffers.SplitNext | src/netdaemon.cpp:605-632 | The split of the queue moves by what one write took, across a block boundary or not |
| OutputBuffers.AfterWrite | src/netdaemon.cpp:605-632 | The offset modulo the block size after one more write |
| BlockPools.BlockPool.Reserve | src/blockpool.cpp:42-74 | Adds the blocks to the free stack when the allocation succeeds, nothing otherwise; returns -1 either way |
| BlockPools.BlockPool.AllocBySize | src/blockpool.cpp:113-121 | Takes ceil(size / 4096) blocks off the stack, or none |
| BlockPools.BlockPool.AllocByBlocks | src/blockpool.cpp:126-148 | Takes exactly count linked blocks off the top of the stack, or none; free_count follows |
| BlockPools.BlockPool.Free | src/blockpool.cpp:154-165 | Puts a whole chain back on the stack; free_count grows by its length |
| BlockPools.LinkedDistinct | src/blockpool.cpp:126-165 | A list that ends visits no block twice |
| Layouts.PartitionFacts | src/blockpool.cpp:42-165 | What the partition of the blocks means: no list is cyclic, no two lists share a block, together they are all blocks |
| Layouts.PartitionMove | src/blockpool.cpp:126-165 | Moving blocks between the stack and one chain keeps the partition |
| BlockImages.StoresConcat | src/netdaemon.cpp:539-556 | Blocks that store the data one after the other hold exactly the data |
| BlockImages.WindowTail | src/netdaemon.cpp:605-632 | Dropping the first block moves the window of queued bytes |
| InjaParserProofs.ParserIsPostfix | src/headers/maycloud/inja.hpp:2774-3003 | An expression tree of unary and binary operators, calls, names and literals, parenthesised as the table asks, whose arguments stand apart and whose word operators are not followed by a parenthesis, is parsed to exactly its postfix order, with all stacks empty again |
| InjaParserProofs.ParseExpr | src/headers/maycloud/inja.hpp:2774-3003 | The same from any state of the stacks: the tree is emitted or pending, nothing below is touched |
| InjaParserProofs.OperatorPops | src/headers/maycloud/inja.hpp:2927-2934 | A new operator pops exactly the pending operators that bind its left operand |
| InjaParserProofs.LeftPops | src/headers/maycloud/inja.hpp:2929 | Which pending operators of a finished operand the next operator pops |
| InjaParserProofs.ParseArgs | src/headers/maycloud/inja.hpp:2937-2945 | Arguments one after the other raise the count of the call by one each; what waits of one is popped by the not that begins the next |
| InjaParserProofs.CloseCall | src/headers/maycloud/inja.hpp:2965-2989 | The closing parenthesis of a call finds its function by name and number of arguments |
| InjaCommas.ParsesExactly | src/headers/maycloud/inja.hpp:2774-3003 | Given operator words that name no function, a tree that is parenthesised as the table asks is parsed as its postfix order if and only if no word operator is followed by a parenthesis and every argument but the last is closed or is followed by one that begins with not and pops all of it; later arguments do not begin with a call without arguments |
| InjaCommas.CommaReading | src/headers/maycloud/inja.hpp:2937-2989 | How f(a, c) is read, for closed c: all that waits of a comes out after c |
| InjaCommas.NestedCallMoves | src/headers/maycloud/inja.hpp:2937-2989 | f(g(x, ...), c) is read as f(x, g(..., c)), for any number of arguments of g but none |
| InjaCommas.EmptyCallMoves | src/headers/maycloud/inja.hpp:2937-2989 | f(h(), c) is read as f(c, h()) |
| InjaCommas.SameCallsAgree | src/headers/maycloud/inja.hpp:2937-2989 | f(h(), (h())) comes out right although its arguments are not apart: why calls without arguments are set aside |
| InjaParserLimits.FailsExactly | src/headers/maycloud/inja.hpp:2828-2850 | Given operator words that name no function, parsing a tree that is parenthesised as the table asks ends in an error if and only if a word operator is followed by a parenthesis |
| InjaParserLimits.ReadSteady | src/headers/maycloud/inja.hpp:2774-3003 | Reading any expression ends in that error or goes through, and changes nothing below the nearest left parenthesis |
| InjaParserLimits.WordFails | src/headers/maycloud/inja.hpp:2834-2846 | A word operator before a parenthesis is taken for a function, which is unknown |
| InjaCommas.CommaDoesNotPop | src/headers/maycloud/inja.hpp:2937-2945 | f(a op b, c) is read as f(a, b op c), for every operator, closed b and c, and any a |
| InjaPrinter.PrintSound | src/headers/maycloud/inja.hpp:2435-2509 | Printing with the parentheses that precedence and associativity require gives a sound text |
| InjaPrinter.PrintedIsRead | src/headers/maycloud/inja.hpp:2435-2509 | A tree printed with those parentheses is parsed as its own postfix order if and only if no printed parenthesis follows a word operator; otherwise parsing ends in an error |
| InjaPrinter.OrThenAnd | src/headers/maycloud/inja.hpp:2442-2447 | and and or share one precedence level: a or b and c is read as (a or b) and c |
| InjaPrinter.AndOfOr | src/headers/maycloud/inja.hpp:2834-2846 | a and (b or c) cannot be written: its parentheses follow a word operator, which is an error |
| InjaTable.TwoOperators | src/headers/maycloud/inja.hpp:2435-2509 | For every two binary operators and all closed operands: a op1 b op2 c is read as (a op1 b) op2 c or as a op1 (b op2 c), decided by sets: and, or; then in and the comparisons; then + and -; then *, / and %; then ^, which alone groups to the right |
| InjaTable.NotFirstOperand | src/headers/maycloud/inja.hpp:2435-2509 | not a op b is read as (not a) op b for every operator but ^, where it is not (a ^ b) |
| InjaTable.NotSecondOperand | src/headers/maycloud/inja.hpp:2435-2509 | a op not b is read as a op (not b) for logic, comparisons, + and -; for *, /, % and ^ the operator is put out before its second operand |
| InjaTable.CallResolves | src/headers/maycloud/inja.hpp:2965-2983 | A call is bound to the function with its number of arguments, else to the one for any number if there is an argument, and else it is an error |
| InjaTable.StrayTokens | src/headers/maycloud/inja.hpp:2937-2952 | Behind a whole expression a comma outside of a call and a colon are errors, and a parenthesis that closes nothing is undefined |
| InjaEvalProofs.ExecPostfix | src/headers/maycloud/inja.hpp:3326-3453 | From any state of the evaluation stack the postfix list of a tree adds exactly its value, or stops with its error; it never underflows |
| InjaEvalProofs.PopPushed | src/headers/maycloud/inja.hpp:3361-3397 | Popping operands gives them in order, or names the last one that was not found, and matches names with operands |
| InjaEvalProofs.ParseThenRun | src/headers/maycloud/inja.hpp:2774-3381 | Parsing and running gives the direct meaning of the tree and leaves the stacks as they were |
| InjaEvalProofs.FunctionIsApplied | src/headers/maycloud/inja.hpp:3587-3591 | default needs its second operand only; other functions need all of theirs |
| InjaEvalProofs.OperatorMeans | src/headers/maycloud/inja.hpp:3361-3397 | An operator is given the values of its operands, the left one first; of two that were not found the right one is named |
| InjaEvalProofs.CallMeans | src/headers/maycloud/inja.hpp:3361-3397 | A function is given the values of its arguments, in order |
| InjaMachines.ExpressionParser.ParseExpression | src/headers/maycloud/inja.hpp:2774-3003 | The token loop and the final loop of the parser object compute the parser function |
| InjaMachines.ExpressionParser.ReadToken | src/headers/maycloud/inja.hpp:2775-2992 | One token changes the fields as the specification says, with the same errors |
| InjaMachines.ExpressionParser.PushOperator | src/headers/maycloud/inja.hpp:2927-2934 | The popping loop for one operator |
| InjaMachines.ExpressionParser.CloseParen | src/headers/maycloud/inja.hpp:2965-2989 | The popping loop for a closing parenthesis, and the resolution of a call |
| InjaMachines.ParseWritten | src/headers/maycloud/inja.hpp:2774-3003 | The parser object on what an author wrote: an error, and the postfix order, in exactly those cases |
| InjaMachines.Renderer.GetArguments | src/headers/maycloud/inja.hpp:3361-3397 | The loop that fills the operands from the back |
| InjaMachines.Renderer.Visit | src/headers/maycloud/inja.hpp:3414-3591 | One node of the list changes the stacks of the renderer object as the specification says |
| InjaMachines.Renderer.EvalExpressionList | src/headers/maycloud/inja.hpp:3326-3353 | The loop over the list and the checks at its end |
| InjaMachines.Render | src/headers/maycloud/inja.hpp:2774-3381 | Parser object and renderer object together give the meaning of the tree |
| InjaBlockProofs.TemplateRoundTrip | src/headers/maycloud/inja.hpp:3005-3168 | Every template of text, for blocks and if / else if / else chains, printed and parsed, is in the root block again, with both stacks empty |
| InjaBlockProofs.ItemsRun | src/headers/maycloud/inja.hpp:3005-3168 | Parsing the tags of some items, from any state, appends them to the current block and changes nothing else |
| InjaBlockProofs.IfRun | src/headers/maycloud/inja.hpp:3010-3066 | An if with its whole chain |
| InjaBlockProofs.ElseIfRun | src/headers/maycloud/inja.hpp:3024-3048 | else if: a nested if in the else part of the one before |
| InjaBlockProofs.ForRun | src/headers/maycloud/inja.hpp:3066-3122 | A for block |
| InjaBlockProofs.ChainPops | src/headers/maycloud/inja.hpp:3050-3065 | endif pops all nested ifs of the chain and no more |
| InjaBlockLimits.OneTemplate | src/headers/maycloud/inja.hpp:3005-3168 | What is in the parser's memory stands for one template only |
| InjaBlockLimits.AcceptedExactly | src/headers/maycloud/inja.hpp:3005-3168 | A list of tags is accepted if and only if the ifs balance and the fors balance, each kind by itself |
| InjaBlockLimits.CrossingIsAccepted | src/headers/maycloud/inja.hpp:3050-3063 | So an if that ends inside a for is accepted, and text after the last tag becomes part of the if |
| InjaNesting.TemplateExactly | src/headers/maycloud/inja.hpp:3005-3168 | A list of tags is the text of a template if and only if it nests on one stack of ifs and fors together |
| InjaNesting.NestedIsAccepted | src/headers/maycloud/inja.hpp:3005-3168 | A list of tags that nests is accepted as the template it is |
| InjaNesting.CrossingIsNoTemplate | src/headers/maycloud/inja.hpp:3050-3063 | The parser, with its two stacks, accepts more |
| InjaBlockMachines.BlockParser.ParseInto | src/headers/maycloud/inja.hpp:3154-3168 | The loop over the tags and the checks at the end of the file |
| InjaBlockMachines.BlockParser.EndIf | src/headers/maycloud/inja.hpp:3050-3065 | The loop that pops nested ifs |
| InjaBlockMachines.BlockParser.ParseStatement | src/headers/maycloud/inja.hpp:3005-3153 | One tag changes the fields as the specification says, with the same errors |
| InjaBlockMachines.ParsePrinted | src/headers/maycloud/inja.hpp:3005-3168 | A printed template, parsed by a new parser object, is in its root block |
| InjaRendering.ParsedIsMeant | src/headers/maycloud/inja.hpp:3005-3168 | Every template, printed, parsed, and rendered from the root block, gives what it means: texts and values in order, of every if one branch, and every loop body once for each element, up to the first exception |
| InjaRendering.ShowsRenders | src/headers/maycloud/inja.hpp:3402-3822 | Rendering any block that stands for some items gives what these items mean, from any output and loop data |
| InjaRendering.AcceptedIsSane | src/headers/maycloud/inja.hpp:3005-3168 | Whatever tags are accepted, crossing or not, no block contains itself, so that rendering ends |
| InjaRendering.TemplateRenderer.VisitBlock | src/headers/maycloud/inja.hpp:3402-3410 | The loop over the nodes of a block: output, loop data and exception as the rendering of the block says |
| InjaRendering.TemplateRenderer.VisitStatement | src/headers/maycloud/inja.hpp:3751-3822 | One if or for: the branch that the condition chooses, or the loop |
| InjaRendering.TemplateRenderer.VisitRounds | src/headers/maycloud/inja.hpp:3762-3772 | The loop over the elements, each with its index and their number |
| InjaRendering.RenderPrinted | src/headers/maycloud/inja.hpp:3839-3852 | Parser object and renderer object together write what the template means |
| SnmpRoundTrip.RoundTrip | src/snmpbuilder.cpp:14-156 | Build then parse is the identity if and only if every variable is shorter than 128 bytes and no OID has a negative number or a second arc of 40 or more, on packets whose outer lengths fit two bytes and whose OIDs are not ambiguous |
| SnmpRoundTrip.PacketIsRead | src/snmpparser.cpp:24-95 | What is read from every such packet of short variables: version, community, request id modulo 2^32, and each OID as its numbers allow, in order |
| SnmpRoundTrip.Exchange | src/snmpbuilder.cpp:14-156 | The builder object and the parser object together: reset to commit, then parse; the identity in exactly those cases |
| SnmpRoundTrip.Build | src/snmpbuilder.cpp:14-156 | reset, setCommand, setRequestID, a run of addNull and commit leave exactly the packet in the buffer |
| SnmpRoundTrip.HeardExactly | src/asn1reader.cpp:198-208 | An OID is recovered if and only if its second arc is below 40 and nothing is negative |
| SnmpRoundTrip.HeardAllExactly | src/snmpparser.cpp:56-74 | All OIDs are recovered if and only if each one is |
| SnmpRoundTrip.BindingsAreRead | src/snmpparser.cpp:56-74 | The variables are handed to onGetValue one by one, in order, up to the first that cannot be read |
| SnmpRoundTrip.ItemIsRead | src/asn1reader.cpp:198-208 | A base-128 number is read back exactly below 2^31; above, the reader overflows an int |
| SnmpRoundTrip.OidIsRead | src/asn1reader.cpp:189-228 | A whole OID, by its contents |
| SnmpRoundTrip.LongBindingIsNotRead | src/snmpbuilder.cpp:124-135 | A variable of 128 bytes or more gets a truncated length and is never read as itself; up to 255 bytes it is refused |
| SnmpRoundTrip.LongIsNotHeard | src/snmpparser.cpp:56-74 | Whatever comes after it, a variable that is too long is not among what onGetValue is called with |
| SnmpRoundTrip.IdIsSigned | src/asn1reader.cpp:70-103 | Four id bytes read as an int are the id modulo 2^32 |
| SnmpRoundTrip.LongHeaderIsRead | src/snmpbuilder.cpp:137-156 | Back-patched two-byte lengths are read back |
| SnmpLayouts.MessageIsRead | src/snmpparser.cpp:24-465 | Whoever wrote it, in whatever forms its lengths and numbers are: a message laid out by X.690 with the tags 0x30, 0x02, 0x04, 0x05, 0x06 and 0xA0 is accepted, and version, community, request id, error status, error index and OIDs are reported as it says; with another version, a longer community or another command, nothing behind that is |
| SnmpLayouts.VariableIsRead | src/snmpparser.cpp:24-51 | A variable laid out so is handed over as the OID it asks for |
| SnmpLayouts.CutIsRejected | src/asn1reader.cpp:16-44 | Of a message that is cut off anywhere nothing is reported |
| SnmpLayouts.OtherTagsAreRefused | src/asn1reader.cpp:70-228 | Each reader refuses every tag but its own: 0x02, 0x04, 0x05 and 0x06 |
| SnmpLayouts.BuildsLayout | src/snmpbuilder.cpp:14-156 | From reset to commit the builder leaves exactly that layout of the request in its buffer, in as many bytes as the groups of its numbers take, none of which could be left out |
| SnmpLayouts.HearsLayout | src/snmpparser.cpp:24-465 | The fields and calls of the parser object after any message laid out so |
| SnmpLayouts.ItemIsArc | src/snmpbuilder.cpp:86-109 | The bytes that are written for a number are its groups in base 128, the shortest |
| SnmpBuilders.SnmpBuilder.Reset | src/snmpbuilder.cpp:14-64 | Refuses a community of 128 bytes or more; otherwise the buffer holds an empty request with that community |
| SnmpBuilders.SnmpBuilder.SetCommand | src/snmpbuilder.cpp:69-72 | Changes the command byte of the packet and nothing else |
| SnmpBuilders.SnmpBuilder.SetRequestId | src/snmpbuilder.cpp:77-84 | Changes the four id bytes and nothing else |
| SnmpBuilders.SnmpBuilder.AddNull | src/snmpbuilder.cpp:124-135 | Appends one variable and changes nothing before it: the bytes 0x30 and 0x06 with their lengths modulo 256, the contents of the OID, and 0x05 0x00 |
| SnmpBuilders.SnmpBuilder.Commit | src/snmpbuilder.cpp:146-156 | Writes the three lengths into their places and changes nothing else |
| SnmpBuilders.SaveOid | src/snmpbuilder.cpp:111-119 | Appends tag, length byte and contents of an OID |
| SnmpBuilders.SaveOidItem | src/snmpbuilder.cpp:86-109 | Appends the base-128 groups of a number, most significant first |
| SnmpBuilders.CollectGroups | src/snmpbuilder.cpp:94-102 | The local buffer of eight bytes never holds more than five groups |
| SnmpBuilders.EmitGroups | src/snmpbuilder.cpp:104-107 | The groups are written in the reverse of the order they were collected in |
| SnmpParsers.SnmpParser.ParsePacket | src/snmpparser.cpp:432-465 | The fields of the parser and its calls of onGetValue after any packet |
| SnmpParsers.SnmpParser.ParseGetRequest | src/snmpparser.cpp:79-95 | Request id, error status, error index and bindings, in order, up to the first fault |
| SnmpParsers.SnmpParser.ParseGetBindings | src/snmpparser.cpp:56-74 | The loop over the variables |
| SnmpParsers.SnmpParser.ParseGetValue | src/snmpparser.cpp:24-51 | One variable: handed over if it is an OID and a NULL |
| SnmpParsers.ScanHeader | src/asn1reader.cpp:16-44 | Short and long lengths, refused when they pass the limit |
| SnmpParsers.ScanInt | src/asn1reader.cpp:70-103 | The value filled from its end and read as a little-endian char, short or int is the two's complement value; three bytes, or more than four, are undefined |
| SnmpParsers.SignedBackwards | src/asn1reader.cpp:79-98 | Bytes reversed and read as a little-endian word are the big-endian number |
| SnmpParsers.ScanString | src/asn1reader.cpp:153-170 | At most 255 bytes are copied, and terminated |
| SnmpParsers.ScanOid | src/asn1reader.cpp:189-228 | The item loop, whose groups run to the outer limit and not to the end of the OID |
| SnmpParsers.ScanItem | src/asn1reader.cpp:198-205 | The group loop |
| XmlTags.Enumerate | src/xml_tag.cpp:307-387 | find, then findNext from each result until there is none, visits exactly the matches, in document order, and ends |
| XmlSearch.FindIsFirst | src/xml_tag.cpp:307-322 | find gives the first match, or none |
| XmlSearch.FindNextIsNext | src/xml_tag.cpp:337-362 | From a match, findNext gives the match that follows it, or none after the last |
| XmlSearch.MatchesExactly | src/xml_tag.cpp:307-322 | The matches are exactly the tags reached by children with the names of the path |
| XmlSearch.MatchesOnce | src/xml_tag.cpp:307-322 | No tag is among the matches twice |
| XmlSearch.LineInIsLine | src/xml_tag.cpp:378-387 | The walk to the root from a tag meets exactly the elements that contain it |
| XmlTags.Tag.Find | src/xml_tag.cpp:307-322 | The recursive search over real tags computes the search function |
| XmlTags.Tag.FindNext | src/xml_tag.cpp:337-362 | The resumed search over real tags computes the search function |
| XmlTags.SegmentsAreNames | src/xml_tag.cpp:307-322 | A path is the names that were put together with slashes |
| XmlTags.Tag.HasChild | src/xml_tag.cpp:378-387 | True exactly for the proper descendants, by the parent pointers; a tag does not contain itself |
| XmlTags.Tag.NextChild | src/xml_tag.cpp:255-269 | The next child with the name behind a given child, or none |
| XmlTags.Tag.FirstChild | src/xml_tag.cpp:235-242 | The first child with the name, or none |
| XmlTags.NotOwnAncestor | src/xml_tag.cpp:378-387 | No tag with finitely many ancestors is its own ancestor |
| XmlTags.ToString | src/xml_tag.cpp:168-200 | The recursive serialiser over real tags computes the text of the tree |
| XmlTags.Tag.InsertChildElement | src/xml_tag.cpp:93-98 | Appends to both child lists and sets the parent |
| XmlTags.Tag.RemoveChild | src/xml_tag.cpp:392-403 | The first child of the name leaves both child lists, or nothing changes; what is left is a well-formed tree |
| XmlTags.Tag.Clear | src/xml_tag.cpp:415-425 | Nothing is left below the tag |
| XmlRemoval.RemovedIsFirst | src/xml_tag.cpp:392-403 | The child that removeChild takes out is the one that firstChild finds, and the others keep their order |
| XmlRemoval.WithoutLoses | src/xml_tag.cpp:392-403 | The tags that are deleted are exactly those the tree no longer has |
| XmlRemoval.InsertThenRemove | src/xml_tag.cpp:392-403 | removeChild undoes insertChildElement if and only if there was no child of that name before |
| XmlRemoval.MatchesAfterRemoval | src/xml_tag.cpp:307-403 | After removeChild every path finds what it found before, in the same order, less what lay on that path through the removed child |
| XmlTags.OwnRegion | src/xml_tag.cpp:93-98 | What a tree stands for depends on its own tags only |
| XmlText.UnescapeEscape | src/xmlwriter.cpp:79-94 | Escaping loses nothing: reading the entities back gives the text |
| XmlText.EscapeEach | src/xmlwriter.cpp:79-94 | Each character is escaped by itself: <, >, & and " to their entities (section 4.6 of XML 1.0), all others to themselves |
| XmlText.EscapeHidesMarkup | src/xmlwriter.cpp:79-94 | No <, > or " survives escaping |
| XmlText.AssignSorted | src/xmlwriter.cpp:173-176 | Setting an attribute keeps the map sorted |
| XmlText.AssignNext | src/xmlwriter.cpp:173-176 | Setting the attributes of a tag in order builds the same map |
| XmlText.LessExactly | src/xmlwriter.cpp:173-176 | The order of attribute names is that of the dictionary |
| XmlWriters.WritesText | src/xmlwriter.cpp:99-203 | The events of a tree add exactly its serialised text, whatever was open before |
| XmlWriters.Stream | src/xmlwriter.cpp:38-222 | For every positive buffer size the chunks together are the text of the tree, and no chunk is empty or larger than the buffer |
| XmlReader.ReadsBack | src/xml_tag.cpp:168-200 | A reader of XML that knows nothing of the serialisers finds in the text of a tag the tag again, if and only if no text in it is empty and no two texts are neighbours; for names without markup, and any texts and attribute values |
| XmlReader.ReadsMerged | src/xml_tag.cpp:168-200 | In all cases it finds the same prefixes, names, attributes and texts, with neighbouring texts in one |
| XmlReader.ElementIsRead | src/xml_tag.cpp:168-200 | The same with anything behind the text: the reader stops at the end of the tag |
| XmlReader.AttributesAreRead | src/xml_tag.cpp:176-178 | Names and values of the attributes are read back, in order |
| XmlReader.PrintedIsRead | src/xml_tag.cpp:168-200 | What toString makes of a tag object, read again |
| XmlReader.StreamedIsRead | src/xmlwriter.cpp:38-222 | What the chunked writer sends, read again |
| XmlWriters.XmlWriter.Output | src/xmlwriter.cpp:50-64 | The copy loop ends, never overfills the buffer, and sends the data in order |
| XmlWriters.XmlWriter.FlushBuffer | src/xmlwriter.cpp:38-45 | Hands on what is buffered, if anything |
| XmlWriters.XmlWriter.StartElement | src/xmlwriter.cpp:161-168 | Completes an open tag and opens the next |
| XmlWriters.XmlWriter.EndElement | src/xmlwriter.cpp:190-203 | Closes an open tag as empty, or writes an end tag |
| XmlWriters.XmlWriter.Flush | src/xmlwriter.cpp:218-222 | Completes an open tag and empties the buffer |
| XmlWriters.WriteElement | src/xmlwriter.cpp:161-203 | The events of a tree sent to a writer object |
| XmlStanzas.StanzasAreChildren | src/controlstream.cpp:163-214 | For a whole document the stanzas are exactly the element children of the root, in order and equal to their subtrees; text under the root is dropped; the stream opens and closes once |
| XmlStanzas.LevelKept | src/controlstream.cpp:163-214 | In every run of events the stack is one shorter than the nesting, never negative, no finished tag waits, and no handler is given a null stanza |
| XmlStanzas.NextConnection | src/controlagent.cpp:146-170 | A connection lost after any events, reconnect, and another document: its stanzas come out if and only if the first was not lost inside a stanza, or there are none; otherwise all of them end in the half-built tag and null is handed over for each |
| XmlStanzas.DocumentGoes | src/controlstream.cpp:163-214 | A whole document, whatever the builder still holds |
| XmlBuilders.ReceiveAgain | src/controlagent.cpp:146-170 | The same for the handler objects: events, reconnect, a document |
| XmlBuilders.HandleAll | src/controlstream.cpp:163-214 | Any events through the handler objects are a run of the specification |
| XmlBuilders.StanzaStream.Reconnect | src/controlagent.cpp:168-170 | The nesting is zero again; the builder is reset |
| XmlBuilders.TagBuilder.Reset | src/tagbuilder.cpp:48-55 | The stack is emptied if and only if a finished tag waits |
| XmlStanzas.NodesGo | src/controlstream.cpp:163-214 | What any nodes inside the document do to the stack |
| XmlStanzas.NameIsSplit | src/xml_tag.cpp:26-39 | A name of prefix and local part is split where it was joined |
| XmlBuilders.Receive | src/controlstream.cpp:163-214 | A whole document through the handler objects: the stanzas handed over |
| XmlBuilders.StanzaStream.OnEndElement | src/controlstream.cpp:190-214 | One end tag: the step of the specification; a stanza is handed over as a well-formed tree of tags |
| XmlBuilders.StanzaStream.OnStartElement | src/controlstream.cpp:163-177 | One start tag: the step of the specification |
| XmlBuilders.StanzaStream.OnCharacterData | src/controlstream.cpp:182-185 | Text: the step of the specification |
| XmlBuilders.TagBuilder.EndElement | src/tagbuilder.cpp:19-27 | The finished tag becomes the last child of the one below, or the result |
| XmlBuilders.TagBuilder.StartElement | src/tagbuilder.cpp:11-17 | A new tag below the last one |
| XmlBuilders.TagBuilder.CharacterData | src/tagbuilder.cpp:29-33 | Text goes into the last tag, or nowhere |
| XmlBuilders.ChildJoins | src/xml_tag.cpp:93-98 | A finished tree inserted into another gives one well-formed tree |
| HashTables.Replay | src/headers/maycloud/heavyhash.h:166-291 | Any run of inserts, replacements and deletions leaves the table equal to the run on a bounded map, and with few keys each key bound by its own history |
| HashTables.HashTable.HashInsert | src/headers/maycloud/heavyhash.h:217-242 | Replaces or adds; a new key is dropped exactly when the heap is exhausted |
| HashTables.HashTable.HashReplace | src/headers/maycloud/heavyhash.h:248-252 | Changes the value of a known key only |
| HashTables.HashTable.HashDelete | src/headers/maycloud/heavyhash.h:258-291 | Removes the key, first in its chain or later, and returns its item to the free list |
| HashTables.HashTable.HashSearch | src/headers/maycloud/heavyhash.h:208-212 | The value of the map, or a blank |
| HashTables.HashTable.Find | src/headers/maycloud/heavyhash.h:192-202 | The item of the key in the bucket of its hash, or none |
| HashTables.HashTable.AddTo | src/headers/maycloud/heavyhash.h:218-231 | A new item at the head of its bucket |
| HashTables.HashTable.AllocItem | src/headers/maycloud/heavyhash.h:167-175 | Takes a free item; there is none exactly when the table is full |
| HashTables.HashTable.ReleaseItem | src/headers/maycloud/heavyhash.h:181-186 | Puts a loose item on the free list |
| HashTables.HashTable.UnlinkNext | src/headers/maycloud/heavyhash.h:285-290 | Takes an item out of the middle of a chain |
| HashTables.HashTable.KeyLeaves | src/headers/maycloud/heavyhash.h:258-291 | Without its item a key is in no chain, and all others are where they were |
| HashTables.HashTable.KeyJoins | src/headers/maycloud/heavyhash.h:218-231 | With its item a key is in its bucket, once |
| HashTables.NothingDropped | src/headers/maycloud/heavyhash.h:218-231 | With no more different keys than items the table is a plain map |
| HashTables.RunIsHistory | src/headers/maycloud/heavyhash.h:192-291 | With no more different keys than items, after any run a key is bound to what its own last operations say: an insert binds it, a delete unbinds it, a replacement changes what is bound and nothing else |
| HashTables.StaysBounded | src/headers/maycloud/heavyhash.h:218-231 | No run stores more keys than there are items |
| HashTables.FindBefore | src/headers/maycloud/heavyhash.h:275-282 | The loop that looks for the item before the one to delete |
| Chains.OwnedFacts | src/headers/maycloud/heavyhash.h:166-186 | Chains, free list and loose item share nothing |
| Chains.OneIsUnlinked | src/headers/maycloud/heavyhash.h:258-291 | Unlinking an item makes it loose and keeps the partition of the heap |
| Hashers.HashIsRemainder | src/hasher.cpp:3-12 | While one more byte fits a size_t, the hash is the key's bytes as a number modulo the capacity |
| Hashers.BelowModulus | src/hasher.cpp:3-12 | The bucket is always below the capacity |
| Hashers.Hasher.FeedData | src/hasher.cpp:8-12 | The loop over the bytes of a key |
| Queues.Queue.Push | src/headers/maycloud/queue.h:141-152 | Appends; dropped when the heap is exhausted; goes wrong exactly when the pointer to the last item is wrong, and then the value can be lost |
| Queues.Queue.Pop | src/headers/maycloud/queue.h:171-183 | Removes and returns the first value, or returns a blank |
| Queues.Queue.PushFirst | src/headers/maycloud/queue.h:159-168 | Prepends; a right pointer to the last item stays right if and only if there was an item before |
| Queues.Queue.SearchAndDel | src/headers/maycloud/queue.h:213-243 | Removes and returns the first occurrence; a right pointer to the last item stays right if and only if that was not the last of several |
| Queues.PushAfterTail | src/headers/maycloud/queue.h:141-243 | After searchAndDel has taken out the last of several items, the value pushed next is lost, and so is an item of the heap |
| Queues.Queue.FreeAll | src/headers/maycloud/queue.h:204-207 | Empties the queue |
| Queues.Queue.Append | src/headers/maycloud/queue.h:148-150 | Linking an item behind the last one, and what happens if the pointer to it is wrong |
| Queues.Queue.OnlyOnce | src/headers/maycloud/queue.h:112-132 | No item is in the queue twice, or in the queue and free |
| TimerRuns.RunKeeps | src/netdaemon.cpp:403-434 | The invariant of ids, expiries and the iterator holds in every run, whatever callbacks do |
| TimerRuns.IdsAreNew | src/netdaemon.cpp:403-407 | In every run ids only grow |
| TimerRuns.FiresOnce | src/headers/maycloud/netdaemon.h:94-97 | In every run a timer fires at most once |
| TimerRuns.FiresOnlyWhenDue | src/netdaemon.cpp:422-429 | A timer that fires was set for then or before, as an int, and not removed in between |
| TimerRuns.PassIsComplete | src/netdaemon.cpp:422-433 | A pass that ends leaves no timer due, not even one added during it |
| TimerRuns.NeverEarly | src/headers/maycloud/netdaemon.h:60-82 | A time_t is stored in an int: in no run does a timer for a time fire before it, if and only if that time is below 2^31 |
| TimerRuns.FiresEarly | src/headers/maycloud/netdaemon.h:60-82 | For every later time there is a run in which the timer fires too early |
| TimerRuns.VisitKeeps | src/netdaemon.cpp:424-429 | The iterator and a firing callback keep the invariant |
| TimerRuns.EndLeaves | src/netdaemon.cpp:430-432 | What the erasing loop leaves is not due and has not fired |
| TimerPasses.PassLeaves | src/netdaemon.cpp:412-434 | A pass leaves exactly the timers that are not due and that were there or were set by one of its events, and that no later event removed; it gives one id for each timer set |
| TimerPasses.SurvivorsSoFar | src/netdaemon.cpp:422-429 | The same at any moment of a pass |
| Timers.TimerService.ProcessTimers | src/netdaemon.cpp:412-434 | The events of a pass are, for one timer after the other in the order of ids, that it is visited and, if it is due, that its callback does exactly what it does, in order; so the table afterwards and the ids given are what these events say; it breaks off exactly when a timer that it reaches removes itself, after what the callback does before |
| Timers.TimerService.CallAt | src/netdaemon.cpp:403-407 | A fresh id; the timer is added at the end of the map |
| Timers.TimerService.RemoveTimer | src/headers/maycloud/netdaemon.h:360-362 | The timer is gone, any other is kept |
| Timers.TimerService.VisitNext | src/netdaemon.cpp:424-429 | One turn of the loop: the timer is passed, or its callback is carried out action by action, or breaks the pass off because it removes its own timer |
| Timers.BreaksExactly | src/netdaemon.cpp:424-429 | A pass breaks off if and only if it reaches a due timer whose callback removes the timer it runs for |
| Timers.PassIsTold | src/netdaemon.cpp:412-434 | After any run, a pass whose events are turns of the loop: the timers left and the ids given, one for each timer that a callback sets |
| Timers.TurnsCounted | src/netdaemon.cpp:403-429 | A pass gives as many ids as the callbacks of the due timers set timers |
| Timers.ReachedFrom | src/netdaemon.cpp:424-429 | Every timer that a pass reaches was there before, or was set by a callback before it |
| Timers.DueIsReached | src/netdaemon.cpp:424-429 | Every timer that is due when a pass begins is reached, unless a callback before removes it or breaks the pass off |
| Timers.HarmlessPassEnds | src/netdaemon.cpp:412-434 | If no callback removes anything, at any depth, every pass comes to its end |
| Timers.LoadVisit | src/netdaemon.cpp:424-429 | Passing a timer takes its work off what the iterator may still meet |
| Registries.Daemon.Enable | src/netdaemon.cpp:135-204 | True exactly when the object ends up in the slot of its descriptor; count follows |
| Registries.Daemon.Disable | src/netdaemon.cpp:212-261 | Empties the slot and counts down exactly when the object was there and epoll lets it go |
| Registries.Daemon.Remove | src/netdaemon.cpp:287-308 | The object leaves slot and daemon, or nothing changes, and when |
| Registries.Daemon.Add | src/netdaemon.cpp:114-130 | The object leaves another daemon for this one; the registry stays consistent if and only if it was not registered there or epoll let it go |
| Registries.AsyncObject.SetFd | src/asyncobject.cpp:64-73 | The registry stays consistent if and only if the descriptor does not change, or the object was not registered, or epoll let it go |
| Registries.AsyncObject.SetDaemon | src/asyncobject.cpp:28-51 | The same for a change of daemon |
| Registries.AsyncObject.DisableObject | src/asyncobject.cpp:100-107 | Through the object: registered afterwards only if epoll did not let it go |
| Registries.AsyncObject.EnableObject | src/asyncobject.cpp:88-95 | Through the object: true exactly when it is registered afterwards |
| Registries.OneSlot | src/netdaemon.cpp:114-261 | No object is in two slots, of one daemon or of two |
| Registries.OccupiedSet | src/netdaemon.cpp:188-192 | The number of occupied slots after a change of one |
| Registries.DisableTwice | src/netdaemon.cpp:212-261 | Disabling again after success succeeds and changes nothing |
| Registries.Serve | src/netdaemon.cpp:114-308 | Any calls on any objects and daemons, provided epoll lets objects go: every count is the number of occupied slots, and every object in a slot has its descriptor and daemon |
| Registries.ServeOne | src/netdaemon.cpp:114-308 | One call keeps the registry consistent if and only if it loses track of no object |
| Registries.AsyncObject.LeaveDaemon | src/asyncobject.cpp:109-118 | The object leaves its daemon, or nothing changes, and when |
| AgentRuns.RunsAreOrderly | src/asyncagent.cpp:31-225 | Started once, every run has at most one reconnect timer, there exactly while reconnecting is set, and its callbacks alternate, connected first |
| AgentRuns.NeverStuck | src/asyncagent.cpp:122-176 | In every run that is started once, exactly one of timer, question and connection is there if and only if every DNS question so far was accepted |
| AgentRuns.LostForGood | src/asyncagent.cpp:138-141 | A DNS question that is refused, the first or any later one, is not noticed, and no event can follow |
| AgentRuns.RunsExactly | src/asyncagent.cpp:31-225 | Started once, an agent goes through exactly those events each of which may follow the one before, and is as the last one tells, with one callback for each connection made and one for each lost; whether the resolver found the host makes no difference |
| AgentRuns.StartedTwice | src/asyncagent.cpp:122-141 | In every state of a started agent, a second call of startConnection from outside leaves the callbacks in order, whatever follows, if and only if its question is refused or nothing else is pending, or it makes no socket while no question is out |
| AgentRuns.StepKeeps | src/asyncagent.cpp:31-225 | Every handler keeps the invariant |
| Agents.Deliver | src/asyncagent.cpp:31-225 | Any events delivered to the agent object, and what they leave |
| Agents.AsyncAgent.OnConnectA4 | src/asyncagent.cpp:31-117 | The resolver's answer: the step of the specification |
| Agents.AsyncAgent.Reconnect | src/asyncagent.cpp:146-164 | At most one timer is set; disconnected is reported for a connection only |
| Agents.AsyncAgent.StartConnection | src/asyncagent.cpp:122-141 | A new socket and a DNS question, or a reconnect timer |
| Strings.JoinParts | src/easylib.cpp:10-50 | Taking apart and putting together gives the string back, for every separator that is not empty |
| Strings.PartsOfJoined | src/easylib.cpp:10-50 | Putting together and taking apart gives the list back if and only if no separator begins too early |
| Strings.PartsAreFree | src/easylib.cpp:10-32 | No part contains the separator |
| Strings.ReplacedIsJoined | src/easylib.cpp:432-438 | Replacing is exploding and imploding with something else |
| Strings.StrReplace | src/easylib.cpp:432-438 | The loop in place does that, and ends even if the replacement contains the separator |
| Strings.Explode | src/easylib.cpp:10-32 | The two loops find the leftmost occurrences; no parts for an empty separator |
| Strings.Implode | src/easylib.cpp:34-50 | The loop puts the separator between the parts |
| Codecs.DecodeEncode | src/easylib.cpp:272-306 | Decoding the padded base64 of section 4 of RFC 4648 gives the bytes back, for every length |
| Codecs.Base64Decode | src/easylib.cpp:272-306 | The loop over characters computes the decoding by groups, for any input |
| Codecs.SymbolsAreTheAlphabet | src/easylib.cpp:266-270 | The symbols are the alphabet of section 4 of RFC 4648, one by one |
| Codecs.StopsAtOther | src/easylib.cpp:272-282 | Nothing behind the first character outside the alphabet counts |
| Codecs.SameBits | src/easylib.cpp:285-287 | The shifts and masks put six-bit groups back into bytes; the last group matters to the last byte only |
| Codecs.UrlRoundTrip | src/easylib.cpp:327-383 | However a text was percent-encoded, with either case and + for a blank, decoding gives it back |
| Codecs.CodedMeans | src/easylib.cpp:327-383 | Every text without a terminator has such an encoding |
| Codecs.HexDigitsAre | src/easylib.cpp:327-383 | A hexadecimal digit, in either case, has its value |
| Codecs.UrlDecodeInto | src/easylib.cpp:327-376 | The copy never runs ahead of the text: strlen + 1 bytes are enough |

## Left out

- Sockets, epoll, DNS, processes, signals, files, clocks, logging and locks; the daemon's main loop and its event
  dispatch.
- MySQL, SQLite, expat, JSON and the regular expressions of the HTTP routing: foreign code.
- `HttpRequest::feed`: it finds the end of the headers only inside one chunk, so chunk independence does not hold.
- inja: dotted lookup, JSON literals with brackets and braces, include files, and the lexer; expressions start as
  tokens.
- InjaRendering.RenderPrinted: what a loop does to the loop data before, in and after its rounds (index, is_first,
  parent and so on) is a parameter, and so are the values of expressions and conditions.
- InjaTable.TwoOperators: for operands that are names, literals, or parentheses around operators of such operands;
  `InjaParserProofs.ParserIsPostfix` is about all trees.
- XmlReader.ReadsBack: for names without blanks, quotes, `=`, `/`, `<` and `>`, which the serialisers do not escape,
  and with no colon that would part them elsewhere.
- SnmpLayouts.BuildsLayout: for OIDs of at most 123 bytes without negative numbers; `SnmpRoundTrip.RoundTrip` says
  what becomes of the others.
- InjaMachines.ExpressionParser.ParseExpression: a number, a string or a bracketed JSON text is one token, and there
  is no token for a dot.
- InjaCommas.ParsesExactly: for trees in which no argument after the first begins with a call without arguments;
  `InjaParserProofs.ParserIsPostfix` and `InjaParserLimits.FailsExactly` make no such assumption.
- InjaMachines.Render: a variable that an operator does not need may be missing without an error, as in the code;
  JSON values, truth and arithmetic stay abstract.
- InjaBlockMachines.BlockParser.ParseStatement: without include; a tag is one value; the header of a for and the
  condition of an if are whatever the expression parser made of them.
- SnmpParsers.SnmpParser.ParsePacket: responses (0xA2) and traps (0xA7) end in the outcome `Elsewhere`; their
  parsers are not part of this model.
- SnmpRoundTrip.RoundTrip: for OIDs that are not `Ambiguous`, that is, not 0.6 with contents of 126 bytes, or of
  256 more or any multiple; their length byte announces a length of two bytes, and what is then read as a
  variable depends on what comes later in the packet.
- XmlTags.Enumerate: for trees in which both child lists agree, which `insertChildElement` and `removeChild`
  keep; the depth number stored in a tag is not part of this model.
- XmlBuilders.Receive: for names whose colon, if any, is among the first 32768 characters, because its position
  is kept in a short; the dump of stanzas for debugging is off.
- XmlWriters.Stream: a buffer of size 0 would never take a byte, so the size is positive.
- HashTables.HashTable.constructor: the buckets and the last free link start as null pointers, which the original
  leaves unset; keys that are equal have the same bytes.
- Queues.Queue.Push: when the pointer to the last item is wrong and does not point to the item about to be used,
  nothing is said about the queue afterwards: a null pointer is followed, or some other item is linked.
- Timers.TimerService.ProcessTimers: callbacks are finite scripts of setTimer and removeTimer; a callback that
  always adds another due timer would never let the pass end. `TimerRuns` makes no such assumption. The global
  timer is not part of this model.
- Registries.Serve: for runs in which epoll lets objects go; reference counts are left out.
- AgentRuns.RunsAreOrderly: events reach only an agent that is registered, and epoll always lets it go.
- Strings.StrReplace: for a search string that is not empty; with an empty one the original does not end.
- `Stack`, `SafeMap`, `Map`, `OID`, `TempString`, `Configurer`, IP and MAC helpers, base-62 ids: small, or the same
  pattern again. `ControlAgent` connects as `AsyncAgent` does.
