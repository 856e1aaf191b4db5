# Verification model of the scanner

This project models the parts of the network scanner whose behaviour is decided by intricate code, and proves what that
code is for. Verify with `dafny verify dfyconfig.toml` (Dafny 4.11).

- **Concurrent scan.** The worker pool (`ThreadPool`, `ThreadPoolClass`) is a transition system whose steps are
  critical sections, notifications, spurious wakeups and finished tasks. `PortTask` is what a task makes of the
  findings of a port. The port scan (`ScanServer`, `ScanInvariants`, `ScanResult`, `ScanProgress`) puts the per-port
  tasks and the scan thread of the web interface on top of it, with exceptions of that thread as steps, and
  `ScanStream` and `StreamProgress` add a client that follows the job by index. `ScanJobClass` holds the job record and
  the per-connection variables as objects with the locked sections as methods. `Progress` and `ProgressClass` do the
  same for the command-line bar and its compare-exchange loop. All statements are about every interleaving.
- **The plugin language ZTL.** `ZtlSyntax`, `ZtlLexer` and `ZtlParser` say what tokens and trees a text stands for;
  `ZtlLexerClass` and `ZtlParserClass` are the lexer and the recursive-descent parser moving their position field,
  proved to compute just that. `ZtlRender` writes a tree with the parentheses the grammar needs; `ZtlRoundTrip`,
  `ZtlFrontEnd`, `ZtlSource` and `ZtlClosure` lead from there to an exact description of what the front end accepts,
  `ZtlLiterals` does so for string literals, `ZtlNumbers` for the range of numbers, `ZtlTokens` relates tokens and
  errors to the characters that stand there, and `ZtlGaps` lets white space and comments stand anywhere.
  `ZtlInterpreter` defines evaluation over a chain of frames with the outcomes normal, return and error, and native
  functions as arbitrary functions on a state without environments, except that `Plugin.run` executes its block.
  `ZtlRuntime` is the interpreter over linked, mutable environments, proved to end as the evaluator says; `ZtlLaws`
  gives the laws of branches, operators, members and calls, `ZtlScoping` and `ZtlCost` prove scoping and the cost
  bound. `PluginRunner` and `RunnerAgreement` treat the two runners.
- **Versions and fixes.** `PaddedOrder` is the order both version comparisons come down to. `Dpkg` is the Debian
  version comparison, `Backport` the distribution fix table with its index and the decision whether a fix is installed,
  `CveDatabase` version ranges, lookups and the findings of a port, and `VersionRanges` says what they mean in the
  numbers of the versions.
- **Findings.** `Findings` specifies deduplication and proves the in-place fold against it; `DedupProperties` says what
  the survivors are.
- **Wire formats.** `Ssh` is the KEXINIT message, `Dns` names, queries and the walk over an answer, `Cidr` the
  expansion of address blocks.

`Text` holds the few string functions of the C++ library that several modules use, `Sequences` and `Arithmetic` the
facts they share, `Wrappers` the optional value, and `ZtlReading` the result of reading, which lexer and parser have in
common.

Reading the statements: a method that changes state is proved against a function of the old state, and the properties
are proved about that function. Concurrent code is a datatype of states, a guard and an effect for each step, and
lemmas about every run. Bytes are characters below 256, and `char` is signed where the source relies on it.

## Model

| member | source | states |
|---|---|---|
| `ThreadPool.StepInv` | src/processor/thread_pool.cpp:12-55 | every critical section, notification, spurious wakeup and finished task keeps conservation, coverage and orderly exit, and the number of workers |
| `ThreadPool.ReachableInv` | src/processor/thread_pool.cpp:6-55 | in every reachable state tasks have left the queue in FIFO order, each is queued, running or done exactly once, every queued task has a worker at the lock or a notification of its own while anyone sleeps, and nobody exits while work is left |
| `ThreadPool.NoLostWakeup` | src/processor/thread_pool.cpp:25-45 | a non-empty queue with no notification outstanding means that some worker is awake, for any positive number of workers and any interleaving |
| `ThreadPool.StopCountsDown` | src/processor/thread_pool.cpp:12-55 | once `stop` is set every possible step, spurious wakeups included, lowers a weight over the queue, the worker phases and the outstanding notifications |
| `ThreadPool.ShutdownIsBounded` | src/processor/thread_pool.cpp:12-23 | every run after `stop` is at most as long as the weight lost on it |
| `ThreadPool.ShutdownIsNeverStuck` | src/processor/thread_pool.cpp:12-23 | until the last worker has exited, some step other than a spurious wakeup is possible, so the joins complete |
| `ThreadPool.JoinedMeansDone` | src/processor/thread_pool.cpp:12-55 | after the last join the tasks done are the tasks enqueued, each once, exactly if there was a worker or nothing to do; with a worker the queue is empty |
| `ThreadPool.QuietMeansDone` | src/processor/thread_pool.cpp:25-55 | while the pool is open: when nothing but new work or a spurious wakeup can happen, every task enqueued so far has been completed |
| `ThreadPoolClass.Queue.PushTask` | src/processor/thread_pool.cpp:25-29 | the locked part of enqueue appends the task and is the push step of the transition system |
| `ThreadPoolClass.Queue.RequestStop` | src/processor/thread_pool.cpp:12-16 | the locked part of the destructor is the stop step |
| `ThreadPoolClass.Queue.PassSection` | src/processor/thread_pool.cpp:38-51 | a worker waits, returns or takes the front task exactly as the predicate, the exit test and the queue say, and this is the section step |
| `ThreadPoolClass.Queue.DrainAfterStop` | src/processor/thread_pool.cpp:34-55 | a worker loop that runs with `stop` set takes every queued task in order before it returns |
| `ScanInvariants.DoInv` | src/scan/tcp_range.cpp:26-142 | every step of workers and scan thread keeps: the shared vectors and the counter hold exactly what was pushed, no port is shown, kept or counted twice, and a task is finished only after its count |
| `ScanInvariants.AlwaysInv` | src/scan/tcp_range.cpp:26-142 | the invariant holds in every state any interleaving can reach, exceptions in the scan thread included |
| `ScanResult.EveryPortOnce` | src/scan/tcp_range.cpp:33-133 | when the pool has been joined, each port fed to it has been counted exactly once, and each open one shown and kept exactly once |
| `ScanResult.SortedOneWay` | src/scan/tcp_range.cpp:135-136 | an ascending permutation of ports with different numbers is unique, so the unstable sort does not matter |
| `ScanResult.FindingsDistinct` | src/scan/tcp_range.cpp:121-139 | findings of different ports never share an identity when they carry the target host and scope PORT, and so all of them are distinct; within a port the deduplication of its task sees to it (`HandsOnHonestly`) |
| `PortTask.GatherFindings` | src/scan/tcp_range.cpp:50-121 | the loops over the findings of a port: those of the CVE table are added unless a check has reported their id, empty fields are filled in, and the list is deduplicated |
| `PortTask.IsHandedOn` | src/scan/tcp_range.cpp:104-129 | every finding gathered on an open port leaves one with its identity, its empty host, unknown protocol and empty service filled in and fields already set kept |
| `PortTask.ComesFrom` | src/scan/tcp_range.cpp:104-129 | everything handed on is a gathered finding so completed, but for evidence and description, which a merge may fill in |
| `PortTask.EvidenceIsHandedOn` | src/scan/tcp_range.cpp:104-129 | a finding handed on has evidence if and only if a gathered one of its identity had |
| `ScanResult.HandsOnHonestly` | src/scan/tcp_range.cpp:114-129 | what a task hands on after filling in the host and deduplicating is about its own port, on the target, with one finding per identity, whatever its checks have reported |
| `ScanResult.DedupKeepsIff` | src/scan/tcp_range.cpp:139 | the final deduplication leaves a list as it is exactly if no identity occurs twice |
| `ScanResult.StreamedIsReturnedIff` | src/scan/tcp_range.cpp:119-140 | for every completed run: the returned findings, deduplicated once more, are the streamed ones if and only if no two findings of the open ports share an identity |
| `ScanResult.ScheduleIndependence` | src/scan/tcp_range.cpp:26-142 | every completed run returns the same sorted port list and the same findings up to order, for arbitrary checks of the ports; these are the live-pushed ones, and progress was incremented once per port of the range |
| `ScanResult.ResultOfChecks` | src/scan/tcp_range.cpp:26-142 | what a completed scan returns, whatever the schedule: exactly the ports that answered, for each finding gathered on one of them a finding with its identity once completed, and nothing that is not such a finding |
| `ScanResult.EvidenceOfResult` | src/scan/tcp_range.cpp:26-142 | a returned finding has evidence if and only if one gathered in the scan with its identity had |
| `ScanStream.MoveInv` | src/webui/webui.cpp:632-826 | every step of scan and streaming client keeps: written and pending events are a prefix of the job vectors, progress values grow, and a loaded terminal status means that nothing more will come |
| `ScanStream.ReadTurn` | src/webui/webui.cpp:749-824 | one turn of the loop writes the new ports and findings in order, and its progress value exactly if that changed |
| `ScanStream.StreamIsPrefix` | src/webui/webui.cpp:748-826 | at every moment, whatever the interleaving and wherever the client connected, the events written are a prefix of the job's ports and findings, in order |
| `ScanStream.StreamIsComplete` | src/webui/webui.cpp:749-824 | once `end` is written every port and finding has been written, nothing will be added, and progress values are strictly increasing; after status done the last of them is the size of the range and the items are those of the whole range |
| `StreamProgress.MovesRunOut` | src/webui/webui.cpp:749-826 | once the scan has ended every move of the client, a failed write included, leaves fewer to its end |
| `StreamProgress.ClientNeverStuck` | src/webui/webui.cpp:749-826 | until it has ended or lost its connection the client can move by itself |
| `StreamProgress.StreamEnds` | src/webui/webui.cpp:749-826 | so after the scan the client comes to its own end |
| `StreamProgress.StreamDelivers` | src/webui/webui.cpp:749-826 | from wherever it is when the scan has ended, a client that keeps its connection comes to its end, and has then been sent all ports and findings of the job, in order |
| `ScanProgress.NeverStuck` | src/webui/webui.cpp:632-670 | until the scan thread has finished some thread can move without waiting for a spurious wakeup, and without an exception unless there has been one |
| `ScanProgress.StepsWork` | src/scan/tcp_range.cpp:30-133 | every step but a spurious wakeup reduces the work left; a spurious wakeup adds one unit |
| `ScanProgress.ScanIsBounded` | src/scan/tcp_range.cpp:26-142 | any run of a scan of n ports with t threads has at most 8n + 3t + 7 steps, plus two for each spurious wakeup in it |
| `ScanProgress.StatusTells` | src/webui/webui.cpp:632-670 | when the scan thread has finished the status is done if and only if no exception has left one of its calls, and error otherwise |
| `ScanProgress.CanComplete` | src/webui/webui.cpp:632-670 | from every state of a scan without an exception so far it can go on to its successful end |
| `ScanProgress.ScanCanSucceed` | src/webui/webui.cpp:632-670 | every scan can succeed |
| `ScanJobClass.ScanJob.OnPortOpen` | src/webui/webui.cpp:641-645 | the live callback appends the port and then its findings, which is the show step |
| `ScanJobClass.ScanJob.Tick` | src/scan/tcp_range.cpp:130 | the progress increment is the count step |
| `ScanJobClass.Stream.TakeNew` | src/webui/webui.cpp:752-764 | the snapshot takes exactly the entries beyond those already taken and advances the two indexes |
| `ScanJobClass.Stream.RunTurn` | src/webui/webui.cpp:749-824 | a turn over the shared job record does what the snapshot move of the client does |
| `Progress.StepInv` | src/scan/reporter.cpp:32-45 | every atomic operation of concurrent ticks keeps: published percentages grow, none is ahead of the share done, what is published is printed or still owed, and each number up to the counter belongs to one tick |
| `Progress.NeverPrintedTwice` | src/scan/reporter.cpp:32-45 | for any total, products that wrap around included, and under every interleaving with spurious exchange failures the published values strictly increase, no percentage is printed twice, and the bar is never ahead of the work |
| `Progress.EndsExact` | src/scan/reporter.cpp:32-45 | when all started ticks have finished, everything published has been printed and the bar stands at the largest percentage a tick computed in 32 bits; up to 21474836 ticks that is the share done, and with a total that is not positive it is 100 at once, without a product |
| `Progress.EndsAtHundredIff` | src/scan/reporter.cpp:22-45 | a bar whose total is the number of its ticks ends at 100 if and only if the total is at most 21474836, and if and only if no product overflows an int |
| `Progress.LargeScan` | src/scan/reporter.cpp:32-45 | with all ports of the 512 hosts of a /23 the product overflows; wrapped around, the bar stops at 63 and the last tick computes -28 |
| `ProgressClass.CliReporter.Tick` | src/scan/reporter.cpp:32-45 | one call with any number of spurious failures publishes and prints its percentage, computed in 32 bits, exactly if it is new and never lowers the bar |
| `ZtlLexer.LineAndColumn` | src/ztl/lexer.cpp:17-21 | a column counts the characters since the last line feed, a line the line feeds before it |
| `ZtlLexerClass.Lexer.Tokenize` | src/ztl/lexer.cpp:121-180 | on every source the lexer ends with the tokens of the specification, each with the line and column of its first character, or with the error and position of the specification |
| `ZtlLexerClass.Lexer.ReadString` | src/ztl/lexer.cpp:51-89 | string literals with their escapes, and the three errors located at the opening quote |
| `ZtlLexerClass.Lexer.SkipWhitespaceAndComments` | src/ztl/lexer.cpp:28-45 | white space and the three kinds of comment are skipped, an unclosed block comment to the end |
| `ZtlLexerClass.Lexer.ReadPunctuation` | src/ztl/lexer.cpp:133-176 | one- and two-character tokens and the errors of the switch |
| `ZtlFrontEnd.ReadString` | src/ztl/lexer.cpp:51-89 | a literal written with escaped quotes and backslashes is read back as its text, for arbitrary text |
| `ZtlLiterals.ReadSpelled` | src/ztl/lexer.cpp:51-89 | a text written in any way, each character as it is, behind a backslash, by its letter or by two hexadecimal digits of either case, is read back |
| `ZtlLiterals.LiteralIsText` | src/ztl/lexer.cpp:51-89 | and so it is as a token, wherever the literal stands |
| `ZtlLiterals.AcceptedIsSpelled` | src/ztl/lexer.cpp:51-89 | every literal the lexer accepts is its text written in one of these ways |
| `ZtlFrontEnd.ReadToken` | src/ztl/lexer.cpp:121-177 | every kind of token followed by a space is read back whole |
| `ZtlFrontEnd.LexRoundTrip` | src/ztl/lexer.cpp:11-180 | any list of well-formed tokens, written with separating spaces, lexes back to that list and END_OF_FILE |
| `ZtlGaps.GapsDoNotMatter` | src/ztl/lexer.cpp:28-45 | before, between and behind the tokens there may be any blanks and comments, a last one unfinished: the tokens read are the same |
| `ZtlTokens.TokenIsItsText` | src/ztl/lexer.cpp:91-180 | every token but a string literal is the text between its position and the one behind it |
| `ZtlTokens.FailsIff` | src/ztl/lexer.cpp:133-176 | where neither a literal nor a word starts, the lexer fails if and only if there is none of the sixteen single signs and no doubled & or |, each with its own error |
| `ZtlTokens.LongestWord` | src/ztl/lexer.cpp:91-119 | words and numbers are taken as long as they go on |
| `ZtlParserClass.Parser.Advance` | src/ztl/parser.cpp:34-38 | moving never passes END_OF_FILE; the method moves through the vector exactly as the specification says |
| `ZtlParserClass.Parser.ParseProgram` | src/ztl/parser.cpp:55-61 | the statement loop computes the specified program or the first error; the method moves through the vector exactly as the specification says |
| `ZtlParserClass.Parser.ParseStatement` | src/ztl/parser.cpp:63-87 | dispatch on the first token, with the two-token look-ahead of assignments; the method moves through the vector exactly as the specification says |
| `ZtlParserClass.Parser.ParseInclude` | src/ztl/parser.cpp:89-98 | include with its three expected tokens; the method moves through the vector exactly as the specification says |
| `ZtlParserClass.Parser.ParseIf` | src/ztl/parser.cpp:100-118 | if with its branches; the method moves through the vector exactly as the specification says |
| `ZtlParserClass.Parser.ParseElse` | src/ztl/parser.cpp:110-116 | an else branch is a single if or a block; the method moves through the vector exactly as the specification says |
| `ZtlParserClass.Parser.ParseReturn` | src/ztl/parser.cpp:120-128 | return with or without a value; the method moves through the vector exactly as the specification says |
| `ZtlParserClass.Parser.ParseBlock` | src/ztl/parser.cpp:130-138 | a braced list of statements; the method moves through the vector exactly as the specification says |
| `ZtlParserClass.Parser.ParseOperators` | src/ztl/parser.cpp:152-205 | the loop of a binary layer builds a left-associative tree from the operands of the next tighter layer; the method moves through the vector exactly as the specification says |
| `ZtlParserClass.Parser.ParseUnary` | src/ztl/parser.cpp:207-215 | prefix operators nest to the right; the method moves through the vector exactly as the specification says |
| `ZtlParserClass.Parser.ParseCallArgs` | src/ztl/parser.cpp:217-233 | positional and named arguments, trailing comma included; the method moves through the vector exactly as the specification says |
| `ZtlParserClass.Parser.ParsePostfix` | src/ztl/parser.cpp:235-269 | members, calls and trailing blocks are applied in order of appearance; the method moves through the vector exactly as the specification says |
| `ZtlParserClass.Parser.ParsePrimary` | src/ztl/parser.cpp:271-310 | literals, names, scoped names and parentheses, and the exception for a number out of the range of a double; the method moves through the vector exactly as the specification says |
| `ZtlNumbers.InRangeIff` | src/ztl/parser.cpp:274-278 | a number literal is taken if and only if its whole part is below 2^1024 - 2^970 and it is not a tiny fraction that no double equals, in powers of two and ten |
| `ZtlNumbers.TenToIs` | src/ztl/parser.cpp:274-278 | the power of ten in it is what a one with that many zeros stands for |
| `ZtlParser.ParseStatement` | src/ztl/parser.cpp:55-138 | a statement consumes at least one token of any vector that ends in END_OF_FILE and stops inside it, so parsing terminates on every such vector |
| `ZtlRoundTrip.ReadExpr` | src/ztl/parser.cpp:140-310 | an expression rendered for a layer, with the parentheses that layer needs, is read back at that layer |
| `ZtlRoundTrip.ReadBinary` | src/ztl/parser.cpp:152-205 | left associativity and precedence of the binary operators |
| `ZtlRoundTrip.ReadCall` | src/ztl/parser.cpp:217-269 | arguments, names of arguments and trailing blocks, nested to any depth |
| `ZtlRoundTrip.ReadStmt` | src/ztl/parser.cpp:63-138 | every kind of statement is read back with its semicolon |
| `ZtlRoundTrip.ReadElse` | src/ztl/parser.cpp:110-116 | else and else-if branches are read back |
| `ZtlRoundTrip.ParseRendered` | src/ztl/parser.cpp:28-310 | every tree with the language's operators and with numbers in range is what parsing its rendered tokens yields |
| `ZtlSource.SourceRoundTrip` | src/ztl/parser.cpp:28-310 | from tree to text and back through lexer and parser: a program with proper names and numbers is read back from its formatted text |
| `ZtlClosure.LexedIsWritable` | src/ztl/lexer.cpp:121-180 | every token the lexer delivers can be written down and read back, and END_OF_FILE comes last and only there |
| `ZtlClosure.ProgramBuilds` | src/ztl/parser.cpp:55-310 | parsing tokens of the lexer builds only trees whose names, operators and numbers are the language's own, the numbers in the range of a double |
| `ZtlClosure.FormattingKeepsMeaning` | src/ztl/parser.cpp:28-310 | for every accepted source text the canonical formatting of its tree is accepted with the same tree |
| `ZtlClosure.AcceptedProgramsAreTheNamedOnes` | src/ztl/parser.cpp:28-310 | a tree is the meaning of some source text if and only if its names, operators and numbers are the language's own and its numbers are in the range of a double |
| `ZtlScoping.StoreIsRead` | src/ztl/runtime.hpp:69-80 | after an assignment or definition a lookup gives the new value for that name and the old one for every other |
| `ZtlScoping.AssignReachesBinding` | src/ztl/runtime.hpp:70-74 | assignment changes exactly the innermost frame that has the name |
| `ZtlScoping.UnboundIsNowhere` | src/ztl/runtime.hpp:70-80 | a name a lookup does not find is in no frame, and assigning it changes nothing |
| `ZtlScoping.EvalKeeps` | src/ztl/interpreter.cpp:97-193 | evaluating an expression never ends in a return, leaves every frame but the globals as it was and adds no name to the globals, on values and errors alike |
| `ZtlScoping.RunBlockKeeps` | src/ztl/runner.cpp:363-379 | Plugin.run ends its block's return and touches nothing but values of globals |
| `ZtlScoping.StmtKeeps` | src/ztl/interpreter.cpp:69-90 | a statement adds at most its own target, to the innermost frame only, whether it ends normally, returns or fails |
| `ZtlScoping.BlockKeeps` | src/ztl/interpreter.cpp:92-95 | a block adds no name to any enclosing frame, however it ends |
| `ZtlScoping.ProgramKeeps` | src/ztl/interpreter.cpp:65-67 | a program adds to the globals only targets of assignments at its top level |
| `ZtlLaws.IfLaw` | src/ztl/interpreter.cpp:80-84 | an if-statement ends as its else branch, or as the condition alone when that is empty, exactly on null, false, 0 and the empty string, and as its then branch on every other value |
| `ZtlLaws.IfFails` | src/ztl/interpreter.cpp:80-84 | a condition that fails ends the statement without either branch |
| `ZtlLaws.NotLaw` | src/ztl/interpreter.cpp:119-123 | negation is true on exactly these four values |
| `ZtlLaws.LogicLaw` | src/ztl/interpreter.cpp:131-133 | && is its left value, and visits nothing on the right, exactly on these values, || exactly on the others; otherwise they are their right operand |
| `ZtlLaws.NumbersCompare` | src/ztl/interpreter.cpp:148-156 | comparisons of numbers are those of the numbers |
| `ZtlLaws.OrderLaws` | src/ztl/interpreter.cpp:148-156 | less is the converse of greater and the negation of greater or equal, less or equal the negation of greater |
| `ZtlLaws.Arithmetic` | src/ztl/interpreter.cpp:124-147 | sum, difference and negation of numbers |
| `ZtlLaws.Inverses` | src/ztl/interpreter.cpp:124-147 | adding back what was subtracted and negating twice change nothing |
| `ZtlLaws.EqualityLaw` | src/ztl/interpreter.cpp:136-137 | equality is that of values of any types, and its opposite complementary |
| `ZtlLaws.NotNumbers` | src/ztl/interpreter.cpp:124-156 | as soon as one side is no number, + joins the texts of both and the other operators fail |
| `ZtlLaws.AtomLaw` | src/ztl/interpreter.cpp:97-114 | literals are themselves, a name or scoped name is what the innermost frame with it says, or an error |
| `ZtlLaws.MemberLaw` | src/ztl/interpreter.cpp:161-173 | a member is the field, else the bound method, else an error; of anything but an object an error |
| `ZtlLaws.MethodCallLaw` | src/ztl/interpreter.cpp:175-298 | a method call asks the receiver: a string for its own methods, an object for the bound function, which gets the receiver and whether there is a block |
| `ZtlLaws.FunctionCallLaw` | src/ztl/interpreter.cpp:175-298 | a call of anything but a member needs a function, which gets no receiver |
| `ZtlCost.EvalWithin` | src/ztl/interpreter.cpp:97-193 | evaluation visits pairwise different places of the expression, trailing blocks included, and makes native calls for pairwise different call expressions of it |
| `ZtlCost.StmtWithin` | src/ztl/interpreter.cpp:69-95 | executing a statement visits pairwise different places of it, each place being the path to one occurrence of a node |
| `ZtlCost.RunBlockWithin` | src/ztl/runner.cpp:363-379 | Plugin.run adds pairwise different places of its block, all new to the run |
| `ZtlCost.CallPlaces` | src/ztl/interpreter.cpp:175-193 | the paths of the call expressions of an expression are as many as its call expressions |
| `ZtlCost.ProgramIsLinear` | src/ztl/interpreter.cpp:65-67 | in one run the visited paths are pairwise different paths of the program, so are those of the native calls among its call expressions, hence there are at most as many native calls, and added findings, as the text has call expressions |
| `ZtlRuntime.Environment.Define` | src/ztl/runtime.hpp:69 | defining writes the innermost frame |
| `ZtlRuntime.Environment.Assign` | src/ztl/runtime.hpp:70-74 | assignment through the parent pointers is assignment on the chain of frames |
| `ZtlRuntime.Environment.Find` | src/ztl/runtime.hpp:75-80 | lookup through the parent pointers is lookup on the chain of frames |
| `ZtlRuntime.Interpreter.EvalExpr` | src/ztl/interpreter.cpp:97-173 | evaluation over shared, mutable environments ends with the outcome, frames and native state of the evaluator |
| `ZtlRuntime.Interpreter.BinaryExpr` | src/ztl/interpreter.cpp:131-156 | short circuit, operand order and operators as the evaluator says |
| `ZtlRuntime.Interpreter.CallExpr` | src/ztl/interpreter.cpp:175-193 | arguments left to right, then the receiver or callee, then the call |
| `ZtlRuntime.Interpreter.InvokeFunction` | src/ztl/interpreter.cpp:263-298 | a native function is called with its positional and named arguments and its block |
| `ZtlRuntime.Interpreter.RunPlugin` | src/ztl/runner.cpp:363-379 | the block of Plugin.run runs in a scope whose parent is the globals; locals of the caller are untouched |
| `ZtlRuntime.Interpreter.EvalArgs` | src/ztl/interpreter.cpp:176-182 | the argument loop |
| `ZtlRuntime.Interpreter.ExecStmt` | src/ztl/interpreter.cpp:69-90 | statements as the evaluator says |
| `ZtlRuntime.Interpreter.ExecIfStmt` | src/ztl/interpreter.cpp:80-83 | a missing else branch is skipped |
| `ZtlRuntime.Interpreter.ExecBlock` | src/ztl/interpreter.cpp:92-95 | a block runs in a new environment that is gone afterwards |
| `ZtlRuntime.Interpreter.ExecBody` | src/ztl/interpreter.cpp:65-67 | the statement loop stops at the first statement that returns or fails |
| `ZtlRuntime.Interpreter.RunAll` | src/ztl/interpreter.cpp:65-67 | a program runs in the globals and leaves them and the native state as the evaluator says |
| `PluginRunner.RunForPort` | src/ztl/runner.cpp:688-717 | the two passes over one port, as folds over the plugins that apply |
| `PluginRunner.RunAll` | src/ztl/runner.cpp:719-747 | the nested loops over plugins and ports, repeated ports included, produce plugin by plugin what every port's own states give |
| `RunnerAgreement.RestrictRows` | src/ztl/runner.cpp:727-745 | loop interchange: the findings of one port in the plugin-major order are those of the fold over that port, in order, with every plugin as often in a row as the port is listed |
| `RunnerAgreement.SameStatesIff` | src/ztl/runner.cpp:698-712 | the two runners take a port through the same states if and only if no plugin of the targeted pass claims another service |
| `RunnerAgreement.SameFindingsIff` | src/ztl/runner.cpp:707-745 | with a watching plugin for every service, the two runners find the same however the plugin list is cut and whichever watcher follows, if and only if no plugin of the targeted pass claims another service |
| `RunnerAgreement.RunAllAgrees` | src/ztl/runner.cpp:688-747 | if none does, the findings of run_all for a port are the findings of run_for_port on it, in the same order, for any list of ports |
| `RunnerAgreement.LateClaimMatters` | src/ztl/runner.cpp:698-745 | without that condition they differ: one port finding appears in run_for_port and not in run_all |
| `PluginRunner.RunOne` | src/ztl/runner.cpp:688-747 | one plugin on a port: its filter against the service found so far, its findings, and its claims, which replace what was known where they are not empty |
| `Dpkg.Pass` | src/scan/cve.cpp:69-92 | one turn of the outer loop, as its two inner loops do it |
| `Dpkg.TurnCompares` | src/scan/cve.cpp:69-92 | a turn decides as the sort keys do, or leaves the comparison of what remains |
| `Dpkg.TurnStallsIff` | src/scan/cve.cpp:69-92 | a turn makes no progress if and only if each string is at its end or at a NUL |
| `Dpkg.SkipNonDigits` | src/scan/cve.cpp:70-80 | the non-digit loop compares weights until both sides stand at digits or at the end |
| `Dpkg.CompareNumbers` | src/scan/cve.cpp:81-91 | digit runs compare as numbers, leading zeros ignored |
| `Dpkg.EndsIff` | src/scan/cve.cpp:64-94 | the loop ends if and only if both strings are free of NUL or what precedes the first NUL of each compares unequal, and then its result is the comparison of those |
| `Dpkg.CompareSeesTheCut` | src/scan/cve.cpp:64-94 | the comparison depends only on what precedes the first NUL of each string |
| `Dpkg.NulNeverEnds` | src/scan/cve.cpp:64-94 | comparing "a" followed by a NUL with "a" never ends |
| `Dpkg.CompareStr` | src/scan/cve.cpp:64-94 | wherever it ends at all, the two-index loop computes the padded lexicographic order of the keys |
| `Dpkg.CompareIsTotalPreorder` | src/scan/cve.cpp:64-94 | reflexive, sign-antisymmetric and transitive, with equivalence a congruence; section 5.6.12 of the Debian Policy Manual |
| `Dpkg.Between` | src/scan/cve.cpp:64-94 | the order is dense: strictly between any two dash-free strings there is a NUL-free one |
| `Dpkg.SuffixDecides` | src/scan/cve.cpp:55-62 | in any string, a tilde sorts below the end of the string and every other non-digit above it, whatever follows; behind a NUL nothing counts |
| `Dpkg.CharactersDecide` | src/scan/cve.cpp:55-80 | behind a common beginning the first different non-digits decide: a tilde first, then letters, then the rest, each by code, with bytes above 127 negative |
| `Dpkg.ParseVersion` | src/scan/cve.cpp:102-124 | epoch, upstream version and revision by the first colon and the last dash |
| `Dpkg.ParsePrinted` | src/scan/cve.cpp:102-124 | a version put together from its three parts is taken apart into them |
| `Dpkg.DpkgCompare` | src/scan/cve.cpp:126-134 | epoch, then upstream version, then revision; an absent epoch is 0; wherever the comparisons end |
| `Dpkg.NoEpochIsZero` | src/scan/cve.cpp:126-134 | a version without an epoch compares as one with epoch 0 |
| `Dpkg.EpochDecides` | src/scan/cve.cpp:126-134 | epochs compare as numbers, before anything else |
| `Dpkg.CompareVersionsIsTotalPreorder` | src/scan/cve.cpp:126-134 | the comparison of whole versions is a total preorder too |
| `Backport.FixTable.Append` | src/scan/cve.cpp:338-340 | a new row keeps the index exact |
| `Backport.FixTable.Load` | src/scan/cve.cpp:314-344 | loading keeps exactly the rows with six fields, and the index exact |
| `Backport.PositionsAscendExactly` | src/scan/cve.cpp:338-340 | the index entry of a key holds exactly the positions of its rows, ascending |
| `Backport.KeyIsThePair` | src/scan/cve.cpp:136-141 | the joined key identifies the pair of CVE id and distribution, exactly if the ids have equal length, which ids without a bar do |
| `Backport.FixTable.IsCovered` | src/scan/cve.cpp:206-214 | wherever the comparisons end, a row covers the installed version if it ships a fix for the same upstream version at or below the installed revision |
| `Backport.FixTable.CheckBackport` | src/scan/cve.cpp:186-219 | wherever its comparisons end, following the index decides as a scan of the whole table from its first row would |
| `Backport.NulFreeCheckEnds` | src/scan/cve.cpp:186-219 | with NUL-free versions and revision the comparisons of a check always end |
| `Backport.CoveredIsNulFree` | src/scan/cve.cpp:206-214 | a covering row and the version it covers have no NUL in their upstream parts |
| `Backport.ScanStopsAtFirstFix` | src/scan/cve.cpp:197-218 | the first covering row decides and names the fix; the not-affected rows before it are remembered |
| `Backport.PatchedIff` | src/scan/cve.cpp:197-218 | patched if and only if some row of the key covers the installed version |
| `Backport.PatchedStaysPatched` | src/scan/cve.cpp:186-219 | patched at one revision means patched at every higher one with an equivalent upstream part |
| `Backport.UpgradeStaysPatched` | src/scan/cve.cpp:186-219 | raising an undashed revision never turns a patched host unpatched |
| `Backport.UpgradeKeepsFixesIff` | src/scan/cve.cpp:186-219 | over all tables with which both checks end: an upgrade keeps every fix if and only if the older upstream part has a NUL, or the upstream parts are equivalent and the newer one has a NUL or the revision is not lower |
| `Backport.UpgradeIsSafeIff` | src/scan/cve.cpp:186-219 | from an undashed revision that is: the new revision has no dash and is not lower, or the version has a NUL |
| `Backport.UnsafeUpgrade` | src/scan/cve.cpp:186-219 | for every other upgrade a table of one row, with which both checks end, shows the loss; without a NUL in the revision the row is the fix that is installed |
| `CveDatabase.ParseComponents` | src/scan/cve.cpp:271-294 | the numbers of the first dotted run; none when one does not fit an int |
| `VersionRanges.ComponentsOfDotted` | src/scan/cve.cpp:271-294 | numbers written with dots, behind any text without digits and before anything that does not continue them, are read back; none if one of them is no int |
| `VersionRanges.ComponentsOfNothing` | src/scan/cve.cpp:271-294 | a text without digits has no components |
| `CveDatabase.CompareComponents` | src/scan/cve.cpp:296-304 | component-wise comparison with zero padding is the padded lexicographic order |
| `PaddedOrder.Reflexive` | src/scan/cve.cpp:296-304 | the version order is reflexive |
| `PaddedOrder.Antisymmetric` | src/scan/cve.cpp:296-304 | the version order is sign-antisymmetric |
| `PaddedOrder.Transitive` | src/scan/cve.cpp:296-304 | the version order is transitive, and strict as soon as one step is |
| `PaddedOrder.FirstDifference` | src/scan/cve.cpp:298-303 | the first differing position decides |
| `CveDatabase.RangeIsConvex` | src/scan/cve.cpp:306-312 | a version between two versions of a range is in the range |
| `CveDatabase.VersionInRange` | src/scan/cve.cpp:306-312 | the bounds are compared as the specification says |
| `VersionRanges.InRangeIff` | src/scan/cve.cpp:306-312 | a version is in a range if and only if it has numbers, and at the first difference they are not below the minimum nor above the maximum |
| `VersionRanges.RangeInNumbers` | src/scan/cve.cpp:271-312 | read off the texts: both bounds belong to the range, nothing beyond them does, and a star does not restrict |
| `CveDatabase.Match` | src/scan/cve.cpp:399-423 | the entry taken is the first that matches and has the id asked for |
| `CveDatabase.Verify` | src/scan/cve.cpp:425-450 | the answer to a plugin: unknown without product or version, otherwise the first matching entry or "not vulnerable" |
| `CveDatabase.CheckPort` | src/scan/cve.cpp:456-525 | one finding per matching entry, about the port, in table order, downgraded exactly if the fix is already installed, wherever the comparisons end |
| `VersionRanges.ReportedIff` | src/scan/cve.cpp:456-525 | a port gets a finding with an id if and only if a row with it is for its product, in letters of any case, and its range holds the version; never if all ranges with the id end below it |
| `VersionRanges.FindingsSay` | src/scan/cve.cpp:465-520 | what a finding says: id, port, product and version, and "not vulnerable" with the fix and high confidence exactly if it is installed |
| `Text.LowerIff` | src/scan/cve.cpp:265-267 | lower case identifies exactly the two cases of a letter |
| `CveDatabase.FindingsAreAboutThePort` | src/scan/cve.cpp:456-525 | every finding has scope PORT and the number of the port and leaves the host to be filled in, as ScheduleIndependence takes from a check |
| `CveDatabase.UpgradeNeverReopens` | src/scan/cve.cpp:456-525 | a newer undashed revision keeps every finding in place and never turns a patched one back |
| `CveDatabase.VerifyAgreesWithFindings` | src/scan/cve.cpp:425-525 | asking about an id says vulnerable exactly when the port gets a finding with it |
| `Findings.Deduplicate` | src/include/finding.h:110-136 | the in-place fold through the position map leaves one survivor per identity in order of first occurrence |
| `DedupProperties.IdentityIff` | src/include/finding.h:99-108 | without bars in the fields they join, two findings have one identity if and only if they agree in host, scope, protocol, service, in the port unless the scope is HOST, and in the CVE id or, without one, in plugin and title |
| `DedupProperties.SurvivorOf` | src/include/finding.h:110-136 | every finding leaves a survivor with its identity |
| `DedupProperties.CvesSurvive` | src/include/finding.h:110-136 | findings with different CVE ids leave different survivors with these ids, on their host and port and of their service |
| `DedupProperties.BetterIff` | src/include/finding.h:56-61 | an active check beats a configuration match, that a version match and that everything else, whatever the scores; among equals the higher score wins |
| `DedupProperties.SurvivorIsFirstBest` | src/include/finding.h:124-132 | the survivor is the first maximum by rank and score from the first finding with evidence on, and has evidence if and only if a member of its class had |
| `DedupProperties.SurvivorIsMaximumIff` | src/include/finding.h:124-132 | it is the maximum of the whole class exactly if it beats everything before the first evidence |
| `DedupProperties.BetterFindingLost` | src/include/finding.h:124-132 | a stronger finding without evidence is lost to a weaker one, so the merge rule is no plain maximum |
| `DedupProperties.DedupIds` | src/include/finding.h:110-136 | the output identities are the distinct input identities, in order of first occurrence |
| `DedupProperties.UniqKeepsOrder` | src/include/finding.h:110-136 | output order is the order of first occurrence |
| `DedupProperties.DedupDistinct` | src/include/finding.h:110-136 | output identities are distinct |
| `DedupProperties.DedupIdempotent` | src/include/finding.h:110-136 | deduplicating twice changes nothing |
| `DedupProperties.EvidenceSurvives` | src/include/finding.h:128-131 | an output finding has evidence if and only if a finding with its identity had |
| `DedupProperties.DedupOfPartsIff` | src/include/finding.h:110-136 | deduplicating a part first never matters, whatever stands before it, if and only if each of its identities has its first best finding, unchanged, for its survivor |
| `DedupProperties.CompleteIsHarmless` | src/include/finding.h:124-132 | findings with evidence and a description meet it |
| `DedupProperties.TellsApart` | src/include/finding.h:124-132 | for findings of one identity that do not meet it there is one more that, put in front, tells the two ways of merging apart |
| `DedupProperties.DedupOfChunks` | src/include/finding.h:110-136 | deduplicating any number of chunks first does not matter if all but the first meet that condition |
| `DedupProperties.ThreeOfOneIdentity` | src/include/finding.h:110-136 | deduplicating three findings of one identity merges from the left, deduplicating the last two first merges from the right |
| `DedupProperties.ChunksMatterWithoutEvidence` | src/include/finding.h:110-136 | without evidence the chunks can matter: three findings, one of them deduplicated by itself, give another result than the three at once |
| `DedupProperties.PortsNeverCollide` | src/include/finding.h:99-108 | equal identities on one host and in one scope other than HOST mean equal ports |
| `Ssh.Uint32RoundTrip` | src/protocols/ssh/terrapin.cpp:18-25 | four big-endian octets are read back as the number |
| `Ssh.PadLength` | src/protocols/ssh/terrapin.cpp:58-60 | the padding is between 4 and 11 and aligns the part after the length field to 8 |
| `Ssh.FramePacket` | src/protocols/ssh/terrapin.cpp:57-72 | length, padding length, payload and padding in order |
| `Ssh.BuildPayload` | src/protocols/ssh/terrapin.cpp:27-55 | message code, a zero cookie, the name lists, the flag and the reserved word |
| `Ssh.JoinAlgorithms` | src/protocols/ssh/terrapin.cpp:193-200 | names joined by commas |
| `Ssh.SplitJoined` | src/protocols/ssh/terrapin.cpp:90-94 | joined non-empty comma-free names are split back into the same names |
| `Ssh.ReadNames` | src/protocols/ssh/terrapin.cpp:74-97 | a name list is read and the position moved behind it, or rejected if it would pass the end; what lies behind the string is not specified |
| `Ssh.ReadOneList` | src/protocols/ssh/terrapin.cpp:74-97 | every list is read back and reading stops where the next one begins |
| `Ssh.ParsePacket` | src/protocols/ssh/terrapin.cpp:99-131 | the checks and the six lists of the parser in order |
| `Ssh.KexInitRoundTrip` | src/protocols/ssh/terrapin.cpp:18-131 | ten lists, framed and followed by anything, are parsed to exactly lists 1, 4 and 6 with the payload end where it is; section 5 of RFC 4251, sections 6 and 7.1 of RFC 4253 |
| `Ssh.StaysInsideIff` | src/protocols/ssh/terrapin.cpp:99-131 | with the sums in 32 bits: the parser reads nothing behind the message, whatever follows its first five octets, if and only if the padding they announce is not longer than the packet |
| `Dns.EncodeName` | src/protocols/dns/resolver.cpp:25-49 | the loop writes the labels between dots, each with its length cut to eight bits, and a zero octet |
| `Dns.LabelsRoundTrip` | src/protocols/dns/resolver.cpp:25-49 | labels of up to 255 characters are read back from the encoded name |
| `Dns.BuildQuery` | src/protocols/dns/resolver.cpp:51-78 | header, name, type and class in order |
| `Dns.QueryFields` | src/protocols/dns/resolver.cpp:51-78 | read back: the id, recursion desired, one question, and behind the name type A and class IN; section 4.1 of RFC 1035 |
| `Dns.SkipNameLoop` | src/protocols/dns/resolver.cpp:80-95 | the skipping loop follows labels to a zero octet, a pointer or the end |
| `Dns.SkipInvertsEncodeIff` | src/protocols/dns/resolver.cpp:25-95 | for every host name, skipping its encoding lands behind it if and only if the loop does within the name, or overruns it by the one octet with which the message ends |
| `Dns.LabelsDecide` | src/protocols/dns/resolver.cpp:25-95 | that is: every label has 1 to 191 characters, as long as no label of 256 or more is reached whose cut length is in that range; section 3.1 of RFC 1035 |
| `Dns.LongLabelsGoEitherWay` | src/protocols/dns/resolver.cpp:25-95 | a label of that kind decides by its text: two host names of 257 letters and digits, alike but for one character, of which one is skipped and one is not |
| `Dns.QueryIsSkipped` | src/protocols/dns/resolver.cpp:51-78 | for every host name, skipping the name of a query leaves exactly its type and class if and only if the loop lands within the name; in terms of labels likewise |
| `Dns.Resolve` | src/protocols/dns/resolver.cpp:114-162 | the answer loop computes the specified walk |
| `Dns.RecordFields` | src/protocols/dns/resolver.cpp:132-158 | the fields of a record stand where the walk looks for them, and the next record begins where it goes on; section 4.1.3 of RFC 1035 |
| `Dns.AnswerIsFirstAddress` | src/protocols/dns/resolver.cpp:114-162 | for every well-formed one-question response the result is the data of the first address record of length 4, or none |
| `Cidr.AndMask` | src/scan/cidr.cpp:49-50 | and with a prefix mask clears the bits below it |
| `Cidr.MaskIs` | src/scan/cidr.cpp:49 | the shifted mask is all ones down to the prefix |
| `Cidr.NeverWraps` | src/scan/cidr.cpp:52-66 | network plus index stays within 32 bits |
| `Cidr.ExpandCidr` | src/scan/cidr.cpp:17-77 | input without a slash is returned as it is; a prefix that is no number or outside 0 to 32 or a bad base address gives nothing; otherwise the addresses count up from the network, at most 65536 of them |
| `Cidr.ExpansionIsTheBlock` | src/scan/cidr.cpp:48-74 | for prefixes 16 to 32 the addresses are exactly those sharing the prefix, ascending and each once; for 0 to 15 the first 65536 of the block; section 3.1 of RFC 4632 |

## Left out

- UpgradeStaysPatched: goes one way and for undashed revisions; UpgradeKeepsFixesIff gives the exact condition.
- PatchedStaysPatched: goes one way, because a particular table may have another row that covers the lower revision.
- RunAllAgrees: goes one way, because two different state sequences can still report equal findings; SameStatesIff is the exact statement about the states, SameFindingsIff the one about findings where every service is watched.
- DedupOfChunks: goes one way for a given list of chunks; DedupOfPartsIff is the exact condition on a chunk for whatever precedes it.
- CompareStr: requires the condition of EndsIff, under which alone the loop ends; DpkgCompare, IsCovered, CheckBackport and CheckPort require the same of the comparisons they make.
- LabelsDecide: leaves open the names in which the loop reaches a label of 256 or more characters whose length is cut to 1 to 191, because there it goes on at an octet of the text; SkipInvertsEncodeIff has them, and LongLabelsGoEitherWay shows both outcomes.
- ScheduleIndependence: assumes that a check reports its own port and that its findings have scope PORT and that port and name no other host; StreamedIsReturnedIff is the exact statement without that.
- KexInitRoundTrip: does not state the alignment of section 6 of RFC 4253, because the code aligns the part after the length field.
- ReadAnswer: calls the result unspecified when the address of a malformed record would lie past the end of the message.
- EndsAtHundredIff: is about scans whose number of ports is an int; main.cpp:262 computes that number in int as well.
- ParseOperators: is one method for the five binary layers, which differ only in their operators and in the next tighter layer.
- PassOnPorts: is one method for the two plugin loops of run_all, which differ in the filter and in whether a claimed service is kept.
- ExpandCidr: takes std::stoi, inet_pton and inet_ntop as parameters; the warning is not modelled.
- Load: starts from the lines of the file, and the five fields of a CVE entry that ranges and ids do not depend on are not modelled.
- CheckPort: takes the distribution and revision that parse_distro_tag derives from the banner as inputs; severity, time, references and the fixed sentences of a description are not modelled.
- IsHandedOn: product and version, which are filled in likewise, are among the fields a finding only carries along.
- Service and distribution detection, native checks and the banner exchange of a port task: the checks of a port are an arbitrary function of it.
- ParsePrimary: takes the range of std::stod to be that of the GNU C library; the C standard leaves open whether a tiny number raises the exception.
- AcceptedProgramsAreTheNamedOnes: likewise.
- Number literals keep their text; std::stod, floating-point rounding and number formatting are parameters, scores are reals without NaN.
- Token positions are modelled in the lexer but not in the tree, and error messages keep what was expected, not its wording.
- The methods of strings and the natives other than Plugin.run are parameters of the evaluator; so are objects and their fields.
- The two-step wait on a condition variable is one step that releases the lock and sleeps; fairness of the scheduler is not assumed, which is why progress is stated as a bound and as absence of deadlock.
- std::sort is any sorted permutation.
- Several streaming clients: they only read the job record, so one is followed at a time.
- Sockets, files, the database, JSON text and the other routes of the web interface.
- A port task that throws ends the program, since the worker loop catches nothing; tasks are taken to return.
- The comma-separated list of `lookup`: it lists the ids of the entries that CheckPort reports.
