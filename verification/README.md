# A verified model of the w2g host

w2g lets WASI programs reach the host through layers on a message bus, checks
what they ask for against a rule engine, runs the real calls on a worker pool
and starts sandboxed child processes. This project models the parts of it whose
correctness is not visible in one function, and proves what they promise each
other. `dafny verify dfyconfig.toml` checks everything.

| file | what it models |
|---|---|
| `Paths.dfy`, `PathTheorems.dfy`, `PathMeaning.dfy` | the lexical path canonicaliser: the index loop refines "split, fold, print"; canonical forms, spellings, the prefix test, and what a path means without any stack |
| `Abac.dfy` | the deny-override rule engine on top of it: order-independence and confinement |
| `ArgvQuoting.dfy` | both Windows quoting printers, the `\x1f` layer and the command lines, against the parser of a C child process |
| `Bridge.dfy` | the GocVM worker pool as a state machine over its critical sections and notifications |
| `HandleTable.dfy` | the table of sockets, processes and TLS sessions, and who closes what |
| `Bytes.dfy`, `MsgCodec.dfy` | little-endian numbers and the frame format of the bus |
| `Bus.dfy` | layers, subscriptions, fan-out, call ids |
| `Stubs.dfy`, `Setup.dfy` | the eight default stub layers and their handlers; attaching them and a caller to a bus |
| `Calls.dfy`, `Progress.dfy`, `Outstanding.dfy` | `WasiNet` calls against those layers over rendezvous channels: correlation, a single call, any number of outstanding calls |
| `Pipes.dfy` | the in-memory pipe with its left-over bytes |
| `Comms.dfy` | typed TLV records over a pipe that fragments reads and writes |
| `Fields.dfy`, `Tallies.dfy`, `Options.dfy` | splitting and joining text; sums over a sequence; the optional value |

Code that changes things in place is a class or a loop, proved equal to a pure
function or state step; the theorems are about those functions and about all
runs of those steps. Bytes are characters below 256. Functions of the source
that may fail answer an `Option` or a failure value. Character classification
(`isalpha`, `tolower`) is the ASCII one.

Foreign code is a parameter: the bridge's backend is any
function of a job, the stub's backend any function of its call count, topic and
payload, the operating system's partial transfers any finite script, the
scheduler any interleaving of steps.

## What the proofs found

- A prefix rule is compared as raw text when its directory is rejected by the
  canonicaliser (`src/abac.cc:33-34`). That fallback is inert except for
  directories of exactly 4097 characters that are the canonical form of a drive
  path written without the slash behind its drive (`FallbackIff`).
- A relative path may have a canonical text that reads like a drive path:
  `./c:/x` canonicalises to `c:/x`, which `prefix:c:/` covers. Confinement holds
  exactly for all other paths (`ConfinementIff`, `RelativeDriveEscape`), allowing
  a directory confines those paths exactly when the directory is itself neither
  of that kind nor reached by the fallback (`DirectoryConfinesIff`), and
  canonical forms are fixed points exactly when `CanonicalFixedPoint` says so.
- An argument vector reaches the child of an exec request exactly when it is
  `Deliverable`: non-empty, with a non-empty program name, without `\x1f` or NUL,
  and with a program name that has no quote and, when it is quoted, no final
  backslash.
- All calls of one layer receive on the same pipe end and drop what is not their
  own. Calls that are outstanding together and answered by their handlers all
  return, in every run, if and only if they are to one stub (`AllReturnIff`):
  one stub's loop has one request in hand at a time, but with two stubs a call
  can take the reply to another one, which then waits for ever
  (`InterleavedCallStarves`). A single outstanding call always ends, and waits
  exactly when its handler answers nothing - which it does for a backend result
  of NOT_FOUND or INVALID_ARGUMENT (`src/stub.cc:68-71`).
- `RecvTLV` without a place for the value returns before it reads the payload
  (`src/s2/comms.cc:55`), so the stream stays aligned only if the payload is
  empty (`NullValueAlignedIff`).
- The repository's own README speaks of one worker thread (line 60); `src/gocvm_bridge.cc:44` starts
  four, and four are modelled. `docs/abac.md:39` leaves `os.Exec` out of the path
  actions that `src/abac.cc:20-23` has. The stub layers ask the engine about
  the bus topic (`src/stub.cc:52`), so `os.exec` is not the path action
  `os.Exec` there and its payload is matched as raw text.

## Model

| member | source | states |
|---|---|---|
| Paths.CanonicalPath | src/path.cc:8-57 | the loops compute `Canonical`: split the forward-slashed text, fold the fields on a stack of names, print root and names; empty for a rejected path |
| Paths.Prepare | src/path.cc:9-16 | empty, over-long or control-character input is refused, otherwise every `\` and nothing else became `/` |
| Paths.Scan | src/path.cc:24-46 | the index scan with its stack equals the fold of the split fields, and its early return is exactly the fold's refusal |
| Paths.PrintNames | src/path.cc:47-52 | the printing loop writes the names with a slash between each two |
| Paths.FoldConcat | src/path.cc:27-46 | the scan of a text continues from the stack left by its beginning |
| Paths.ResolveWellFormed | src/path.cc:8-57 | every accepted path means a root and ordinary names: non-empty, not `.` or `..`, without separators or control characters; a relative one has at least one name |
| Paths.CanonicalLength | src/path.cc:8-57 | a canonical form is at most one character longer than its input |
| PathTheorems.CanonicalShape | src/path.cc:8-57 | the empty answer is exactly rejection; an accepted path has a well-formed meaning and plain text |
| PathTheorems.SplitPrint | src/path.cc:47-52 | printing loses nothing: the fields of a printed path are its root's and its names |
| PathTheorems.ResolvePrint | src/path.cc:8-57 | reading a printed path gives back the root and the names it was printed from |
| PathTheorems.CanonicalFixedPoint | src/path.cc:8-57 | canonicalising a canonical form changes nothing if and only if it has at most 4096 characters and begins like a drive only as lower-case letter, colon, slash |
| PathTheorems.PrefixBoundIsUnder | src/path.cc:59-66 | on printed paths the character test is exactly: same root, and the names are a prefix of the names, for patterns that do not begin with a relative letter-colon name |
| PathTheorems.PrefixBoundFaithfulIff | src/path.cc:59-66 | and that proviso is exact: a pattern is tested faithfully against all such paths if and only if it is not itself relative letter-colon |
| PathTheorems.ShadowedPrefix | src/path.cc:59-66 | the failing family: a relative pattern that begins with letter-colon covers the drive path of the same text |
| PathTheorems.InsertedInvariant | src/path.cc:27-46 | a separator, `./` or `name/../` inserted after any separator leaves the meaning, rejection included |
| PathTheorems.DriveCaseInvariant | src/path.cc:18-20 | neither does the case of the drive letter matter |
| PathTheorems.RespellingInvariant | src/path.cc:8-57 | all respellings, separators swapped included, have one canonical form while within 4096 characters |
| PathTheorems.RejectedPrefixIff | src/path.cc:59-66 | a rejected pattern is a bounded prefix of a canonical path if and only if it is that path and has 4097 characters |
| PathTheorems.RejectedPrefixIsInert | src/abac.cc:32-35 | a rejected pattern of at most 4096 characters never is one |
| Abac.Engine.Allow | src/abac.cc:8-12 | appends an allowing rule and changes nothing else |
| Abac.Engine.Deny | src/abac.cc:14-18 | appends a denying rule and changes nothing else |
| PathMeaning.FoldMeaning | src/path.cc:27-46 | the scan leaves exactly the names that no later `..` fields lead above, and refuses exactly relative fields that lead above their start |
| PathMeaning.ResolveMeaning | src/path.cc:8-57 | a path is refused exactly when it is empty, over 4096 characters, has a character below 32 or 127, or is relative and leads above its start or keeps no name; otherwise its root is the drive in lower case, the slash or the start |
| PathMeaning.CanonicalMeaning | src/path.cc:47-56 | the canonical form is that root and the names that stay, a slash between each two |
| PathMeaning.EmptyMeaning | src/path.cc:53-55 | where no name stays, a relative path is refused and any other is its root alone |
| PathMeaning.CancelledRefused | src/path.cc:36-43 | `.` and a name followed by `..` are refused |
| PathMeaning.LowerCase | src/path.cc:19 | the letter a drive becomes |
| Abac.Engine.Check | src/abac.cc:50-69 | the early-exit loop decides: some rule allows, none denies, on a canonicalisable resource for the six path actions - by what the patterns say, as `PermitsIff` spells out |
| Abac.MatchIff | src/abac.cc:25-48 | a pattern for plain text is `*`, `prefix:` and a beginning, `suffix:` and an end, or the non-empty text itself |
| Abac.MatchPathIff | src/abac.cc:25-48 | a pattern for a path is `*`, `prefix:` and a directory, `suffix:` and an end of the canonical form, or any spelling of the path |
| Abac.PermitsIff | src/abac.cc:50-69 | a request is permitted if and only if an allowing rule has patterns for its subject, action and resource, no denying one has, and a path can be canonicalised |
| Abac.ExactPathIff | src/abac.cc:43-46 | a literal resource permits exactly the paths with the same canonical form |
| Abac.OrderIrrelevant | src/abac.cc:50-69 | order and repetition of rules never change a decision |
| Abac.DecisionIgnoresSpelling | src/abac.cc:55-59 | respelling the resource of a path action never changes a decision |
| Abac.PrefixPatternOnPath | src/abac.cc:31-36 | a prefix rule on a path tests the canonical directory; for a rejected directory it matches only the identical 4097-character resource |
| Abac.FallbackIff | src/abac.cc:33-34 | a rejected directory matches some canonical path if and only if it has 4097 characters, begins with a lower-case drive and a slash, and is the canonical form of itself without that slash |
| Abac.FallbackFiresAt4097 | src/abac.cc:33-34 | there is such a directory, matched by a concrete path |
| Abac.DeniedDirectoryIsClosed | src/abac.cc:61-67 | nothing at or below a denied directory is ever permitted, whatever is allowed |
| Abac.GrantSound | src/abac.cc:31-36 | a matching directory rule really has the resource below it |
| Abac.Confinement | src/abac.cc:50-69 | when all allowing rules for the request are directories, a permitted path lies below one of them by root and names, with nothing left to resolve |
| Abac.ConfinementIff | src/abac.cc:50-69 | for a given path this holds for all rule sets if and only if the path is not relative with a text like a drive path |
| Abac.DirectoryConfinesIff | src/abac.cc:31-36 | allowing one directory keeps every path that does not look like a drive path below it if and only if the directory is neither reached by the fallback nor relative letter-colon |
| Abac.UnsafeDirectory | src/abac.cc:31-36 | any other directory covers a drive path that does not lie below it |
| Abac.EscapingRules | src/abac.cc:50-69 | every path of the excluded kind escapes: the rule that grants the drive permits it |
| Abac.DotRelative | src/path.cc:36 | behind `./` every list of names can be spelt, also one that begins with a drive |
| Abac.RelativeDriveEscape | src/abac.cc:50-69 | `./c:/x` is permitted by `prefix:c:/` without lying below that directory |
| ArgvQuoting.QuoteArg | src/sapi/real_win.cc:50-76 | the look-ahead printer computes the escaped form, or leaves a plain token alone |
| ArgvQuoting.ParserRules | src/sapi/real_win.cc:46-49 | the child's parser follows the documented rules: 2n and 2n + 1 backslashes before a quote, other backslashes, opening, closing and doubled quotes, blanks |
| ArgvQuoting.ProgramRules | src/sapi/real_win.cc:46-49 | and for the program name: quotes and blanks only |
| ArgvQuoting.CStringWhole | src/s2/os_win.cc:120-126 | widening keeps the text up to its first NUL |
| ArgvQuoting.PlainToken | src/sapi/real_win.cc:51-53 | plain is exactly: non-empty and without blank, line feed, vertical tab or quote |
| ArgvQuoting.Quote | src/s2/os_win.cc:128-156 | the streaming printer computes the same escaped form from its running slash count |
| ArgvQuoting.QuotersAgreeIff | src/s2/os_win.cc:128-156 | the two printers differ exactly on otherwise plain arguments with a line feed or vertical tab |
| ArgvQuoting.EscapeParses | src/sapi/real_win.cc:58-75 | inside quotes the parser reads the escaped text back and stops at the closing quote, whatever backslashes precede it |
| ArgvQuoting.QuotedParses | src/sapi/real_win.cc:50-76 | every argument is read back from either printer's output, wherever it stands on the line |
| ArgvQuoting.TailParses | src/sapi/real_win.cc:289-293 | and so is a whole list of arguments joined by spaces |
| ArgvQuoting.ProgramParses | src/sapi/real_win.cc:50-76 | under the program-name rule an argument survives exactly when it has no quote and, if it was quoted, no final backslash |
| ArgvQuoting.ExecPayload | src/wasi.cc:52-57 | the payload is the arguments joined with `\x1f` |
| ArgvQuoting.FindUnit | src/sapi/real_win.cc:266 | the next separator from a position, or the end |
| ArgvQuoting.SplitArgv | src/sapi/real_win.cc:262-272 | the loop yields exactly the fields between separators, empty ones included |
| ArgvQuoting.SplitJoinIff | src/sapi/real_win.cc:262-272 | splitting the joined vector returns it if and only if it is non-empty and free of `\x1f` |
| ArgvQuoting.BuildCommandLine | src/sapi/real_win.cc:284-293 | the launcher's line: every field quoted, joined by spaces, or the empty-argv error |
| ArgvQuoting.ChildArgvNoNul | src/sapi/real_win.cc:294 | no argument a child sees holds a NUL, since its line ends at the first one |
| ArgvQuoting.LineParses | src/sapi/real_win.cc:289-293 | a line of quoted NUL-free arguments is read as those arguments, or else with another program name |
| ArgvQuoting.ArgvRoundTripIff | src/sapi/real_win.cc:284-293 | from `Exec` through payload, split, quoting and the child's parser: the same argv arrives if and only if it is deliverable |
| ArgvQuoting.GeneralRulesReadAll | src/sapi/real_win.cc:284-293 | a child that reads the whole line by the general rules gets every argument, any program name included |
| ArgvQuoting.BuildSpawnLine | src/s2/os_win.cc:246-254 | the sandbox line: the arguments cut at NUL and quoted, or the quoted path without any |
| ArgvQuoting.SpawnRoundTripIff | src/s2/os_win.cc:246-254 | a sandboxee receives its argv (or path) if and only if it is NUL-free with a safe program name |
| Fields.SplitJoin | src/sapi/real_win.cc:262-272 | separator-free fields survive joining and splitting |
| Fields.SplitConcat | src/sapi/real_win.cc:262-272 | a text split at a separator has the fields of its two sides |
| Bridge.StepInv | src/gocvm_bridge.cc:46-152 | every step of every thread keeps conservation, order, the absence of lost wakeups on both condition variables, and the shutdown order |
| Bridge.ReachableInv | src/gocvm_bridge.cc:46-152 | so they hold after every interleaving from the start |
| Bridge.WakeupsKept | src/gocvm_bridge.cc:72-81 | while a worker is parked before shutdown, queued jobs are at most pending notifies plus awake idle workers; likewise results against waiters - under spurious wakeups and with unlock and notify apart |
| Bridge.ConservedKept | src/gocvm_bridge.cc:101-150 | the ids taken from the queue are in flight, in the result queue or delivered, each exactly once, and no other id is anywhere |
| Bridge.OrderKept | src/gocvm_bridge.cc:72-81 | ids count up with submissions and the queue is always the end of the submission order |
| Bridge.RunningKept | src/gocvm_bridge.cc:112-114 | a job in flight is the submitted one of its id |
| Bridge.AnswersKept | src/gocvm_bridge.cc:120-148 | a queued or delivered completion is the backend's outcome for the job of its id |
| Bridge.CompletionIff | src/gocvm_bridge.cc:131-143 | what a completion reports: success and the text for OK, else an error with the text, or for NOT_FOUND with the job's own topic |
| Bridge.CompletionsInOrder | src/gocvm_bridge.cc:83-96 | completions are handed out in the order in which they were queued |
| Bridge.RunInOrder | src/gocvm_bridge.cc:83-96 | so over any run what was delivered and what waits only grows at its end |
| Bridge.AtMostFourInFlight | src/gocvm_bridge.cc:44-52 | queued, in-flight, completed and delivered ids add up to the ids given, and at most four are in flight |
| Bridge.ShutdownKept | src/gocvm_bridge.cc:59-68 | after `notify_all` no worker is parked; a worker leaves only after shutdown with the queue drained |
| Bridge.QueuedJobIsServed | src/gocvm_bridge.cc:99-111 | before shutdown a queued job never lies idle: a notify is pending, a worker is about to look, or all are busy |
| Bridge.DeliveredIsOwnAnswer | src/gocvm_bridge.cc:83-96 | each delivered completion reports the backend's reply to its own submission - ok exactly for OK, with its text, else the error - and that id is nowhere else |
| Bridge.InternalStepsBounded | src/gocvm_bridge.cc:59-68 | however steps interleave, the threads of the bridge take no more steps than the work present and brought: they terminate |
| Bridge.QuiescentState | src/gocvm_bridge.cc:59-68 | where they stop, all jobs submitted before shutdown were run and are delivered or in the result queue exactly once; after shutdown every worker has returned |
| Bridge.AsyncSapiBridge.constructor | src/gocvm_bridge.cc:48-52 | the start state satisfies the invariant |
| Bridge.AsyncSapiBridge.SubmitLocked | src/gocvm_bridge.cc:72-78 | the job with its topic and payload joins the queue under the next id, which is returned |
| Bridge.AsyncSapiBridge.PollOne | src/gocvm_bridge.cc:83-89 | delivers the oldest result, or changes nothing when there is none |
| Bridge.AsyncSapiBridge.WaitOneLocked | src/gocvm_bridge.cc:91-96 | one pass of the wait: delivers the oldest result, or parks |
| Bridge.AsyncSapiBridge.WorkerLocked | src/gocvm_bridge.cc:101-114 | parks on an empty queue before shutdown, leaves on an empty one after it, otherwise takes the oldest job |
| Bridge.AsyncSapiBridge.WorkerFinish | src/gocvm_bridge.cc:120-148 | one completion is queued that reports the backend's reply to this job |
| Bridge.AsyncSapiBridge.SetShutdown | src/gocvm_bridge.cc:59-63 | the destructor's critical section is the shutdown step |
| Bridge.AsyncSapiBridge.Move | src/gocvm_bridge.cc:79-80 | notifications, wakeups and entries into `WaitOne` change no field and keep the invariant |
| HandleTable.RunInv | src/sapi/handles.cc:39-113 | over every sequence of operations: handles are 1 to the counter, the three maps are disjoint, live entries are those registered, closings account for every slot |
| HandleTable.LookupFindsAllocation | src/sapi/handles.cc:65-79 | a handle is in one map only, with exactly what it was allocated for; only a process whose standard input was closed has a null one |
| HandleTable.LiveByHistory | src/sapi/handles.cc:105-113 | and over every history that is exactly when a close of standard input found the handle registered |
| HandleTable.LiveAfter | src/sapi/handles.cc:39-113 | what each operation does to every handle: one added, one removed, one standard input cleared, all others as before |
| HandleTable.CloseOrder | src/sapi/handles.cc:83-102 | the close calls of a release, in their order, invalid slots passed over |
| HandleTable.HandlesNeverReused | src/sapi/handles.cc:39-63 | an allocation returns a handle never given before, and a released one is dead after any further operations |
| HandleTable.ClosedExactlyOnce | src/sapi/handles.cc:81-113 | a valid slot is closed at most once, and exactly once after its handle is gone, standard input closed early or not |
| HandleTable.DistinctResourceClosedOnce | src/sapi/handles.cc:81-113 | a resource registered in one slot of one handle is closed at most once by anyone, and once after the release |
| HandleTable.CloseCallsCount | src/sapi/handles.cc:83-102 | a release closes every valid slot of its own handle once and nothing else |
| HandleTable.HandleMap.AllocSocket | src/sapi/handles.cc:39-44 | the whole new table: next handle, one more socket |
| HandleTable.HandleMap.AllocProcess | src/sapi/handles.cc:46-51 | likewise for a process |
| HandleTable.HandleMap.AllocTls | src/sapi/handles.cc:53-63 | likewise for a TLS session |
| HandleTable.HandleMap.LookupSocket | src/sapi/handles.cc:65-69 | finds exactly live sockets, with the entry that was registered |
| HandleTable.HandleMap.LookupProcess | src/sapi/handles.cc:70-74 | finds exactly live processes, with exactly the entry the table holds |
| HandleTable.HandleMap.LookupTls | src/sapi/handles.cc:75-79 | finds exactly live sessions, with the entry that was registered |
| HandleTable.HandleMap.Release | src/sapi/handles.cc:81-103 | the close calls in order, and the entry gone from its map |
| HandleTable.HandleMap.CloseProcessStdin | src/sapi/handles.cc:105-113 | closes a valid standard input and marks it closed, otherwise changes nothing |
| Bytes.U32RoundTrip | include/w2g/msg.h:59-81 | the little-endian bytes of a number give the number, and any four bytes are those of their number |
| Bytes.LittleEndian32 | include/w2g/msg.h:59-64 | the lowest byte comes first |
| Bytes.LittleEndian16 | include/w2g/msg.h:54-57 | the same for two bytes |
| Bytes.U16RoundTrip | include/w2g/msg.h:54-71 | the same for two bytes |
| MsgCodec.Encode | include/w2g/msg.h:102-120 | the frame of an in-limit message, nothing for one over a limit |
| MsgCodec.GetBytes | include/w2g/msg.h:83-100 | the next bytes and the advanced cursor, or refusal when too few are left |
| MsgCodec.Decode | include/w2g/msg.h:122-137 | accepts exactly the frames of in-limit messages, and answers the message framed |
| MsgCodec.DecodedFrame | include/w2g/msg.h:102-137 | decoding an encoded message returns it |
| MsgCodec.FrameLengths | include/w2g/msg.h:102-120 | the lengths and the id read from a frame are the message's |
| MsgCodec.LimitsAndVersion | include/w2g/msg.h:104-109 | the three limits in numbers, and version 1 in front |
| MsgCodec.PrefixFree | include/w2g/msg.h:102-137 | no frame is a strict beginning of another, and equal frames are of equal messages |
| MsgCodec.RefusedIffOverLimit | src/bus.cc:91-94 | the empty-bytes test of `Publish` fires exactly on over-limit messages |
| Bus.OperationsKeepWellFormed | src/bus.cc:23-72 | attach, subscribe and close keep: at most 64 layers, valid distinct names, valid topics each once, and both pipe ends open exactly until the layer is closed |
| Bus.AttachedIff | src/bus.cc:23-35 | a layer is attached exactly for a new name of 1 to 128 characters without NUL beside fewer than 64 others |
| Bus.SubscribedIff | src/bus.cc:51-62 | a subscription succeeds exactly for `*` or 1 to 256 characters without NUL, and adds the topic once to that layer only |
| Bus.ClosedIff | src/bus.cc:64-72 | closing changes that layer only: its flag and both pipe ends |
| Bus.UnnamedRefused | src/bus.cc:55-66 | without a layer of that name both are refused |
| Bus.ReceivedIff | src/bus.cc:113-131 | a receive answers a message exactly for the frame of one read on an open layer; closed pipe and pipe error have their exact cases |
| Bus.NoLayerIff | src/bus.cc:114-117 | and the missing layer its own |
| Bus.TargetsExact | src/bus.cc:97-103 | a layer is in the snapshot exactly if it is open, has another name than the sender and is subscribed to the topic or to `*`; in order |
| Bus.TargetsOnce | src/bus.cc:97-108 | each of them exactly once |
| Bus.PublishedIsReceived | src/bus.cc:90-131 | what `Publish` delivers to a layer, `Recv` on that layer returns as the message published |
| Bus.IdClosedForm | src/bus.cc:136-137 | the id after any number of calls in closed form, over the 32-bit wrap and the skipped zero |
| Bus.IdsDistinct | src/bus.cc:136-137 | ids are never zero and differ over any 2^32 - 1 consecutive calls |
| Bus.IdsRepeatAfterPeriod | src/bus.cc:136-137 | the bound is tight: the next id repeats |
| Bus.Hub.Find | src/bus.cc:37-42 | the first layer of a name, or none |
| Bus.Hub.Attach | src/bus.cc:23-35 | a new open layer without topics, unless the name is invalid or taken or 64 are attached |
| Bus.Hub.Subscribe | src/bus.cc:51-62 | the topic joins the layer's topics once, or a refusal without change |
| Bus.Hub.CloseLayer | src/bus.cc:64-72 | the layer is marked closed and both its pipe ends are closed; a second close changes nothing |
| Bus.Hub.MatchesTopic | src/bus.cc:74-79 | true exactly when the layer has the topic or `*` |
| Bus.Hub.BeginPublish | src/bus.cc:90-104 | refuses exactly over-limit messages, otherwise frame and snapshot, which are the open other layers subscribed to the topic or to `*` |
| Bus.Hub.Publish | src/bus.cc:90-111 | the frame goes to those layers in order until a write fails, to no other, and on success to each of them |
| Bus.Hub.Recv | src/bus.cc:113-131 | no layer, closed layer, pipe error, bad frame, or the decoded message |
| Bus.Hub.TakeId | src/bus.cc:136-137 | the next 32-bit id, zero skipped |
| Stubs.ConstantsDistinct | src/stub.cc:15-25 | names, request topics and reply topics of the eight stubs are pairwise distinct, and none is `*` |
| Setup.AttachCaller | src/wasi.cc:7-29 | on any bus: the layer unless it is there, then its eight reply topics until one is refused |
| Setup.AttachedCallerHears | src/wasi.cc:7-29 | on any bus a successful attach leaves the caller subscribed to the reply of every stub |
| Setup.AttachStub | src/layer.cc:5-13 | on any bus: the stub's layer unless it is there, then its request topic |
| Setup.Install | src/layer.cc:39-46 | the eight default stubs in order until one is refused |
| Setup.TopologyInstalled | src/stub.cc:104-115 | on a fresh bus attaching a caller and installing the stubs refuses nothing and yields the nine layers of the calls below |
| Setup.OneListener | src/bus.cc:97-103 | in that topology a request has its own stub as only target, and a reply the caller |
| Stubs.HandleAddressed | src/stub.cc:41-77 | whatever is asked, an answer is in limit, from the stub's own layer and with the request's id; a request on the stub's topic is answered on its reply topic |
| Stubs.HandleIff | src/stub.cc:41-77 | the answer to a stub's own request carries the fixed text when the gate is shut or the engine refuses, otherwise the first 4096 bytes of what the backend returned for this request |
| Stubs.SilentIff | src/stub.cc:68-71 | there is no answer exactly for a backend result of NOT_FOUND or INVALID_ARGUMENT to a request that was let through |
| Stubs.RefusalIgnoresBackend | src/stub.cc:43-58 | a refused request is answered alike for any two backends |
| Stubs.UnknownIsSilent | src/sapi/handle.cc:109-110 | a topic the channel does not know is not answered |
| Stubs.KnownAnswers | src/sapi/handle.cc:105-129 | a known topic is answered on the topic with a suffix, with the backend's result cut to the buffer |
| Stubs.SapiPaired | src/sapi/handle.cc:105-129 | the channel answers a stub's request on the reply topic the stub announces |
| Calls.BeginInv | src/bus.cc:133-143 | beginning a call keeps the invariant of all calls, handled requests and serve loops |
| Calls.ToServerInv | src/layer.cc:15-29 | so does a request's meeting with its serve loop |
| Calls.ToCallerInv | src/bus.cc:144-147 | and a reply's meeting with any waiting call |
| Calls.ReachableInv | src/bus.cc:133-148 | so it holds after every interleaving |
| Calls.CallReturnsOwnReply | src/bus.cc:133-148 | of any number of interleaved calls up to 2^32 - 1, one that returns has its own handler's answer to its own request, with the backend's bytes for it, handled exactly once |
| Progress.SingleCallCompletes | src/bus.cc:133-148 | a single outstanding call ends within two rendezvous in every run: refused when over the limit, returned with its handler's answer, or waiting exactly when there is none |
| Outstanding.OneStubReturns | src/bus.cc:144-147 | any number of calls to one stub, begun at any time of the run: where nothing moves any more, all have returned |
| Outstanding.DifferentStubsStarve | src/bus.cc:144-147 | with outstanding calls to two stubs there is a run to the end that leaves a call waiting, although every handler answers |
| Outstanding.AllReturnIff | src/bus.cc:133-148 | calls begun together with answering handlers all return in every run if and only if they are to one stub |
| Outstanding.InterleavedCallStarves | src/bus.cc:144-147 | of two calls to different stubs the second can return and leave the first waiting for ever, although both were answered |
| Pipes.ReadAnswers | include/w2g/pipe.h:52-72 | why a read fails, case by case, and otherwise how many bytes it returns and what it keeps |
| Pipes.ReadMsgAnswers | include/w2g/pipe.h:75-95 | the same for whole messages |
| Pipes.StreamRefinement | include/w2g/pipe.h:52-95 | under every interleaving of `Read` of any size, `ReadMsg` and closes, bytes returned and left over are exactly the bytes written |
| Pipes.EofOnlyAfterDrained | include/w2g/pipe.h:60-66 | the end is reported exactly when the writer has closed and an open reader has had every byte |
| Pipes.MessagesAreWrites | include/w2g/pipe.h:75-95 | with `ReadMsg` alone the messages are the writes, one by one, empty ones too |
| Pipes.Conn.Connected | include/w2g/pipe.h:130 | a new end is open and has nothing left over |
| Pipes.Conn.Write | include/w2g/pipe.h:97-110 | what is sent is a fresh copy, out of reach of later changes to the writer's buffer |
| Pipes.Conn.Read | include/w2g/pipe.h:52-72 | the buffer is filled as the pure step says, the rest of it untouched, what did not fit is kept |
| Pipes.Conn.ReadMsg | include/w2g/pipe.h:75-95 | the whole left-over or the next write, as the pure step says |
| Pipes.Conn.Close | include/w2g/pipe.h:112-123 | closes the channel at the first call only |
| Pipes.Duplex.constructor | include/w2g/pipe.h:130-140 | a new pipe: two open ends, nothing in flight in either direction |
| Pipes.Duplex.Read | include/w2g/pipe.h:52-72 | a read meets the peer's write or close: what it returns and leaves over continues the stream of its direction, whatever callers did with their own buffers meanwhile |
| Pipes.Duplex.ReadMsg | include/w2g/pipe.h:75-95 | likewise, and the buffer of the message is handed over |
| Pipes.Duplex.Close | include/w2g/pipe.h:112-123 | ends the reads of one end and the stream to the other |
| Pipes.ReusedBuffer | include/w2g/pipe.h:105-108 | a writer may overwrite its buffer at once: the reader still gets the rest of what was written |
| Pipes.ReadEnd | include/w2g/pipe.h:52-72 | a read of a connection is a step of the flow it reads |
| Pipes.ReadMsgEnd | include/w2g/pipe.h:75-95 | and so is a message read |
| Pipes.Copy | include/w2g/pipe.h:69 | as many bytes as both sides have, the rest of the buffer untouched |
| Comms.AvailabilityIrrelevant | src/s2/os_posix.cc:69-84 | more bytes behind the wanted ones never change a transfer |
| Comms.PosixMoves | src/s2/os_posix.cc:52-84 | data in any pieces, with any interruptions between them, all arrives as far as it is wanted |
| Comms.PosixStops | src/s2/os_posix.cc:58-62 | a failing call or one without data ends the transfer where it is |
| Comms.WindowsMoves | src/s2/os_win.cc:57-87 | data in pieces that are together not too long all arrives |
| Comms.WindowsStops | src/s2/os_win.cc:64-66 | any failure, an interruption and a piece too long included, ends the transfer where it is |
| Comms.RecordBytes | src/s2/comms.cc:42-46 | the bytes of a record: tag and length with the lowest byte first, then the data |
| Comms.ValueBytes | src/s2/comms.cc:69-140 | the tags 1 to 5 and the bytes of each kind of value |
| Comms.UnpackIff | src/s2/comms.cc:75-140 | a typed receive answers exactly a record of its tag and, for fixed-size kinds, of exactly that size, with the value those bytes stand for |
| Comms.ShortReceive | src/s2/comms.cc:49-67 | a receive that runs out of bytes fails, has consumed those that came and leaves the handles open |
| Comms.PosixWrite | src/s2/os_posix.cc:52-67 | sends the beginning that the script's pieces add up to, interrupted calls retried, and succeeds exactly when that is all |
| Comms.WinWrite | src/s2/os_win.cc:57-71 | likewise with the Windows failure conditions |
| Comms.PosixRead | src/s2/os_posix.cc:69-84 | fills the buffer with the next bytes in order and leaves the others in the pipe |
| Comms.WinRead | src/s2/os_win.cc:73-87 | likewise with the Windows failure conditions |
| Comms.UnpackPack | src/s2/comms.cc:69-140 | a typed value is returned by a receive of its own kind, unchanged, and by no other |
| Comms.RecordReceived | src/s2/comms.cc:49-67 | a record within the limit is received whole and the stream advances by exactly it, however fragmented |
| Comms.SendAppends | src/s2/comms.cc:39-47 | a successful send appends exactly the record, a failed one exactly the beginning that was transferred; success is exactly in limit, open and transferred |
| Comms.OversizeTerminates | src/s2/comms.cc:56-59 | an announced length over the limit closes both handles, and no later send or receive does anything |
| Comms.NullValueAlignedIff | src/s2/comms.cc:55 | a receive without a place for the value stays aligned if and only if the record has no data |
| Comms.SendAllWrites | src/s2/comms.cc:39-47 | a sequence of successful sends writes the concatenation of the records |
| Comms.RecvAllReads | src/s2/comms.cc:49-67 | a sequence of receives takes one record each, whatever its tag, and stays aligned on the next |
| Comms.StreamInOrder | src/s2/comms.cc:39-67 | end to end, for any fragmentation on both sides |
| Comms.ValuesInOrder | src/s2/comms.cc:69-140 | the values themselves arrive in order; a receive of another kind fails and loses that value only |
| Comms.Channel.SetMaxMsgBytes | include/w2g/s2/comms.h:38 | zero restores the default limit |
| Comms.Channel.Terminate | src/s2/comms.cc:8-11 | both handles are closed, nothing else changes |
| Comms.Channel.WriteAll | src/s2/comms.cc:13-18 | nothing goes out on a closed handle; otherwise the beginning that the transfers move, and success exactly when that is all |
| Comms.Channel.ReadAll | src/s2/comms.cc:20-25 | nothing is taken on a closed handle; otherwise what the transfers move leaves the stream, and success means exactly the wanted bytes |
| Comms.Channel.SendTLV | src/s2/comms.cc:39-47 | nothing is written for an over-limit value or on a closed end; otherwise header and then data, each as far as the transfers go, and the answer is whether all of it went |
| Comms.Channel.RecvTLV | src/s2/comms.cc:49-67 | takes a header; an announced length over the limit closes both handles, otherwise the value is taken and returned when it is complete |
| Comms.Channel.SendValue | src/s2/comms.cc:69-140 | the value's bytes go out as one record under its own tag |
| Comms.Channel.RecvValue | src/s2/comms.cc:69-140 | one record is consumed, whatever it holds; a value is returned exactly when tag and size fit the kind |

## Left out

- Winsock, `CreateProcess`, user, registry and environment calls: foreign, an arbitrary backend function here.
- `src/sapi/tls_win.cc`: its correctness rests on the security package behind it.
- Job objects, resource limits, fork, mappings and process waiting in `src/s2/`: thin wrappers of the operating system.
- What the backend does on each topic of `src/sapi/handle.cc`: the topic table and the truncation are modelled, the dispatch is a parameter.
- Conversion between UTF-8 and UTF-16 and locale-dependent letters: characters stand for both encodings.
- Allocation failure, and overflow of the 64-bit ids and handles.
- Endless interruption of a read or write: scripts are finite, an exhausted one counts as failure.
- The wasigo runtime: channels are assumed to be rendezvous, and closing a channel under a blocked send is not modelled.
- Writing to a pipe whose reader was closed meanwhile: `Bus.Hub.Publish` takes the success of each write as a parameter.
- The mutexes of bridge and handle table: critical sections are atomic steps.
- Calls of `WaitOne`, `PollOne` or `Submit` after the bridge was destroyed; a submit after the shutdown flag only sets `late`.
- Release of a handle while another call uses it: the caller's obligation in the source.
- The payload texts of `WasiNet::Dial`, `Listen`, `Syscall` and the like: one concatenation each; payloads are arbitrary.
- Null data pointers given to the send functions, and a null message or reply given to a decoder or handler: the types exclude them.
- `ServeGxx`, `AttachStubs`, `Registry::Close` and extra layers beyond the default stubs in `Calls`: the same serve loop over other constants.
- Fan-out to several targets inside `Calls`: its topology has one target for each message; any number of targets is covered by `Bus`.
- Paths.CanonicalPath: the source has one function; its three loops are methods of their own here.
- Setup.AttachCaller: a loop over the eight reply topics stands for eight statements.
- Comms.Channel.SendValue: one method stands for the five typed send functions.
- Comms.Channel.RecvValue: one method stands for the five typed receive functions; the receives into a null pointer are covered by `NullValueAlignedIff`.
- Pipes.Conn.Read: the caller's buffer is not the one behind the left-over bytes, which is a private copy no caller can reach.
- HandleTable.HandleMap.LookupSocket: returns the entry by value, not the pointer into the map.
- The worker's thread id in a completion and the one-megabyte cut of a reply text in the bridge: part of the backend function.
