# runq, modelled and proved in Dafny

runq runs Docker containers inside QEMU virtual machines. This project models
the parts of it whose correctness is not visible in any single function and
proves what they promise over all inputs, all runs and all interleavings.
`dafny verify dfyconfig.toml` checks everything.

The parts, and the files that hold them:

* **Image shrinker** (`shrink_containers.py`): `Paths`, `FileTree`, `Shrinker`,
  `ShrinkTexts`, `ShrinkProofs`,
  `ShrinkTheorems`, `ShrinkReach`, `ShrinkExact`, `WitnessArchives`. An archive is a sequence of
  entries; its file system is a map from normal-form paths to directories,
  links, files and special nodes. `FileTree.Walk` resolves paths as in section
  4.13 of the POSIX.1-2017 Base Definitions, in a chroot or in a plain
  directory tree. `Shrinker.ShrinkImage` is the program: log, first pass (symlink
  tree, shebang table, growing path set), second pass over a snapshot of the
  path set in arbitrary order, filter.
* **Job table of vsockd and its client runq-exec**: `JobTable`, `JobProofs`,
  `JobTheorems`, `JobCollisions`, `JobRuns`, `ExitStatus`, `ExecChain`, `Decimal`,
  `Basics`. One
  atomic step per region between Lock and Unlock, interleaved in any order over
  any finite number of connections; the expiry may fire any time after the
  insert. Job ids are arbitrary; where distinctness matters it is a hypothesis
  and its violation is analysed.
* **Channel between proxy and init**: `Wire` (frames, and init's decoder with
  its discarded buffered reader), `InitRun` (init's goroutines and the
  once-only shutdown), `Channel`, `ChannelProofs`,
  `ChannelTheorems`, `ChannelLimits` and `ChannelSignals` (both processes and both byte streams, 18 kinds of steps).
* **Network renaming** (`Network`), **disks** (`Disks`), **tmpfs options**
  (`Tmpfs`), **image list as JSON** (`ImageJson`).

## What is proved

* A path in the trace log that opens a regular file in the exported image opens
  the same file with the same content in the reduced image, through any chain
  of links, and so does the interpreter of a traced script. This holds for
  every image whose link texts have `..` only in front and stay below the root.
  For arbitrary paths and arbitrary link texts it is proved exactly which
  paths survive (`ShrinkExact.SurvivesExactly`): those whose file some followed
  path is, leads to through a different spelling or a link, or names as
  interpreter. "Leads to" is said of the image, read as the symlink tree
  reads it (`ShrinkReach.View`): the path does not start with exactly two
  slashes, enters no directory without files or links below it and does not
  use `..` at the root; an absolute link text is normalised lexically. Four
  concrete archives show traced files that are lost.
* When the shrinker aborts, exactly: an entry cannot be read, or a followed path
  leads to a script whose interpreter starts with two slashes, uses `..` at the
  root or is behind too many links. Archives that abort are given.
* Shrinking a reduced archive again always succeeds. It returns the archive
  unchanged if no followed path contains `..` and link texts are as above, and
  for arbitrary ones if and only if each file left is still wanted in the image
  without the others; a concrete archive shows a file that only the second run
  drops.
* The paths that are followed are those in the log and the interpreters chained
  to them in archive order (`ShrinkExact.Chained`).
* In every interleaving of vsockd a command is launched at most once, never for
  an expired job; a client is sent at most one exit code, that of the
  execution of its own job, and reads the command's exit status or 128 plus its
  signal, through nsenter, the error mapping and the text;
  and from every state in which a job waits there is the run that answers its
  client. Every run over n connections ends after at most 5n steps with an
  empty table.
  At its end every connection was closed exactly once if and only if no step
  clashed: no insert overwrote an entry, and no control goroutine expired the
  job of another connection (`JobTheorems.Clash`). Ids that are not in use when
  drawn never clash. An overwritten entry leaves a control connection open for
  good, and a run is given in which a reused id does.
* A code other than 1 returned by the proxy is the byte of init's one effective
  shutdown, written after the handshake byte. The handshake byte is never taken
  for exit code 0. Once both bytes are written, every continuation returns the
  code, unless the VM or a step of the proxy fails or a timeout fires; then it
  returns 1. The proxy can panic only before it has taken the handshake, when
  both bytes arrive in one read; such a run is given.
* The code of init's shutdown is a function of the events, in every
  interleaving (`InitRun.Verdict`): if the main goroutine calls first, that of a
  start failure or else 1; if the waiter calls first, 1 when the reaper was
  faster and the documented exit code of the entrypoint otherwise.
* Init's decoder loses no byte if and only if no read crosses the end of a
  frame (`Wire.Aligned`, on messages and read sizes alone), and then and only
  then delivers exactly the frames sent; this also holds in every run of both
  processes, with the frames sent and the sizes of init's reads in it. The first message is always vmdata,
  and then come exactly the signals the proxy was asked to forward. Two
  signals that are in the socket at once can lose the second one.
* `setupNetwork` succeeds if and only if an explicit condition on names holds;
  on success links and networks correspond one to one. A link gets its
  network's name if and only if there are several networks or it had that name
  before.

## Findings about the code

* A log entry that is not in normal form, such as `/usr//bin/x`, does not keep
  its file unless it passes through a link: line 459 of `shrink_containers.py`
  skips it because the resolved path equals the parsed one.
* A file that starts with `#!` and nothing else on that line, a link text that
  starts with exactly two slashes, and an interpreter that starts with two
  slashes and is looked up through a link abort the shrinker with an exception.
* An absolute link text with `..` behind a link is normalised lexically, and the
  file it really leads to is dropped.
* A second run can drop a file that the first one kept, when its path uses `..`
  behind a directory whose files were all dropped.
* A job id that is drawn while its entry is listed leaves a connection open. One
  that only a sleeping control goroutine still has does so exactly if that
  goroutine wakes up while the new job is still waiting.
* The buffered reader in `cmd/init/channel.go` is thrown away together with
  whatever it fetched beyond the payload, up to 15 bytes for a signal frame; a
  read that reaches this bound is given.
* The code of a failed start of vsockd (126 or 127) can become the container's
  exit code although the entrypoint is running; such a run is given.
* With one network the link keeps the kernel's name, whatever the
  configuration says.

## Assumptions

* Archives are as `docker export` writes them: normal-form, distinct names,
  nothing below a node that is not a directory, no hard links; the statements
  about arbitrary paths in the reduced image also ask that every directory has
  an entry. Log entries and
  interpreters are valid UTF-8. A path that leaves the temporary symlink tree
  does not come back into it.
* Limits on the number of links followed are parameters; the interpreter
  theorem asks that `Path.resolve` follows at least as many as stat.
* A frame reaches the socket in pieces of any size, reads return any number of
  bytes the buffer admits, and writes of the ack pump may fail; the payload
  encoding of vmdata is a parameter.
* Init makes no step once the VM is down; what it has written can still be read.
* The exit code text reaches runq-exec in one read.
* The kernel refuses a link name that another link has, and nothing else.

## Model

| member | source | states |
|---|---|---|
| `FileTree.RelPathReachesTarget` | shrink_containers.py:416-418 | an absolute link text rewritten relative to the link's directory resolves from there as the lexical normal form of the text does from the root, whatever follows it and with any number of `..` |
| `FileTree.RelPathReachesNames` | shrink_containers.py:416-418 | without `..` it resolves exactly as the absolute text itself |
| `FileTree.LexicalIsPhysical` | shrink_containers.py:416-418 | where no link is in the way, a path that resolves resolves as its lexical normal form does |
| `FileTree.RealpathFollowsWalk` | shrink_containers.py:457-458 | where stat succeeds, the non-strict resolve gives the same path |
| `FileTree.RealpathFails` | shrink_containers.py:467-471 | the resolve fails where it leaves the tree or meets a link too many |
| `Shrinker.ShebangOf` | shrink_containers.py:431-440 | after `#!` and blanks, written out as characters, the first word is the interpreter if it starts with a slash and ignored if not, whatever follows it |
| `Shrinker.ShebangIff` | shrink_containers.py:431-440 | every content is one of: no `#!` at its start; no word after it on the first line; a word that does or does not start with a slash |
| `ShrinkTexts.ComponentsOf` | shrink_containers.py:450-455 | a path text is cut at every slash; an empty part, a dot and two dots are special and every other part is a name |
| `ShrinkTexts.DoubleRootText` | shrink_containers.py:452-455 | the texts with a root of their own are those that start with exactly two slashes |
| `ShrinkTexts.AlwaysKeptNames` | shrink_containers.py:372-384 | the six paths that are always kept |
| `ShrinkTexts.TracedTexts` | shrink_containers.py:372-390 | the initial path set is these and the log entries that start with a slash |
| `Shrinker.ReadLog` | shrink_containers.py:372-390 | the initial path set is the fixed paths and the absolute entries of the log |
| `Shrinker.ScanArchive` | shrink_containers.py:409-445 | the first pass yields the symlink tree, the shebang table and the path set grown in archive order, and raises exactly on the unreadable entries |
| `Shrinker.FollowPaths` | shrink_containers.py:450-475 | whatever the order of the set, the second pass adds what each path contributes and raises exactly when one of them does |
| `Shrinker.FilterArchive` | shrink_containers.py:481-493 | directories, links and entries in the path set are copied in order |
| `Shrinker.ShrinkImage` | shrink_containers.py:371-496 | the whole program computes the reduced archive, or aborts |
| `ShrinkProofs.CarryWalk` | shrink_containers.py:409-426 | a path that resolves to a file resolves to it in any file system with the same links and that file, even if other files and directories are missing |
| `ShrinkTheorems.TreeAgrees` | shrink_containers.py:409-426 | the symlink tree resolves every path that opens a file as the image does |
| `ShrinkTheorems.ReducedFiles` | shrink_containers.py:481-493 | the reduced image is the original without some files |
| `ShrinkTheorems.OpensIffKept` | shrink_containers.py:477-496 | a path opens the same file in the reduced image if and only if the file is in the keep set |
| `ShrinkTheorems.KeepsOwnFile` | shrink_containers.py:450-475 | a followed path puts its file in the keep set if and only if it is spelled as the file's name or reaches it through a link without a double root |
| `ShrinkTheorems.FollowedPathSurvives` | shrink_containers.py:450-496 | every followed path, traced or interpreter, opens the same file afterwards |
| `ShrinkTheorems.TracedPathSurvives` | shrink_containers.py:385-496 | every logged path that opens a regular file opens the same file with the same content in the reduced image |
| `ShrinkTheorems.InterpreterSurvives` | shrink_containers.py:431-475 | the interpreter of a logged script, reached directly or through links, opens the same file in the reduced image |
| `ShrinkTheorems.ShrinkTwice` | shrink_containers.py:409-496 | shrinking the reduced archive with the same log succeeds and keeps every entry |
| `ShrinkReach.TreeWalkIff` | shrink_containers.py:409-426 | the symlink tree resolves a path to the image's file exactly if the path is sheltered, and fails otherwise |
| `ShrinkReach.ViewIsMirrored` | shrink_containers.py:412-419 | any image, its link texts read as pathlib and relpath read them, has this symlink tree |
| `ShrinkReach.LeadsIff` | shrink_containers.py:450-460 | the second pass gets from a path to a file under another name exactly if the path leads to it in the image |
| `ShrinkReach.RealpathInTree` | shrink_containers.py:467-471 | resolving an interpreter in the symlink tree ends where it ends in the image |
| `ShrinkReach.FollowAbortsIff` | shrink_containers.py:450-475 | following a path aborts exactly if it leads to a script whose interpreter cannot be looked up |
| `ShrinkReach.FollowAddsIff` | shrink_containers.py:450-475 | following a path adds a file exactly if the path leads to it or to a script with this interpreter |
| `ShrinkExact.KeepsFileIff` | shrink_containers.py:450-475 | where absolute link texts have no `..`, a followed path puts its own file in the keep set if and only if `Keeps` holds |
| `ShrinkExact.OpensIffKeptAnyPath` | shrink_containers.py:477-496 | with all directories listed, any path opens its file afterwards if and only if the file is in the keep set |
| `ShrinkExact.AbortsExactly` | shrink_containers.py:409-475 | the run aborts if and only if an entry cannot be read or a followed path leads to a script whose interpreter cannot be looked up |
| `ShrinkExact.SurvivesExactly` | shrink_containers.py:385-496 | any path that opens a file opens it afterwards if and only if some followed path is the file or contributes it; no condition on link texts |
| `ShrinkExact.LoggedPathSurvivesIff` | shrink_containers.py:385-496 | a logged path opens its file afterwards if and only if it keeps the file itself or another path contributes it |
| `ShrinkExact.ScannedIsChained` | shrink_containers.py:431-445 | a path is in the set after n entries if and only if it was there before or is the interpreter of an earlier script whose own name was in the set by then |
| `ShrinkExact.ShrinkTwiceIff` | shrink_containers.py:409-496 | a second run with the same log succeeds, and changes nothing if and only if every wanted file is still wanted in the image without the unwanted ones |
| `WitnessArchives.RespelledPathLosesFile` | shrink_containers.py:457-460 | a traced `/./f` loses the file `/f` |
| `WitnessArchives.EmptyDirectoryLosesFile` | shrink_containers.py:421-426 | a link to `e/../f` with an empty directory e loses the traced file |
| `WitnessArchives.LinkAboveRootLosesFile` | shrink_containers.py:415-419 | a link that climbs above the root loses the traced file |
| `WitnessArchives.CrossedLinkLosesFile` | shrink_containers.py:416-418 | a link to `/s/../f` with a link /s to e/x loses the traced file /e/f |
| `WitnessArchives.SecondRunLosesFile` | shrink_containers.py:450-494 | the first run keeps a file that the second run drops |
| `WitnessArchives.EmptyScriptAborts` | shrink_containers.py:437-437 | a file `#!` without a word aborts the run, whatever the log |
| `WitnessArchives.DoubleSlashLinkAborts` | shrink_containers.py:415-417 | a link text that starts with exactly two slashes aborts the run, whatever the log |
| `WitnessArchives.DoubleSlashInterpreterAborts` | shrink_containers.py:467-471 | a traced link to a script with any interpreter that starts with two slashes aborts the run |
| `JobTable.InsertedJobHasOneWinner` | cmd/vsockd/main.go:222-252 | an inserted job waits through any regions about other jobs, and exactly one of the regions that claim or expire it, in any number and order, succeeds |
| `JobRuns.WaitingJobIsExecuted` | cmd/vsockd/main.go:239-298 | an execute connection that sends the id of a waiting job claims it, runs it, writes its code to the connection that asked for it and closes both, whatever the execution and whatever else is going on; the whole new state |
| `JobRuns.OtherIdIsRefused` | cmd/vsockd/main.go:242-249 | an id that is unknown or already claimed closes the execute connection and changes nothing else |
| `JobRuns.RequestIsListed` | cmd/vsockd/main.go:222-225 | a job request is listed under its id and nothing is closed |
| `JobRuns.WaitingJobExpires` | cmd/vsockd/main.go:229-236 | the control goroutine removes a job that still waits and closes its connection; a claimed job is left alone |
| `JobRuns.CodeGoesToItsClient` | cmd/vsockd/main.go:262-276 | the code goes to the connection that asked for the job, unless that is closed |
| `JobRuns.FinishClosesWhatIsListed` | cmd/vsockd/main.go:289-297 | at the end the connection listed under the id and the execute connection are closed, and none if no entry is left |
| `JobTable.JobDB.Expire` | cmd/vsockd/main.go:229-236 | removes the job exactly if it is there and not started |
| `JobTable.JobDB.Begin` | cmd/vsockd/main.go:242-252 | claims the job exactly if it is there and not started, and marks it |
| `JobTable.JobDB.Finish` | cmd/vsockd/main.go:290-297 | removes the job if it is there and says whose it was |
| `JobProofs.LedgerStep` | cmd/vsockd/main.go:184-298 | every step keeps the history of each job in agreement with table and goroutines |
| `JobProofs.LifeStep` | cmd/vsockd/main.go:222-252 | a started job can only become over, an expired or finished one stays so |
| `JobTheorems.CommandsRunOnce` | cmd/vsockd/main.go:239-276 | in every run a command is launched at most once, only for a started job, and a client is sent at most one code, its own |
| `JobTheorems.FatesAreFinal` | cmd/vsockd/main.go:222-252 | no continuation expires a started job or starts an expired one |
| `JobTheorems.EverythingIsClosed` | cmd/vsockd/main.go:184-298 | at the end the table is empty; without a clash, as with unused ids, every connection was closed exactly once and every job expired or was answered |
| `JobTheorems.UnusedIdsNeverClash` | cmd/vsockd/main.go:214-236 | if no drawn id is in use, no step overwrites an entry or expires the job of another connection |
| `JobCollisions.ClosedOnceIffNoClash` | cmd/vsockd/main.go:214-298 | at the end every connection was closed exactly once if and only if no step overwrote an entry or expired the job of another connection |
| `JobTheorems.RunsEnd` | cmd/vsockd/main.go:127-298 | a run over n connections has at most 5n steps, and a step is possible until all goroutines are done |
| `JobCollisions.OverwritingLeaksConnection` | cmd/vsockd/main.go:214-224 | at the end closes on control connections plus overwritten entries equal the jobs asked for; one overwritten entry leaves a control connection open |
| `JobCollisions.ReusedIdLeaksConnection` | cmd/vsockd/main.go:227-236 | from any state, reusing the id of a sleeping control goroutine can close that connection again and leave the new one open for good |
| `Decimal.ItoaText` | cmd/vsockd/main.go:273-273 | numbers are printed with the usual digits, most significant first |
| `Decimal.AtoiItoa` | cmd/vsockd/main.go:273-273 | reading a printed number gives the number |
| `ExitStatus.Wait4Child` | cmd/nsenter/nsenter.c:69-88 | the loop skips words whose low seven bits are all ones and returns what the next result decides: 1, the second byte, or 128 plus the low seven bits |
| `ExitStatus.SignalWords` | cmd/nsenter/nsenter.c:83-86 | the words of a process killed by signal g, with or without a core dump, have that signal |
| `ExitStatus.StartErrorCode` | internal/util/util.go:174-183 | an error that is no exit status maps to 126 exactly for four path errors, to 127 exactly for a missing file or an exec error, and else to 1 |
| `ExitStatus.WaitedCode` | internal/util/util.go:162-173 | the error of a finished command maps to the second byte of its status or 128 plus the low seven bits |
| `ExitStatus.CodeSurvivesText` | cmd/runq-exec/main.go:148-167 | the client reads back every code from three bytes of text |
| `ExitStatus.BufferCutsText` | cmd/runq-exec/main.go:148-167 | of four digits the client reads three; no number reads as 1 |
| `ExitStatus.CommandStatusReachesClient` | cmd/nsenter/nsenter.c:69-88 | after any stops and continues the client gets s for exit(s) and 128+g for signal g from 1 to 126, core dumped or not, through nsenter, the error mapping and the text |
| `ExecChain.ClientReadsOwnCode` | cmd/vsockd/main.go:254-276 | in every run an answered client reads, once, how the execution of its own job ended: exit status, 128 plus the signal, or 1, 126 or 127 if it did not start |
| `ExecChain.TextShows` | cmd/runq-exec/main.go:148-167 | for every end of an execution the text shows the client the code promised for it |
| `ExecChain.WaitingClientIsAnswered` | cmd/vsockd/main.go:239-298 | from any state with a waiting job and an execute connection there is the run after which the client reads s for exit(s) and 128+g for signal g |
| `Wire.PutUint32` | cmd/proxy/channel.go:35-37 | the four bytes are the big endian digits of the size modulo 2^32 |
| `Wire.WriteFrame` | cmd/proxy/channel.go:34-40 | the buffer is size, type and payload |
| `Wire.HeaderTellsLength` | cmd/proxy/channel.go:36-37 | the header gives the payload length if and only if that is below 2^32 |
| `Wire.Receive` | cmd/init/channel.go:40-63 | the receiving loop over any chunk sizes does what the step decoder does |
| `Wire.ReadKeepsBytes` | cmd/init/channel.go:43-56 | a read keeps all bytes except those it fetches beyond the payload |
| `Wire.UniquelyDecodable` | cmd/proxy/channel.go:34-40 | a sequence of frames can be cut into frames in one way only |
| `Wire.ExactIffAligned` | cmd/init/channel.go:40-63 | no byte is lost if and only if no read crosses the end of a frame; then the messages received are the first ones sent, and when all is read they are all of them if and only if so |
| `Wire.LossPerRead` | cmd/init/channel.go:52-56 | one read loses at most what the buffer holds beyond the missing bytes, 15 for a signal |
| `Wire.FourSignalsLoseFifteenBytes` | cmd/init/channel.go:52-56 | a read that reaches this bound |
| `Wire.TwoSignalsOneDelivered` | cmd/init/channel.go:52-56 | one read can swallow a second signal frame |
| `InitRun.FirstCallIsEntryCode` | cmd/init/main.go:253-273 | the first shutdown call of the waiter carries the documented code, in numbers: exit status, 128 plus the signal, or under systemd 0 for signal 2 and 1 for others |
| `InitRun.EntryCodes` | cmd/init/main.go:253-273 | the same for exit(s) and for every signal from 1 to 126, core dumped or not |
| `InitRun.WaiterReports` | cmd/init/main.go:253-273 | from any serving state there is the run in which the entrypoint's code takes effect, and the one in which the reaper makes it 1 |
| `InitRun.RefusedMessages` | cmd/init/main.go:81-87 | which messages make init fail or panic, and that the payload of any other signal goes to the application |
| `InitRun.ValidStep` | cmd/init/main.go:56-273 | every step of init keeps the shutdown explained by the entrypoint, a failure or a start error |
| `InitRun.OneShutdown` | cmd/init/main.go:376-412 | in every interleaving exactly one shutdown takes effect once any is called, it is final, and its code is the verdict of the events: a start failure's exactly if the main goroutine calls first after one, else 1 or the entrypoint's |
| `InitRun.ReaperRace` | cmd/init/reaper.go:12-26 | in every run: if the reaper takes the entrypoint's status the code is 1 or a start failure's; if it does not and main is serving, the documented one |
| `InitRun.VsockdFailureHidesEntrypoint` | cmd/init/main.go:186-193 | a run that ends with 127 while the entrypoint is alive |
| `ChannelProofs.BackwardStep` | cmd/init/channel.go:30-38 | every step keeps the order handshake, exit code on the ack stream and in the proxy's hands |
| `ChannelProofs.NoOverrun` | cmd/init/channel.go:52-56 | while vmdata is the only frame sent no read runs past its end |
| `ChannelTheorems.ReturnedCode` | cmd/proxy/main.go:175-228 | a returned code other than 1 is the byte of the single effective shutdown, sent after the handshake, and the entrypoint's code or 126/127 |
| `ChannelTheorems.HandshakeIsNoExitCode` | cmd/proxy/main.go:177-226 | of two bytes taken by run the first is the handshake and the second the exit code |
| `ChannelTheorems.FirstMessageIsVmdata` | cmd/init/main.go:81-87 | the wire carries vmdata and then one byte signals; init's first message is vmdata in every run |
| `ChannelTheorems.ExactDelivery` | cmd/init/main.go:212-225 | without loss init receives the frames in order, refuses none and never indexes an empty payload; when all is read it has all frames if and only if none was lost |
| `ChannelTheorems.CodeIsDelivered` | cmd/proxy/main.go:211-228 | once init has written handshake and exit code, every continuation that returns gives that code, or 1 exactly when the VM or a step fails or a timeout fires |
| `ChannelTheorems.CodeCanBeDelivered` | cmd/proxy/main.go:177-228 | such a continuation exists from every state in which the VM is down and both bytes are written |
| `ChannelLimits.DeliveryIffAligned` | cmd/init/channel.go:40-63 | in every run of both processes init loses a byte if and only if one of its reads crosses the end of a frame, and when all is read has the frames sent if and only if none does |
| `ChannelSignals.SignalsArrive` | cmd/proxy/main.go:193-204 | in every run the proxy sends vmdata and then exactly the signals it was asked to forward, in order; without loss the application gets the first of them, and all once everything is read and taken |
| `ChannelLimits.PanicIsEarly` | cmd/proxy/channel.go:49-64 | in every run the proxy panics only when both bytes are written and none was read |
| `ChannelLimits.ProxyCanPanic` | cmd/proxy/channel.go:49-64 | a run in which it does |
| `Network.TmpNameInjective` | cmd/init/network.go:33-33 | temporary names of different links differ |
| `Network.FindNetwork` | cmd/init/network.go:52-57 | the inner loop finds the last network with the address |
| `Network.LastMatchIsLast` | cmd/init/network.go:52-60 | it has the address, no later network has it, and without any the name is empty |
| `Network.TmpNameText` | cmd/init/network.go:29-33 | the temporary names as texts, and the name of the link that is left alone |
| `Network.Kernel.SetName` | cmd/init/network.go:64-64 | a rename succeeds exactly if no other link has the name |
| `Network.ParkLinks` | cmd/init/network.go:28-38 | the first phase succeeds exactly if no later link has the temporary name of an earlier one |
| `Network.SetupNetwork` | cmd/init/network.go:14-67 | success if and only if the renaming condition holds; then every link has its new name |
| `Network.ConfiguredIsRenamable` | cmd/init/network.go:24-67 | with distinct addresses and distinct names that are not temporary, no rename meets a name in use, in any order of links |
| `Network.EveryAddressGetsItsName` | cmd/init/network.go:28-67 | afterwards the link with a network's address has that network's name if and only if there are several networks or it had the name before |
| `Network.SuccessIsBijection` | cmd/init/network.go:20-67 | on success links other than lo and networks correspond one to one by address, and by name if there are several; the only exception is one network and no lo |
| `Network.SingleNetworkKeepsKernelName` | cmd/init/network.go:28-28 | a successful setup after which the link does not have the configured name |
| `Disks.ParsePrint` | README.md:322-330 | printing legal fields in the documented syntax and parsing gives them back |
| `Disks.LegalFields` | cmd/proxy/disk.go:54-86 | the legal ids, cache types and filesystems, written out |
| `Disks.ParseTrims` | cmd/proxy/disk.go:62-62 | slashes and blanks in front do not matter |
| `Disks.ParseAcceptsOnly` | cmd/proxy/disk.go:60-93 | what is accepted, exactly, and which fields it gives, for every text |
| `Disks.UpdateDisks` | cmd/proxy/disk.go:57-119 | success if and only if every disk is accepted and no id repeats; then each disk is updated in place from its path |
| `Disks.UpdatedDisk` | cmd/proxy/disk.go:57-119 | afterwards each disk has the fields of its path, a legal id, cache and filesystem, keeps what the path does not give, and has Mount set if filesystem and directory are; a blank one exactly then |
| `Disks.UpdatedIdsDiffer` | cmd/proxy/disk.go:71-78 | the check for repeated ids passes exactly if the updated disks have distinct ids |
| `Disks.FindRootdisk` | cmd/proxy/disk.go:126-135 | the proxy finds the first disk with the rootdisk id |
| `Disks.VmData.TakeRootdisk` | cmd/init/disk.go:52-61 | init takes the first disk with that id out of the list |
| `Disks.RootdiskAgrees` | cmd/init/disk.go:52-61 | with distinct ids both find the same disk and exactly the others are left |
| `Tmpfs.ParseTmpfsMount` | cmd/runq/runc.patch:527-568 | each of seven bits is set exactly if the on text of its pair, written out, comes after every off text; no other bit is set; the options other than nineteen texts keep their order |
| `Tmpfs.JoinText` | cmd/runq/runc.patch:566-566 | the data is joined with commas |
| `ImageJson.EveryImageCanBeRead` | images.py:37-58 | every image, docker commands and all, is read from some object |
| `ImageJson.MissingKeysAreDefaults` | images.py:39-54 | missing keys read as the defaults |
| `ImageJson.DefaultsAreOmitted` | images.py:60-81 | docker commands are never written, skip and wget only if true |
| `ImageJson.DictHasLastValues` | images.py:74-74 | of siblings with one name the last one is written |
| `ImageJson.WriteIsStable` | images.py:37-81 | writing, reading and writing again gives the same object at every sidecar depth |
| `ImageJson.ReadBackIffStorable` | images.py:37-81 | reading back gives the image if and only if no node has docker commands and siblings have distinct names |

## Left out

- Mounting, pivot_root, chroot, netlink addresses and routes, loopback, rsync, e2fsck, module loading: foreign calls without logic of their own.
- TLS, certificates, vsock dialling, the Docker lookup and the terminal: plumbing.
- gob, gzip and base64 in pkg/vm/vm.go: library code; payloads are byte sequences.
- QEMU arguments, DNS, env files, seccomp, capabilities, rlimits, cgroups, sysdig: string assembly and table lookups with easy claims only.
- Docker orchestration in shrink_containers.py and hard links in archives.
- Interpreters of interpreters: the shrinker follows them only in archive order; ScannedIsChained says which, and no more is claimed for them.
- ShrinkTwice: asks that no followed path contains `..`; for other paths it is false (WitnessArchives.SecondRunLosesFile) and ShrinkTwiceIff gives the exact condition.
- TracedPathSurvives, InterpreterSurvives, OpensIffKept, KeepsOwnFile, TreeAgrees: ask for link texts with `..` only in front and below the root; SurvivesExactly covers the others.
- EverythingIsClosed: promises closing once only for runs without a clash; ClosedOnceIffNoClash shows that this is exact.
- JobTable.JobDB: the mutex itself is not modelled; each method is one guarded region, and JobTable.Next interleaves the same regions as steps.
- ChannelTheorems.ReturnedCode: promises nothing for runs in which the proxy panics because two ack bytes arrive in one read; ChannelLimits.PanicIsEarly says when that can be.
- Tmpfs.ParseTmpfsMount: a flag word is represented by the set of its one bits, since every constant is a power of two.
- ImageJson: the functions build values; the lists that Python appends to are results of recursion.
- setupDisks and the ack reader's behaviour after a read error.
