# Verified model of litrace

litrace traces the system calls of processes.  A kernel-side tracer (eBPF hooks)
records each call when it is entered and emits an event when it returns; a reader
filters the events by path and prints them.  This project models that core in
Dafny and proves what it keeps over whole runs.

- **Path filter** (`PathFilter`, `Records`, `FilterSpec`, `FilterTheorems`,
  `FilterMeaning`, `Provenance`, `Paths`, `FDTags`).  For each process the filter keeps a
  working directory, paths for fds and an index of tracked fds, in heap records that are
  made lazily, dropped when empty and copied on fork.  `FilterSpec` is a reference machine that
  keeps only working directories and paths and recomputes everything else.  The
  class `PathFilter` is proved to behave like it on every run; the theorems about
  runs are proved on the reference machine and so hold of the filter.  What the
  machine itself does is said once more without its functions in `FilterMeaning`
  (which events are printed, what texts name, where directories go) and in
  `Provenance` (what fds hold).
- **Tracer** (`Tracer`, `TracerSpec`, `Threads`, `TracerTheorems`, `Numbering`,
  `Reporting`, `Simulation`, `CloneFlags`, `ExecveRuns`).  The hooks are methods on the
  tracer's maps and are proved to be the steps of the machine in `TracerSpec`.  `Threads` says
  what threads and the kernel do, on its own; the theorems relate the two over all
  interleavings.
- **Captured arguments** (`Events`, `Memory`, `Packing`, `VarBuffers`, `RoundTrips`,
  `Argv`, `PathCapture`).  The append methods write bytes and descriptors in place;
  what the reader decodes is proved to be what lies in the process's memory.
- **Whole way** (`EndToEnd`): kernel selection and path filter together.
- **Printing** (`Flags`, `FlagText`, `Summary`).

## What the code does that one might not expect

The model follows the code where a plausible claim about it is false.  Each of these
has a lemma at an input and a theorem that says exactly when the claim holds.

- Descriptors inside the used payload: the second of two arguments, if NULL or
  unreadable, has offset 256 and length 0 while the used length is at most 255.  The
  reader never follows it, as its flags are set.  `RoundTrips.NullSecondPathOverhangs`;
  exactly: `DescriptorsInside`, `BufferInside`.
- Pairing when the ring buffer is full: the call's record is left behind, and if the
  thread's next call is one the selection skips, its return is reported as the first
  call's.  `TracerTheorems.LostEventMispairs`; exactly: `PairedExactly`.
- Threads are not followed as processes: clone3's flags are read again at return, and
  an unreadable word counts as a process.  `CloneFlags.UnreadableFlagsFollowAThread`;
  exactly: `Clone3FollowedExactly`, and for runs `TracerTheorems.FollowedRightExactly`.
- Only fd arguments are looked up as fds: a captured argv has the tag of an fd, 3, so
  execve and execveat are looked up by the low words of argv and envp.
  `FDTags.ExecveAsksAboutStdin`; exactly: `DecidedRightExactly` and `ExecsShown`.
- Selecting calls in the kernel keeps the filter's state: without -f, process creation
  is reported only if selected itself, and what children inherit is not noted.
  `FilterTheorems.UnselectedForkIsLost`; exactly: `PushdownExactly`.  This is seen in
  the filter's own state only: such children report nothing, and what is printed is the
  same (`EndToEnd.KernelSelectionPrintsTheSame`).
- A complete string is not flagged as cut: one of exactly 255 bytes in a slot, and a
  file name of exactly 127 bytes, are.  `RoundTrips.CompleteButMarked`,
  `Argv.CompleteNameFlagged`; exactly: `StringShown`, `FileNameKept`.
- A rename moves all that is below: a rename of the root would move only the root
  itself, as the prefix looked for is `//`.  No system renames its root, so this is not
  reached.  `Paths.RootRenameMovesNothingBelow`; exactly: `RewriteIsComponentwise`.

## Assumptions

- Each hook runs as one step; threads interleave between hooks.  Entries of the LRU
  maps may be evicted at any step unless a theorem excludes it.  The target map
  (16384 entries) does not fill up.
- A thread enters and leaves one call at a time, keeps its number and stays in its
  process (so an execve by a thread other than the leader is outside), and exit and
  exit_group do not return.  A process is named after its leader.
- What a call makes is decided when it is entered; a clone3 whose flags cannot be read
  fails.  What it makes gets a number that no followed live process has, a thread
  belongs to its maker's process, and a process to be followed gets a number that no
  followed process had.
- The probe helpers behave as documented: a string read copies up to the NUL or one
  byte less than the buffer and a NUL, and returns the length with the NUL; a failed
  read leaves zeros.  Page zero is not mapped.
- The answers of /proc/PID/cwd are an arbitrary sequence of paths and failures; for
  the theorem on clean paths they are absolute.
- The path library's Clean and Join are modelled from their documented meaning on
  slash-separated paths.
- The names of system calls are injective, and names in flag tables are distinct, have
  no bar in them and do not start with `0x`.

## Model

| member | source | states |
|---|---|---|
| `PathFilter.PrintRun` | internal/run.go:124-148 | On every sequence of events the mutable filter prints exactly the events the reference machine prints, and ends in the reference machine's state; the reference machine has no index, no records to drop and no heap |
| `PathFilter.PathFilter.ShouldOutput` | internal/path_filter.go:100-108 | One event: the answer and the new state are the reference step's (decide on the state before the event, then fork, then effect), whatever records happened to exist; with no -P path everything passes and nothing changes |
| `FilterMeaning.ShownExactly` | internal/path_filter.go:100-128 | Exactly which events are printed, without the filter's own functions: all without -P; else those the user allows by number, of which a path argument, listed call by call, names a -P path (the second looked at after the first), or a used argument tagged 3 is an fd with a stored -P path |
| `FilterMeaning.ResolvesExactly` | internal/path_filter.go:347-401 | Exactly what each path argument of each call resolves to: nothing if empty or not captured whole; absolute text cleaned; else text behind the working directory or behind the path of the directory fd of that call and place, cleaned; and what a look at /proc leaves behind |
| `FilterMeaning.MatchesWanted` | internal/path_filter.go:328-354 | Comparing path arguments answers whether a -P path is named, and the second is looked at only if the first is not one |
| `FilterMeaning.DecidingOnlyLooks` | internal/path_filter.go:110-128 | Deciding changes nothing but a working directory that was unknown, and nothing at all for calls the user does not allow |
| `FilterMeaning.DirectoriesGo` | internal/path_filter.go:130-176 | Where every process's working directory is after any event: the child's is its parent's; the event's own process goes where a successful chdir or fchdir leads or where a successful rename takes it, and else stays; all others stay |
| `FilterMeaning.RenameTakesAlong` | internal/path_filter.go:559-582 | After a successful rename of o (not the root) to n, by any of the three calls, the working directory and every stored path at or below o have n's components and then their own remaining ones; the others are where they were; no fd is lost or added |
| `FilterMeaning.KnownRenameTakesAlong` | internal/path_filter.go:559-582 | The same in terms of the state before the event, when the working directory is known |
| `FilterMeaning.ChildExactly` | internal/path_filter.go:171-176 | An event makes child c exactly if its lowest flag bit is set and it returned a positive number with low half c |
| `FilterMeaning.AskedForExactly` | internal/path_filter.go:46-98 | Exactly the calls the tracer is asked for: those of -e, and with -P and -e every call with a path argument, those that close or copy fds or move by one, and with -f those that make processes |
| `PathFilter.PathFilter.constructor` | internal/path_filter.go:27-44 | The new filter knows nothing about any process and keeps the representation invariant |
| `PathFilter.PathFilter.NoSharing` | internal/path_filter.go:416-463 | In every valid filter two processes share neither a record nor an fd set nor a path map |
| `PathFilter.PathFilter.IndexExact` | internal/path_filter.go:465-534 | In every valid filter an fd is in the tracked set if and only if its stored path is a -P path; sets and maps are nil or non-empty; every record has a cwd or an fd path |
| `PathFilter.PathFilter.ShouldPrint` | internal/path_filter.go:110-128 | The decision of the reference machine, which recomputes from the paths whether some argument tagged as an fd is watched; the only state it may change is a remembered working directory |
| `PathFilter.PathFilter.MatchesPath` | internal/path_filter.go:328-345 | True if and only if one of the call's path arguments, resolved left to right and only as far as needed, is a -P path |
| `PathFilter.PathFilter.MatchesEither` | internal/path_filter.go:337-341 | The second path is resolved (and may look at /proc) only if the first does not match |
| `PathFilter.PathFilter.MatchesPathAt` | internal/path_filter.go:347-354 | True if and only if that argument resolves to a -P path |
| `PathFilter.PathFilter.HasTrackedFDArg` | internal/path_filter.go:306-316 | The index lookup finds an fd argument if and only if some argument among the used ones has the fd tag and a stored path in the -P set |
| `PathFilter.PathFilter.ArgTracked` | internal/path_filter.go:318-326 | True if and only if that argument is used, has the fd tag and is watched |
| `PathFilter.PathFilter.TrackedIsWatched` | internal/path_filter.go:499-506 | Membership in the hand-kept index is equivalent to the stored path being a -P path |
| `PathFilter.PathFilter.FDTracked` | internal/path_filter.go:499-506 | Answers membership in the index, also for a process without a record or a record without a set |
| `PathFilter.PathFilter.FDPath` | internal/path_filter.go:536-543 | The stored path or none; never an empty path in a valid filter |
| `PathFilter.PathFilter.ResolvePathAt` | internal/path_filter.go:356-362 | None if the argument was not captured whole; else the meaning of its text for that process |
| `PathFilter.PathFilter.ResolvePath` | internal/path_filter.go:364-377 | Empty text has no meaning; an absolute one is cleaned without any lookup; a relative one needs a base |
| `PathFilter.PathFilter.ResolvePathBase` | internal/path_filter.go:379-401 | The base is the working directory, or for the *at calls the stored path of the directory fd unless that is AT_FDCWD as a signed 32-bit value |
| `PathFilter.PathFilter.CwdForPID` | internal/path_filter.go:545-557 | Looks at /proc only if no working directory is known, remembers the answer, and changes nothing if the look fails |
| `PathFilter.PathFilter.SetCWD` | internal/path_filter.go:254-274 | Sets the working directory of one process and nothing else, making a record if there was none |
| `PathFilter.PathFilter.StateForPID` | internal/path_filter.go:403-410 | An existing record is returned as it is; a missing one is made empty |
| `PathFilter.PathFilter.MaybeDropPIDState` | internal/path_filter.go:465-477 | Drops the record exactly if it has no cwd, no tracked fd and no fd path |
| `PathFilter.PathFilter.TrackFD` | internal/path_filter.go:479-485 | Adds the fd to the index of one process, keeps its path map and every other process's objects |
| `PathFilter.PathFilter.UntrackFD` | internal/path_filter.go:487-497 | Removes the fd from the index; while the process has a stored path its record and map object stay |
| `PathFilter.PathFilter.SetFDPath` | internal/path_filter.go:508-514 | Stores the path for the fd of one process and leaves all else |
| `PathFilter.PathFilter.SyncTrackedFD` | internal/path_filter.go:516-522 | Afterwards the fd is in the index exactly if the path is a -P path; the record is not dropped while it has paths |
| `PathFilter.PathFilter.UnsetFDPath` | internal/path_filter.go:524-534 | Forgets the path of the fd; an emptied map becomes nil and a record about nothing goes |
| `PathFilter.PathFilter.StoreFDPath` | internal/path_filter.go:188-189 | Storing and then synchronising gives the reference machine's store and restores the exact index |
| `PathFilter.PathFilter.ForgetFD` | internal/path_filter.go:218-219 | Removing path and index entry in either order gives the reference machine's removal and keeps the invariant |
| `PathFilter.PathFilter.TrackAgain` | internal/path_filter.go:201-204 | The explicit tracking after a dup changes nothing: the index already had the fd |
| `PathFilter.PathFilter.UntrackAgain` | internal/path_filter.go:221-225 | The explicit untracking after dup2 changes nothing |
| `PathFilter.PathFilter.ObserveOpen` | internal/path_filter.go:178-190 | Reference effect of a successful open: the returned fd gets the resolved path, failed or unresolvable opens leave fds alone |
| `PathFilter.PathFilter.ObserveDupRet` | internal/path_filter.go:192-205 | Reference effect of dup: the new fd gets the old fd's path if it has one |
| `PathFilter.PathFilter.ObserveDupPair` | internal/path_filter.go:207-226 | Reference effect of dup2 and dup3, also onto the same fd: the new fd becomes what the old one is, known or unknown |
| `PathFilter.PathFilter.ObserveFcntl` | internal/path_filter.go:228-243 | Reference effect of fcntl: only F_DUPFD and F_DUPFD_CLOEXEC of a watched fd copy |
| `PathFilter.PathFilter.ObserveClose` | internal/path_filter.go:245-252 | Reference effect of a successful close: that fd is forgotten |
| `PathFilter.PathFilter.ObserveChdir` | internal/path_filter.go:254-263 | Reference effect of chdir |
| `PathFilter.PathFilter.ObserveFchdir` | internal/path_filter.go:265-274 | Reference effect of fchdir: only a known fd moves the working directory |
| `PathFilter.PathFilter.ObserveRename` | internal/path_filter.go:276-291 | Reference effect of rename: cwd and all fd paths rewritten pointwise if both paths resolve |
| `PathFilter.PathFilter.RewritePIDPaths` | internal/path_filter.go:559-582 | Whatever order the fds are visited in, every stored path becomes its pointwise rewrite and the index is exact again |
| `PathFilter.PathFilter.RewriteLoop` | internal/path_filter.go:571-581 | The loop ends with the pointwise rewrite for any choice of the next fd; the record is never dropped under it |
| `PathFilter.PathFilter.ObserveUnlink` | internal/path_filter.go:293-304 | Reference effect of unlink: exactly the fds whose stored path is the target are forgotten |
| `PathFilter.PathFilter.DropPIDPaths` | internal/path_filter.go:584-600 | Whatever order the fds are visited in, exactly the matching ones go, with their index entries; the record goes afterwards, and only if it is about nothing |
| `PathFilter.PathFilter.DropLoop` | internal/path_filter.go:589-595 | While matching entries are left the record and its map are still the ones the loop works on |
| `PathFilter.PathFilter.ObserveProcessClone` | internal/path_filter.go:163-176 | A successful process clone copies what is known about the parent to the child; other events do nothing |
| `PathFilter.PathFilter.ObserveForkChild` | internal/path_filter.go:456-463 | The child's record equals the parent's by value, made of new objects; a stale child record goes if the parent has none |
| `PathFilter.PathFilter.Observe` | internal/path_filter.go:130-161 | The reference effect of the event on the process that caused it, after the fork |
| `PathFilter.CloneProcessPathState` | internal/path_filter.go:440-454 | A copy made of new objects only and equal in value; nil if there is nothing to copy |
| `PathFilter.CloneTrackedFDSet` | internal/path_filter.go:416-426 | A new set object with the same fds; nil for nil or empty |
| `PathFilter.CloneFDPaths` | internal/path_filter.go:428-438 | A new map object with the same entries; nil for nil or empty |
| `Records.BecameSound` | internal/path_filter.go:465-534 | An operation that leaves one process a sound record keeps the whole table sound and is the matching update of the reference machine |
| `FilterTheorems.StoredPathsClean` | internal/path_filter.go:356-401 | From any clean state, after any run, every stored path and working directory is absolute and clean, and no process is stored for nothing |
| `FilterTheorems.HandleTraceSyscallIDs` | internal/path_filter.go:78-98 | The two loops compute exactly the declared selection |
| `FilterTheorems.LosslessPushdown` | internal/path_filter.go:78-98 | With -P and -e, and -f or no process creation: dropping any events outside the selection changes neither the printed sequence nor the final state of any run |
| `FilterTheorems.PushdownExactly` | internal/path_filter.go:78-98 | Pushing the selection down is lossless, for the printed sequence and the state together, from all states and for all event sequences with clone flags on fork calls only, if and only if -f is given or all four fork calls are in -e |
| `FilterTheorems.UnselectedForkIsLost` | internal/path_filter.go:91-95 | Counterexample: without -f and with a fork call outside -e, a child of a process that works in / has / as its known directory if all events are seen, and nothing after the selection |
| `FilterTheorems.SkippedStep` | internal/path_filter.go:78-98 | An event outside the selection that creates no process is not printed and changes nothing |
| `FilterTheorems.ForkedChild` | internal/path_filter.go:163-169 | After a fork event the child knows what the parent knew, and everybody else is as before |
| `FilterTheorems.OthersUntouched` | internal/path_filter.go:130-161 | Any run of events of one process that creates none leaves all that is known about every other process |
| `FilterTheorems.ForkIsolation` | internal/path_filter.go:456-463 | After a fork, whatever one side does, the other still has what the parent had at the fork |
| `FilterTheorems.NamingComposes` | internal/path_filter.go:356-401 | chdir(p) then q, opening p (by open, or by openat or openat2 from the working directory) as directory fd then q, and opening p, fchdir, then q all mean what p/q meant at first; an fd of more than 32 bits would stand for what its low half stood for |
| `FilterTheorems.RenameCallsThereAndBack` | internal/path_filter.go:276-291 | Renaming a to b and b to a, by any of the three rename calls, with absolute non-root texts and nothing known at or below b, leaves the whole state as it was |
| `FilterTheorems.RewriteProcThereAndBack` | internal/path_filter.go:559-582 | On one process: the two rewrites restore cwd and every fd path |
| `Provenance.StoredPathsHaveLineages` | internal/path_filter.go:178-304 | A slot holds a path after a run if and only if there is a lineage: a successful open that resolved to the first path, then copies by dup, dup2, dup3, fcntl or fork and rewrites by renames, with nothing else touching the slots in between |
| `Provenance.SlotStep` | internal/path_filter.go:130-161 | Each event acts slot by slot: the new path of any fd of any process is given by that slot's fate alone |
| `Paths.RewriteIsComponentwise` | internal/path_filter.go:602-616 | On clean absolute paths: a path changes if and only if the old base's components are a prefix of its own (for the root only if it is the root); then exactly that prefix is exchanged; the result is clean |
| `Paths.RewriteThereAndBack` | internal/path_filter.go:602-616 | Rewriting a to b and back to a restores every path not at or below b |
| `Paths.RootRenameMovesNothingBelow` | internal/path_filter.go:611-614 | At the root as old base: /a stays as it is, although it is below |
| `Paths.ResolutionComposes` | internal/path_filter.go:364-377 | Resolving q against what p resolves to is resolving p/q |
| `Paths.CleanIdempotent` | internal/path_filter.go:364-377 | Cleaning twice is cleaning once, is never empty, and keeps kind and components |
| `Paths.JoinComps` | internal/path_filter.go:376-376 | Joining onto a clean base continues the reduction of the base's components |
| `Paths.CompsOfOne` | internal/path_filter.go:369-369 | A path of one component, relative or behind a slash: nothing for "" and ".", and at the root for "..", else that component |
| `Paths.CompsOfLast` | internal/path_filter.go:369-376 | With one more component: nothing new for "" and ".", a name is added, ".." takes the last name away; with no name to take it is nothing at the root and stays in a relative path |
| `Paths.JoinOne` | internal/path_filter.go:376-376 | The same for joining onto a clean absolute base |
| `Paths.CleanPieces` | internal/path_filter.go:603-605 | A cleaned path split at its slashes is its components and nothing else |
| `Paths.RenderComps` | internal/path_filter.go:603-605 | The components of a rendered normal path are the ones it was rendered from |
| `Events.FindVarArgDesc` | internal/format_var.go:27-35 | Finds the first used descriptor of the argument; finds none exactly if no used descriptor is for it |
| `Events.VarPayloadSlice` | internal/format_var.go:37-50 | It yields bytes if and only if the range is inside the used payload, and then the very bytes of that range |
| `Memory.WordValue` | internal/bpf/tracer.c:441-446 | A 64-bit word read from memory has its lowest byte first |
| `VarBuffers.VarBuffer.AppendString` | internal/bpf/tracer.c:148-197 | In place, the buffer becomes the value the packing function gives, bytes, descriptor, length and count |
| `VarBuffers.VarBuffer.CopyStringIntoSlot` | internal/bpf/tracer.c:174-196 | The copying half: bytes spliced at the slot, flags and length from the probe's result, payload length only grown |
| `VarBuffers.VarBuffer.AppendBytes` | internal/bpf/tracer.c:199-259 | In place, the buffer becomes the value the packing function gives |
| `VarBuffers.VarBuffer.CopyBytesIntoSlot` | internal/bpf/tracer.c:226-258 | How much to copy is the size or the slot, whichever is less, and more than a slot is flagged |
| `VarBuffers.VarBuffer.CopyIntoSlot` | internal/bpf/tracer.c:239-258 | The copying half for a fixed number of bytes; on failure the descriptor keeps length 0 |
| `VarBuffers.VarBuffer.AppendExecveName` | internal/bpf/tracer.c:357-399 | In place, the snapshot becomes the value the packing function gives |
| `VarBuffers.VarBuffer.ArgvTurn` | internal/bpf/tracer.c:437-476 | One turn captures one argument and goes on, or stops with the right flag; the cursor stays within 256 |
| `VarBuffers.VarBuffer.LoopOverArgv` | internal/bpf/tracer.c:436-476 | The loop's bytes, cursor and flag are those of the recursive reference |
| `VarBuffers.VarBuffer.AppendArgv` | internal/bpf/tracer.c:401-494 | In place, the snapshot becomes the value the packing function gives |
| `Packing.ArgvFrom` | internal/bpf/tracer.c:436-476 | The cursor never moves back or past 256, and the bytes before the start are kept |
| `Packing.Splice` | internal/bpf/tracer.c:174-181 | Writing touches exactly the written range |
| `RoundTrips.OnePathRoundTrip` | internal/event_path.go:5-20 | A single packed path is decoded as s if and only if the process's string is s and has at most 254 bytes; so never for NULL, unreadable or longer ones |
| `RoundTrips.TwoPathsRoundTrip` | internal/event_path.go:5-20 | The same for both of two packed paths, independently of what became of the other |
| `RoundTrips.CapturedExactly` | internal/bpf/tracer.c:188-195 | What fits a slot is exactly a NUL-terminated string of at most 254 bytes |
| `RoundTrips.SecondSlotApart` | internal/bpf/tracer.c:164-164 | Appending a second argument leaves the first slot's bytes and descriptor |
| `RoundTrips.DescriptorsInside` | internal/bpf/tracer.c:193-196 | With two paths: the first descriptor always lies inside the used payload; the second does if and only if its pointer is not NULL and its string was readable |
| `RoundTrips.BufferInside` | internal/bpf/tracer.c:220-257 | With a path and a buffer: the second descriptor lies inside if and only if the buffer is not NULL, not empty and readable |
| `RoundTrips.NullSecondPathOverhangs` | internal/bpf/tracer.c:168-172 | Counterexample: with NULL as second path its descriptor points past the used payload |
| `RoundTrips.StringShown` | internal/format_var.go:52-70 | A packed string is shown as NULL, as unknown or as its first 255 bytes according to the pointer and the process's memory, and marked as cut if and only if it has 255 bytes or more |
| `RoundTrips.BytesShown` | internal/format_var.go:72-90 | Packed bytes are shown as NULL, as unknown or as the first 256 of them, and marked as cut if and only if there are more; no bytes in a second slot are unknown unless the payload reaches there |
| `RoundTrips.CompleteButMarked` | internal/bpf/tracer.c:188-192 | At a string of 255 bytes: shown whole, yet marked as cut and withheld from the filter |
| `PathCapture.PathArgumentsReachTheFilter` | internal/bpf/tracer.c:617-693 | For every call and every argument of it that the filter resolves, the event carries the process's own string at that argument, if and only if it has at most 254 bytes; a stat buffer behind it or a second path does not disturb it |
| `PathCapture.MovedBytesAreShown` | internal/bpf/tracer.c:644-728 | The event of a write, a successful read or a successful stat call shows the bytes in the process's memory at that argument, all of them or the first 256, or NULL or unknown if they cannot be read |
| `PathCapture.NothingElseIsCaptured` | internal/bpf/tracer.c:617-728 | Apart from execve, exactly the path arguments of the call and the one buffer moved have a descriptor |
| `Argv.FormatVarArgv` | internal/format_var.go:92-122 | The loop yields the pieces between NULs (empty ones included) and the markers for unreadable and cut vectors |
| `Argv.ArgvRoundTrip` | internal/bpf/tracer.c:401-494 | For every vector, strings without a NUL included: the decoded parts are the process's arguments, all of them whenever the descriptor has no flag, which is if and only if the vector ends and fits; otherwise a prefix whose last part may be cut to 127 bytes; which flag is set says whether arguments did not fit or reading broke off; the payload stays within 256 bytes |
| `Argv.VectorFound` | internal/bpf/tracer.c:437-465 | Every memory holds some such vector at every address, so the round trip leaves no case out |
| `Argv.FileNameKept` | internal/bpf/tracer.c:357-399 | The file name, cut to 127 bytes, is decoded from the same event undisturbed by the argv behind it, and unflagged exactly up to 126 bytes |
| `Argv.FileNameExactly` | internal/bpf/tracer.c:374-397 | For any pointer and memory: the file name is marked NULL, unreadable, or is its first 127 bytes, flagged as cut exactly from 127 bytes on |
| `Argv.NullArgv` | internal/bpf/tracer.c:421-425 | A NULL argv is marked as such behind any file name |
| `Argv.CompleteNameFlagged` | internal/bpf/tracer.c:388-392 | At a file name of 127 bytes: decoded whole, yet flagged |
| `Argv.LoopCaptures` | internal/bpf/tracer.c:436-487 | From any place and cursor: the captured bytes are the arguments that fit, each with its NUL, and no flag is set if and only if nothing is missing |
| `Argv.SplitTerminated` | internal/format_var.go:102-111 | Splitting NUL-terminated strings at the NULs gives the strings back |
| `Argv.SplitUnterminated` | internal/format_var.go:104-107 | A last piece without a NUL is a piece of its own |
| `Argv.FitsClosed` | internal/bpf/tracer.c:453-457 | What the loop accepts, in closed form: how many, how long, and how far down the buffer each may start |
| `Argv.SnapshotDecodes` | internal/bpf/tracer.c:700-709 | The snapshot copied into an event decodes as the snapshot |
| `Tracer.Tracer.constructor` | internal/bpf/handle.go:76-127 | The tracer starts with the targets and empty maps |
| `Tracer.Tracer.TraceSysEnter` | internal/bpf/tracer.c:496-558 | The new maps are those of the step machine: unfollowed processes and unselected calls leave no trace, except fork calls with -f |
| `Numbering.StepFresh` | internal/bpf/tracer.c:521-531 | Each hook keeps this, short of wrap and reset: an open record's number is above every number reported for its thread and at most the last one given; an event's number is above all reported before |
| `Tracer.Tracer.RecordCall` | internal/bpf/tracer.c:524-556 | Number, call and, for execve, a snapshot are stored for this thread and no other |
| `Tracer.Tracer.TakeSnapshot` | internal/bpf/tracer.c:541-553 | The snapshot built in place is the packing of file name and argv |
| `Tracer.Tracer.TrackChildProcess` | internal/bpf/tracer.c:98-113 | Only a successful call that makes a process, with -f, adds a target |
| `Tracer.Tracer.CleanupTidState` | internal/bpf/tracer.c:115-120 | All three records of the thread go |
| `Tracer.Tracer.TraceSysExit` | internal/bpf/tracer.c:560-741 | New maps and emitted event are those of the step machine, also when the reservation fails: then the call's record stays |
| `Tracer.Tracer.TraceSchedProcessExit` | internal/bpf/tracer.c:743-760 | Thread records go; the process is dropped only with its leader |
| `Tracer.BuildEvent` | internal/bpf/tracer.c:588-728 | The record built in place by the chain of ifs is the event the step machine emits |
| `Tracer.EventRecord.CaptureLookPaths` | internal/bpf/tracer.c:618-642 | Paths of opening and looking are captured into the argument they belong to |
| `Tracer.EventRecord.CaptureStatBuffers` | internal/bpf/tracer.c:644-668 | Result buffers are captured only after success |
| `Tracer.EventRecord.CaptureChangePaths` | internal/bpf/tracer.c:670-693 | Paths of chdir, unlink and rename calls are captured, both for renames |
| `Tracer.EventRecord.CaptureTransferData` | internal/bpf/tracer.c:720-728 | Written data always, read data only after success |
| `TracerTheorems.UnselectedForks` | internal/bpf/tracer.c:87-96 | The check on a zeroed state accepts exactly the four fork calls with -f, although clone3's flags cannot be read then |
| `TracerTheorems.ThreadBit` | internal/bpf/tracer.c:69-71 | For all bits above and below, the test for CLONE_THREAD is that of bit 16 alone |
| `TracerTheorems.SameBit` | internal/bpf/tracer.c:69-80 | On every flags word the tracer's test gives what the kernel makes, whose rule is stated apart from it |
| `TracerTheorems.EventHeader` | internal/bpf/tracer.c:588-600 | The event tells the recorded call and this exit, its duration is the time between them; its clone flag is the tracer's own reading of the call at return, whose truth is the matter of Pairing and of Clone3FollowedExactly |
| `TracerTheorems.VerdictOf` | internal/bpf/tracer.c:63-85 | Against what the kernel decided at entry: the tracer never takes for a process what made nothing, and with clone3's flags word unchanged it takes for a process exactly what made one |
| `TracerTheorems.StepFaithful` | internal/bpf/tracer.c:496-760 | Every hook and eviction keeps the invariant: an open record in a followed process is the call its thread is in |
| `TracerTheorems.Pairing` | internal/bpf/tracer.c:560-741 | In every run of properly behaving threads every event joins a thread's current call with the return that ends it, under any evictions, if reservations succeed, or every call is recorded, or none is selected; and its clone flag says whether the call made a process, if clone3's flags word was left alone |
| `TracerTheorems.PairedExactly` | internal/bpf/tracer.c:584-586 | Pairing holds under arbitrary reservation failures if and only if every returning call is recorded (as with the filter off) or no returning call is selected |
| `Reporting.EveryCallReported` | internal/bpf/tracer.c:560-741 | With room in the ring buffer, no evictions, and processes told from threads: a step emits an event if and only if it ends a call of a followed process whose number is selected, so none is missed and no other is reported |
| `Reporting.WantedIsSelected` | internal/bpf/tracer.c:511-514 | Selected means: the filter is off, or some selector equals the number in its low half |
| `Reporting.ExitingThreadIsForgotten` | internal/bpf/tracer.c:743-760 | After a thread exits the maps hold nothing of it, everything of all others, and its process exactly if it was not the leader |
| `Reporting.ReturnedCallLeaves` | internal/bpf/tracer.c:578-731 | What a returning call leaves in the maps: all as it was if its event found no room; else its record is gone, an execve's snapshot too once reported, and nothing else |
| `Reporting.ReturningExitIsForgotten` | internal/bpf/tracer.c:733-738 | The same for an exit call that returns; exit_group ends the following of the process |
| `TracerTheorems.LostEventMispairs` | internal/bpf/tracer.c:584-586 | Counterexample: after a lost event the return of an unrecorded call is reported as the lost call's |
| `TracerTheorems.FollowedAreLive` | internal/bpf/tracer.c:98-113 | The processes among the followed numbers never exceed the targets and, with -f, what followed processes made as processes, while their leaders live; whatever clone3's flags word became |
| `TracerTheorems.FollowedRightExactly` | internal/bpf/tracer.c:98-113 | Without evictions the followed numbers are exactly those at every point of a run, without -f always, and with -f if and only if every followed call is taken at its return for what the kernel made of it at its entry |
| `TracerTheorems.FollowedExactly` | internal/bpf/tracer.c:98-113 | So they are, threads never among them, if clone3's flags words read the same at return as at entry |
| `CloneFlags.Clone3FollowedExactly` | internal/bpf/tracer.c:73-82 | For any memory at entry and at return, a clone3 leads to the right follow set if and only if the word at return gives the verdict the word at entry gave; the child the filter forks a record for goes with the former |
| `CloneFlags.UnreadableFlagsFollowAThread` | internal/bpf/tracer.c:76-78 | Counterexample: a thread whose flags word is unreadable at return is followed as a process, and the filter takes it for a child |
| `TracerTheorems.OnlyTargetsWithoutForks` | internal/bpf/tracer.c:108-109 | Without -f only the initial targets are ever followed |
| `Numbering.NumbersIncrease` | internal/bpf/tracer.c:521-531 | Short of wrap, thread exit and eviction of the counter, the numbers of a thread's events strictly increase over the run, whatever else is lost, so no recorded call is reported twice |
| `ExecveRuns.ExecvesTell` | internal/bpf/tracer.c:541-554 | In every run, each execve event carries the snapshot of file name and argv from its thread's own entry into that call, or, only if snapshots may be evicted, read errors for both |
| `ExecveRuns.ToldArguments` | internal/bpf/tracer.c:695-718 | From such an event the reader gets the file name and the arguments that lay in memory at entry, within the limits of the snapshot, or two arguments marked unreadable |
| `FDTags.DecidedRightExactly` | internal/path_filter.go:306-316 | For a call and the positions of its fds: the tag-based decision asks about its fds, for all emitted events and all states of the filter, if and only if the argument table has the fd tag at those positions and nowhere else |
| `FDTags.TagsAsk` | internal/path_filter.go:306-316 | What the tag-based decision asks about an emitted event: the arguments the table tags as fds, whatever the tracer captured |
| `FDTags.EventTags` | internal/bpf/tracer.c:617-728 | Capturing replaces the tags of captured arguments only, and never by the fd tag |
| `FDTags.CapturedTagged` | internal/bpf/tracer.c:617-693 | Captured paths have the tag of a string and captured results that of bytes, whatever the table says |
| `FDTags.ExecsDecidedWrong` | internal/bpf/syscalls/x86_64.h:671-675 | With the table's entries for execve and execveat, whose argv and envp have the tag of an fd, neither is always decided right |
| `FDTags.ExecsShown` | internal/bpf/syscalls/x86_64.h:1901-1905 | Exactly when the two are printed: if the low words of the argv or envp pointer, read as fds, are watched, or execveat's directory fd is |
| `FDTags.ExecveAsksAboutStdin` | internal/path_filter.go:306-316 | Counterexample: an execve with a NULL environment is printed because fd 0 is watched |
| `Simulation.StepSimilar` | internal/bpf/tracer.c:496-582 | One hook on both tracers keeps them in agreement about every followed process and emits the same event up to its number, or none if it is not selected |
| `Simulation.FilteredTracerSimulates` | internal/bpf/tracer.c:496-582 | From related states the filtered and the unfiltered tracer follow the same processes after any run, and the filtered stream is the selected part of the unfiltered one up to numbers |
| `Simulation.SimulationFromStart` | internal/bpf/tracer.c:496-582 | The same from the start |
| `EndToEnd.KernelSelectionPrintsTheSame` | internal/run.go:99-148 | Tracing with the kernel selection and filtering prints what tracing everything and filtering prints, up to numbers, with -P for all runs, with or without -f (without -P: what it prints of the selected calls) |
| `EndToEnd.UntracedChildrenDoNotMatter` | internal/path_filter.go:163-169 | Without -f, dropping what is not selected leaves the printed sequence as it is: the fork events dropped concern children that no event is of |
| `EndToEnd.TracerFlagsForks` | internal/bpf/tracer.c:598-600 | In every run of the tracer the clone flag appears only on the four fork calls, as the selection assumes |
| `EndToEnd.FilterIgnoresNumbers` | internal/path_filter.go:100-161 | Streams that differ in numbers only are printed alike and leave the same state |
| `EndToEnd.SelectionCovers` | internal/bpf/handle.go:112-118 | Every call the filter needs is in the kernel's selector map |
| `EndToEnd.SelectionExactly` | internal/bpf/handle.go:95-118 | Selected in the kernel are exactly the calls asked for, by the low half of their numbers; all if none is asked for |
| `Flags.FormatFlags` | internal/format_args.go:23-45 | The greedy loop prints parts that read back to the word, for any table with distinct names |
| `Flags.NamesAndRest` | internal/format_args.go:30-38 | After any number of entries the bits named so far and the bits left are disjoint and make up the word |
| `Flags.PrintingLosesNothing` | internal/format_args.go:23-45 | Reading the printed names and hex bits back gives the word, for every 64-bit word |
| `Flags.PrintedMasksDisjoint` | internal/format_args.go:34-37 | Printed masks are pairwise disjoint: an entry that shares a bit with an earlier printed one, such as part of a composite, is not printed |
| `Flags.PrintedGreedily` | internal/format_args.go:23-45 | Every mask of the table contained in the word is named, or shares a bit with one named before it; every named mask is in the word; bits in hex contain no mask whole, come last, and are there only if bits are left or nothing is named; zero is its word |
| `Flags.NamesInOrder` | internal/format_args.go:30-38 | The names are those of the entries taken, in the table's order |
| `Flags.OpenPrintedGreedily` | internal/format_args.go:79-91 | The access mode comes first, by name if the table has it; the other flags follow greedily if there are any |
| `Flags.FormatEnum` | internal/format_args.go:14-21 | The first entry with the value, or the value in hex |
| `Flags.EnumReadBack` | internal/format_args.go:14-21 | The printed name, looked up again, has the value |
| `Flags.EnumNamed` | internal/format_args.go:14-21 | A value in the table is named by its first entry; any other is in hex |
| `Flags.FormatOpenFlags` | internal/format_args.go:79-91 | Access mode and other flags read back to the whole word |
| `FlagText.FlagsReadBack` | internal/format_args.go:23-45 | The joined text, split at its bars and with hex read as numbers, gives the word |
| `FlagText.OpenFlagsReadBack` | internal/format_args.go:79-91 | The same for the text of open's flags |
| `FlagText.TextReadBack` | internal/format_args.go:40-44 | Joining parts by bars loses nothing if no name holds a bar or looks like a number |
| `FlagText.HexReadBack` | internal/format_args.go:41-41 | Hex digits read back give the number |
| `Summary.SummaryMap.AddEvent` | internal/summary.go:11-20 | One counter row changes, by one call, by one error if the return is negative, and by the duration, all modulo 2^64 |
| `Summary.SummaryMap.AddAll` | internal/run.go:143-146 | After the loop the table is the fold of all events |
| `Summary.TotalsConserved` | internal/summary.go:11-20 | Without overflow the totals over the table are the sums over the events |
| `Summary.WeightsMean` | internal/summary.go:14-18 | Those sums are the number of events and the number of negative returns |
| `Summary.FormatSummary` | internal/format_summary.go:20-67 | For any order of visiting the map: totals are the sums over the table, rows are those of the table, ordered, and the lines are theirs with the total last |
| `Summary.SortRows` | internal/format_summary.go:38-43 | Rows with distinct names come out ordered, none lost or added |
| `Summary.ColumnsMakeUpTheTotal` | internal/format_summary.go:48-75 | The shares of the rows, as exact fractions of one whole, add up to the total line's share, which is the whole if any time was spent; the times add up to its time |
| `Summary.ReportOfEvents` | internal/format_summary.go:20-82 | For any list of events without overflow: the report counts every event, every negative return and all the time; its shares make up the whole; the overall microseconds per call lie between the smallest and the largest of the rows |
| `Summary.SummarizeRun` | internal/run.go:124-155 | A run that prints the summary only ends with such a report of its events |
| `Summary.CallsCounted` | internal/summary.go:11-14 | Every row of a collected table counts at least one call, so no row divides by zero |
| `Summary.ReportDetermined` | internal/format_summary.go:38-43 | Two row lists of one table that are ordered are the same list, as names are injective |
| `Summary.OrderedMeans` | internal/format_summary.go:38-43 | Rows come by falling time and, at equal time, by names rising byte by byte |
| `Summary.RowsCountTheirOwn` | internal/summary.go:11-20 | Each counter of a row is the sum over its own call's events; there is a row exactly for each call that occurs |
| `Summary.LinesTellTheReport` | internal/format_summary.go:48-65 | Each line tells the name, counters, time, share and figure of its row, in order, and the last the totals |
| `Summary.UsecsMeans` | internal/format_summary.go:77-82 | The figure is q exactly if the calls took at least q whole microseconds of 1000 ns each, and fewer than q + 1 |
| `Summary.OverallBetween` | internal/format_summary.go:77-82 | The overall microseconds per call lie between the smallest and the largest of the rows, integer division included |

## Left out

- Loading and attaching the eBPF programs, reading and closing the ring buffer, and decoding the raw event bytes: wrappers over a library.
- Launching, attaching to and waiting for processes, signals and ptrace: operating-system plumbing.
- Interleaving inside hooks that run at the same time, such as a child's first event against its parent's fork event.
- The LRU policy: an eviction is the removal of any entry.
- `append_var_argv` in the tracer: it is never called.
- Shared fd tables and working directories (CLONE_FILES, CLONE_FS), close_range and close-on-exec: the filter does not observe them, and nothing is claimed about agreement with the kernel's own tables.
- Quoting of strings, errno and signal names, decoding of stat buffers, and the per-call formatters built on them.
- The generated argument and name tables: any table is allowed, but for the entries of execve and execveat where `FDTags` names them.
- Command-line parsing: simple splitting and union.
- EndToEnd.KernelSelectionPrintsTheSame: assumes room in the ring buffer and no eviction of calls or snapshots, as pairing and selection do not survive them.
- Summary.SortRows: the library's sort is modelled as ordered insertion; distinct rows have only one order (`Summary.ReportDetermined`).
- Summary.FormatSummary: a percentage is the fraction it is computed from and seconds are nanoseconds, without floating point; the lines are columns, not text.
- Flags.FormatFlags: yields the list of parts; the text joined from them is `FlagText.Text`.
- Argv.FormatVarArgv: yields the parts before quoting and joining.
- RoundTrips.StringShown: the text before quoting.
- The reserved field of descriptors: it is always zero.
- FilterTheorems.ForkIsolation: the fork event is of one of the four fork calls, which `EndToEnd.TracerFlagsForks` proves of every event the tracer flags.
