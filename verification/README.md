# The port layer of openkal-musl, modelled and verified

openkal-musl rebuilds POSIX once above openkal. Its port layer (`port/src`) holds the parts of that work
that are easy to get wrong: a lock, a reference-counted descriptor table that closes late, a resolver that
confines names to supplied directories, vector string functions that read past their argument, a lock-free
table of contexts, sockets whose readiness is found out by reading ahead, a record of reserved memory, the
streams of a started program, and the late waiting for contexts that have ended. This project models those
parts in Dafny and proves what the source and its documentation promise of them.

`dafny verify dfyconfig.toml` checks everything. No proof uses Dafny's automatic induction: a lemma to which it
would apply carries `{:induction false}` and spells its induction out. Each module stands for one component:

| modules | component | form |
|---|---|---|
| `Mutex` | the three-state lock | transition system, any number of contexts |
| `Table`, `Ownership`, `LastRelease`, `DescriptorView`, `DescriptorTable` | descriptors, descriptions, deferred close | values, transition system, class over arrays |
| `Components`, `Names`, `Resolver`, `Volumes`, `NullName` | names and their resolution | component stacks, methods over buffers |
| `Memory`, `MemoryMove`, `MemoryCompare`, `Vectors`, `Words`, `StringScan`, `StringCompare`, `WordLength` | string functions | methods over a byte memory in which only declared bytes may be read |
| `Contexts`, `ContextCalls`, `ContextAnswers`, `ContextIdentities` | per-context state | transition system over single loads, stores and compare-and-swaps |
| `Sockets`, `SocketAnswers`, `SocketTable`, `SocketSlots`, `Readiness`, `HeldAhead`, `Description`, `Poll` | sockets and readiness | values, classes, transition systems, methods |
| `Ranges`, `Regions`, `RegionRuns` | the record of anonymous memory | values, class, transition system |
| `Spawn`, `SpawnMeaning`, `SpawnCall`, `PathSearch` | starting a program | values, class, methods |
| `Reaping`, `ReapingRuns`, `ReapingAnswers`, `ReapingCollects`, `DoneList` | ending and waiting for contexts | transition system over a heap of records, class |

Where the source updates something step by step the model is a method whose postcondition ties it to a
specification that says what the result means. Where contexts interleave, the model is a step relation, and
the theorems hold after every sequence of steps. What a specification computes is stated a second time without it,
by what the caller sees: the places of the components that stay, the calls made on a socket and their answers, the
streams a program begins with.

What the environment decides is a parameter or an event: the object, the file or the memory it gives, or that
it refuses; how many bytes arrive; which sleeper a wake ends; which of two contexts steps next. It is held to
what openkal promises: objects and addresses that are in use are not given again, a wait compares the word
and sleeps in one step, a wait for a context returns once the context has ended. It is held to one thing more,
which openkal does not say: a range that it reserves ends below the last address there is. What becomes of one
that does not is among the properties below.

These properties one might expect, and they are not so. The model keeps the code as it is, shows an input or a
run at which each fails, and says exactly when it holds:

- `__clone` reads the identity it answers with out of the new context's record after it has released the lock.
  By then the context may have ended and another may have waited for it and freed the record
  (`ReapingAnswers.AnswerFromFreed`). What is read is the record exactly when no other context has freed it
  since the unlock (`ReapingAnswers.AnswersFromItsOwn`); it is when the new context has not returned yet, or
  when no other context is in `__clone` (`ReapingAnswers.AnswersWhileItRuns`, `ReapingAnswers.AnswersWhenAlone`).
  Every other step touches allocated records only (`ReapingRuns.TouchesOnlyAllocated`).
- The last byte of the address space is not found by a search that goes past the vectors it reads first
  (`StringScan.TerminatorMissed`), and a search of a block that finds nothing up to the top goes on from address
  zero (`StringScan.WalksAstray`). `StringScan.Length16Right`, `StringScan.Length32Right` and
  `StringScan.ChrRight` say for every start and length when the answer is right; `strcmp` and the word-at-a-time
  `strlen` are right everywhere.
- The identities zero and 2^64-2 share one entry of the table of contexts (`ContextIdentities.OneEntryForTwo`),
  and 2^64-1, which marks a retired entry, loses its entry to others (`ContextIdentities.RetiredIsTaken`). Two
  identities share a key, or one has none, in these cases only (`ContextIdentities.OneKey`,
  `ContextIdentities.NoKey`).
- A context can be refused an entry with the table nearly empty when it loses a race (`ContextCalls.LostRace`).
  A call is refused exactly when it found every entry another's as it probed it, or lost the one it had chosen
  before it loaded or before it swapped (`ContextCalls.RefusedExactly`); when it steps alone, exactly when the
  table is full (`ContextCalls.AloneFailsWhenFull`).
- A stream that a file action names and a later one takes back still needs the stream-passing property
  (`Spawn.TakenBackIsRefused`); it is needed exactly when a stream is named anywhere, or one takes the place of
  the null device at a position that is left with it (`Spawn.RefusedWithoutPassing`).
- A file action that duplicates a position which an earlier one has set takes what the caller has there, not what the
  program was to have (`SpawnMeaning.ChangedPlaces`). The two agree on a position exactly when the source of the last
  duplicate onto it still led where the caller's does (`SpawnMeaning.InTurnExactly`).
- A part of a range can be given up after the range has been released and reserved again by another context
  (`RegionRuns.PartOfAnother`); the range stays recorded exactly as long as no one unmaps the whole of it
  (`RegionRuns.RecordedExactly`), and so long the part is the caller's (`RegionRuns.PartStaysMine`).
- What an enquiry keeps for the next receive, a connection, a message or a byte, is looked at and taken without a
  lock. Two contexts can receive one thing (`HeldAhead.ReceivedTwice`), and one thing can overwrite another
  (`HeldAhead.LostToAnother`). Each is received once, or kept, exactly as long as every step finds in the place
  what its context saw there when it looked (`HeldAhead.NothingLostExactly`); it does when no two contexts are at
  it at once (`HeldAhead.NothingLostOneAtATime`).
- A range that ends at the top of the address space is not found: its end comes out as zero
  (`Ranges.TopIsMissed`). The search is right for every address exactly when no recorded range is such
  (`Ranges.SearchRightExactly`).
- A length whose sum wraps in 64 bits gives up nothing, and the call still reports success
  (`Ranges.WrapsToNothing`): it is all the pages asked for if and only if no sum wraps
  (`Ranges.PartIsAllAsked`).
- The quick test for a normal name accepts one length that joining refuses (`Resolver.LongestIsRefused`): a
  single component that fills the buffer, and no other name (`Resolver.AlreadyNormalAgrees`).

Where the documentation and the code differ, the code is followed: the end of input that a readiness enquiry
has seen is handed over once and then asked for again (`Readiness.EndIsHeldOnce`), although the comment where
it is noted (`port/src/okm_poll.c:131-133`) says that the read does not clear it.

## Model

| member | source | states |
|---|---|---|
| `Mutex.StepKeepsInv` | port/src/okm_fd.c:128-158 | every step of every context keeps: at most one holder, the word is zero exactly when there is none, and a sleeper has a wake coming |
| `Mutex.MutualExclusion` | port/src/okm_fd.c:128-158 | after every run of any number of contexts at most one holds the lock, and where one sleeps the word is 2, or an unlocker still owes a wake, or an awake contender is about to write 2 |
| `Mutex.NoDeadlock` | port/src/okm_fd.c:128-158 | unless every context is outside, one that is inside can step without a new caller, a spurious return or a refusal |
| `Mutex.OwnRunsAreBounded` | port/src/okm_fd.c:133-150 | the contexts inside take a bounded number of steps, however they are scheduled, before all have left |
| `Mutex.MaximalRunEndsIdle` | port/src/okm_fd.c:128-158 | a run of those inside that cannot go on has everyone outside and the lock free |
| `Mutex.LeavingMeansHavingHeld` | port/src/okm_fd.c:128-158 | a context that began to lock and is outside again held the lock in between |
| `Mutex.AloneIsTwoSteps` | port/src/okm_fd.c:128-158 | with no other context inside, taking the lock and giving it back are one step each, and neither calls upon the environment |
| `Table.FdReleaseConsistent` | port/src/okm_fd.c:342-350 | after a release every description's count is the number of descriptors that name it, and one that none names is of no kind |
| `Table.BindConsistent` | port/src/okm_fd.c:363-378 | the same after a bind, onto a free or an occupied descriptor, also when it fails |
| `Table.DupConsistent` | port/src/okm_fd.c:380-394 | the same after a duplicate onto the lowest free or a named descriptor, for every pair of numbers |
| `Table.DupOntoAlias` | port/src/okm_fd.c:380-394 | duplicating onto another name of the same description closes nothing and leaves every description and count as they were |
| `Table.FreeDescriptorBinds` | port/src/okm_fd.c:219-224 | a free descriptor always finds a free description, by counting: bind answers the descriptor, which callers rely upon without looking |
| `Ownership.StepKeepsInv` | port/src/okm_fd.c:162-178 | every lock, table operation, unlock and close of every context keeps the counts and where each owned handle is |
| `Ownership.ClosedExactlyOnce` | port/src/okm_fd.c:250-328 | after every run the times a handle was given to the table, by the kind that was bound, are the times it is live, settling, in flight or closed; the settling queue is empty while the lock is free and its holder's otherwise; with no context inside each handle is live or has been closed |
| `Ownership.MadeOwns` | port/src/okm_fd.c:262-283 | what a bind hands over, said by the kind of the resource, is what its description has to give back |
| `Ownership.UnlockTakesAll` | port/src/okm_fd.c:286-307 | an unlock takes all that is settling, in some order |
| `Ownership.CloseAllEmpties` | port/src/okm_fd.c:843-849 | closing all leaves every descriptor below the bound free and no other changed |
| `Ownership.CloseAllConserves` | port/src/okm_fd.c:843-849 | closing all loses and duplicates no handle, past the 32 places of the queue too |
| `Ownership.BindConserves` | port/src/okm_fd.c:363-378 | a bind adds the one handle it took over to what is held, pending and closed, and nothing when it fails |
| `Ownership.DupConserves` | port/src/okm_fd.c:380-394 | a duplicate adds and loses no handle |
| `Ownership.FdReleaseConserves` | port/src/okm_fd.c:342-350 | a release adds and loses no handle |
| `LastRelease.LastLetGo` | port/src/okm_fd.c:309-328 | the last descriptor of a description let go: a file, a directory and the end of a channel wait for the unlock, or are given back at once where the queue is full; a socket in use is given back at once; a stream, the null device and a socket not in use are not |
| `LastRelease.NothingLeft` | port/src/okm_fd.c:309-328 | the descriptor is free afterwards, and of the description nothing is left |
| `LastRelease.OthersHoldIt` | port/src/okm_fd.c:309-328 | a descriptor that is not the last of its description gives nothing back |
| `LastRelease.GivenBackAfterTheLock` | port/src/okm_fd.c:250-307 | a context that lets the last descriptor of a file, a directory or a channel go and unlocks has closed nothing by then, has exactly one thing to close, and closing it adds just that file, directory or channel end, once |
| `LastRelease.NothingAfterTheLock` | port/src/okm_fd.c:250-307 | with a socket, a stream or the null device there is nothing left to close after the unlock, and only a socket in use has been given back, once |
| `DescriptorView.ReleaseShows` | port/src/okm_fd.c:342-350 | to a program that sees each descriptor by itself, a release takes that one away and changes no other, however descriptions are shared |
| `DescriptorView.BindShows` | port/src/okm_fd.c:363-378 | a bind shows what was asked for at its descriptor with its flag, and nothing held from an earlier use, and every other descriptor as it was; it fails exactly when the number is out of range or no description is free, with an error each, and then changes nothing |
| `DescriptorView.DupShows` | port/src/okm_fd.c:380-394 | a duplicate shows the same at the named or lowest free descriptor with a flag of its own and every other as it was; it fails exactly when the first is not open, the second is out of range or none is free, with the error of each, and then changes nothing |
| `DescriptorView.LowestFrom` | port/src/okm_fd.c:333-340 | the descriptor found is the lowest free one from a number on, and none is found only where none is |
| `DescriptorTable.Descriptors.constructor` | port/src/okm_fd.c:486-489 | the arrays begin as the initial state from which the runs start |
| `DescriptorTable.Descriptors.CloseOwned` | port/src/okm_fd.c:262-283 | what is given back for each kind of description, and by whom |
| `DescriptorTable.Descriptors.DescAlloc` | port/src/okm_fd.c:219-224 | the first description in no use, counted once; refused exactly when there is none |
| `DescriptorTable.Descriptors.DescRelease` | port/src/okm_fd.c:309-328 | in place, what one reference fewer does to the table, the queue and what has been closed; the last leaves nothing of what reads and enumeration had left |
| `DescriptorTable.Descriptors.FdAlloc` | port/src/okm_fd.c:333-340 | the lowest free descriptor from a number on |
| `DescriptorTable.Descriptors.FdRelease` | port/src/okm_fd.c:342-350 | in place, the release of which the counting and conservation lemmas speak |
| `DescriptorTable.Descriptors.FdBind` | port/src/okm_fd.c:363-378 | in place, the bind of which they speak |
| `DescriptorTable.Descriptors.FdDup` | port/src/okm_fd.c:380-394 | in place, the duplicate of which they speak |
| `DescriptorTable.Descriptors.TakeSettling` | port/src/okm_fd.c:286-297 | what is taken is this context's, none of this context's is left, and together they are a permutation of the queue |
| `DescriptorTable.Descriptors.Unlock` | port/src/okm_fd.c:172-178 | the queue is empty afterwards and everything that was in it has been closed once more than before |
| `DescriptorTable.Descriptors.CloseAll` | port/src/okm_fd.c:843-849 | in place, the release of every descriptor in turn |
| `Components.SplitRender` | port/src/okm_fd.c:545-567 | splitting the text of a list of components gives the list back |
| `Components.SplitAround` | port/src/okm_fd.c:545-567 | the components of two texts around a separator are those of the one followed by those of the other |
| `Components.StackOrdinary` | port/src/okm_fd.c:545-567 | what is left after dots and double dots is ordinary components only |
| `Components.StackShorter` | port/src/okm_fd.c:545-567 | normalising never lengthens a list, and keeps its length only where there was nothing to drop |
| `Components.StackStays` | port/src/okm_fd.c:545-567 | what normalising leaves is, in order, exactly the components behind which no stretch goes up more often than it goes down |
| `Components.StackCancels` | port/src/okm_fd.c:545-567 | an ordinary component is kept and the way up takes it back; a dot does nothing, nor does the way up from the root |
| `Components.RenderTight` | port/src/okm_fd.c:545-567 | the text of a list has a separator between its components only |
| `Names.PopLast` | port/src/okm_fd.c:545-567 | the buffer drops the last component and its separator, and nothing at the root |
| `Names.PushLast` | port/src/okm_fd.c:545-567 | the buffer takes a component behind what it holds, within its bound |
| `Names.Normalise` | port/src/okm_fd.c:545-567 | succeeds exactly when every push finds room, then holds the text of the component stack, terminated, below the bound; no write leaves the part given |
| `Names.Compose` | port/src/okm_fd.c:618-631 | base and remainder with one separator where needed, or too long: never a truncated text |
| `Names.Join` | port/src/okm_fd.c:618-640 | answers a name exactly when neither the body nor a push is too long; then the buffer holds root and stack, and no write passes the bound |
| `Resolver.JoinedMeaning` | port/src/okm_fd.c:618-640 | for a name that begins at a separator, joining gives the root and the stack of the components of the prefix followed by those of the name, all ordinary |
| `Resolver.ShortNamesJoin` | port/src/okm_fd.c:618-640 | names that are together six characters shorter than the buffer are always joined, and the answer fits with its terminator |
| `Resolver.AlreadyNormal` | port/src/okm_fd.c:647-661 | accepts exactly the names that are their own normal form and fit, and answers their length |
| `Resolver.AlreadyNormalAgrees` | port/src/okm_fd.c:647-661 | where joining accepts such a name it gives it back unchanged; it refuses only a single component of the greatest length |
| `Resolver.LongestIsRefused` | port/src/okm_fd.c:545-567 | a separator and 4094 characters: taken as it stands, and refused by joining |
| `Resolver.IsPrefixAtBoundary` | port/src/okm_fd.c:595-614 | the loop decides the prefix test, with either separator and either case beneath a volume |
| `Resolver.PrefixMeaning` | port/src/okm_fd.c:605-614 | for a plain name and a normal path, comparing characters up to a boundary is comparing components |
| `Resolver.Select` | port/src/okm_fd.c:712-722 | the first supplied directory with the longest matching name, or none when none matches |
| `Resolver.Resolve` | port/src/okm_fd.c:663-731 | each start, each kind of path and each error of the resolution |
| `Resolver.Confinement` | port/src/okm_fd.c:663-731 | a name from the separator resolves to the deepest supplied directory above the path, with a remainder that is a dot or ordinary components and that with the directory's components makes the path's; it fails for want of a directory exactly when none is above it, and otherwise exactly when the name is too long; directories on volumes may be supplied beside |
| `Resolver.BeneathUnnamed` | port/src/okm_fd.c:688-706 | beneath a directory without a name: that directory, and the components that normalising leaves; refused only when the path is about as long as the buffer |
| `Resolver.ErrorsTell` | port/src/okm_fd.c:663-731 | each error of the resolution has its cause, and no other error comes |
| `Volumes.OwnVolume` | port/src/okm_fd.c:618-640 | joining a name with a volume gives the volume, one separator and what normalising leaves of the rest, cut at either separator, whatever it is joined to |
| `Volumes.VolumeOfThePrefix` | port/src/okm_fd.c:618-640 | a name without a root joined to one with a volume: the components of both behind that volume |
| `Volumes.NoRoot` | port/src/okm_fd.c:618-640 | two names without a root: the components of both, and no root |
| `Volumes.FoldedIs` | port/src/okm_fd.c:595-603 | what is compared of a character: capitals as small letters, a backslash as a separator, every other as itself |
| `Volumes.VolumePrefix` | port/src/okm_fd.c:595-614 | on a volume, comparing characters up to a boundary is comparing components without regard to case and kind of separator |
| `Volumes.VolumeConfinement` | port/src/okm_fd.c:663-731 | a name on a volume resolves to the deepest supplied directory above it, whatever case and separators the two are written with, with the rest of its components as they were written; it fails for want of a directory exactly when none is above it, and otherwise exactly when it is too long |
| `NullName.NullNameResolved` | port/src/okm_fd.c:799-807 | true exactly when the name resolves to the null device's |
| `NullName.NullMeans` | port/src/okm_fd.c:799-807 | it does exactly when the path, resolved lexically as any other, leads to `null` in `dev` beneath the separator and is not too long |
| `NullName.NullNameTest` | port/src/okm_fd.c:809-827 | the look at the last component answers as the full resolution for every start and path |
| `NullName.WordDecides` | port/src/okm_fd.c:809-827 | a path that comes to a two-component name ends in the second, in a dot or in two |
| `Memory.Ram.Load` | port/src/okm_string.c:128-131 | a load is a slice of memory, and every byte of it must be one that may be read |
| `MemoryMove.Memmove16` | port/src/okm_string.c:572-580 | memory afterwards is as before with the old source bytes in place of the destination's, for every length and placement, and only source bytes are read |
| `MemoryMove.Memcpy16` | port/src/okm_string.c:564-570 | the same wherever copying forward is right |
| `MemoryMove.CopyForward` | port/src/okm_string.c:178-200 | the first vector, aligned blocks of four and the last four vectors leave no gap and overwrite no byte before it is read |
| `MemoryMove.CopyBack` | port/src/okm_string.c:202-211 | the blocks from the end and the first four vectors, likewise |
| `MemoryMove.MoveShort` | port/src/okm_string.c:552-562 | up to four vectors, all read before any is written |
| `MemoryMove.CopySmall` | port/src/okm_string.c:76-90 | up to sixteen bytes by two moves of 8, 4, 2 or 1 that may overlap |
| `MemoryMove.DistanceTells` | port/src/okm_string.c:572-580 | one unsigned difference tells whether copying forward is right |
| `MemoryCompare.Memcmp16` | port/src/okm_string.c:590-593 | the difference of the first bytes that differ, or zero, by overlapping windows and combined masks |
| `MemoryCompare.Memcmp32` | port/src/okm_string.c:688-693 | the same over vectors of 32 |
| `MemoryCompare.CompareSmall` | port/src/okm_string.c:93-113 | the same for fewer than sixteen bytes by words, the first difference found by counting trailing zeros |
| `MemoryCompare.CompareBlocks` | port/src/okm_string.c:234-248 | four windows at a time and a last window that overlaps what has been compared |
| `MemoryCompare.AnswersIsByteAtATime` | port/src/okm_string.c:882-892 | what is owed is what comparing byte by byte answers, and nothing else is |
| `StringScan.Scan` | port/src/okm_string.c:270-295 | from any start to the first hit below the end, by an aligned first vector, single vectors and blocks of four; only pages that hold a byte of the argument are read; it passes the top of the address space exactly when there is nothing to find up to there and no place to stop before |
| `StringScan.Strlen16` | port/src/okm_string.c:631-642 | for every string at every address the length, or the distance to zero where the search misses the last byte there is; within the pages of the string |
| `StringScan.Strlen32` | port/src/okm_string.c:733-756 | the same, with 32-byte vectors: only a string that begins less than 128 bytes before the end of a page can be missed |
| `StringScan.Memchr` | port/src/okm_string.c:599-613 | for every block the first such byte, or none, or that the walk passes the top; within the pages up to that byte |
| `StringScan.Strchr` | port/src/okm_string.c:615-629 | the first such byte up to the terminator or none, but for the last byte there is outside the first four vectors; within the pages of the string up to there |
| `StringScan.Length16Right` | port/src/okm_string.c:631-642 | `strlen16` is right exactly for strings that end before the last byte of the address space, and for the one of 63 bytes that ends there |
| `StringScan.Length32Right` | port/src/okm_string.c:733-756 | `strlen32` is right exactly for strings that end before that byte or begin at least 128 bytes before the end of a page |
| `StringScan.ChrRight` | port/src/okm_string.c:599-613 | `memchr` is right exactly when the byte it owes is not that byte or, if it owes none, the walk does not pass the top |
| `StringScan.FarBelowTheTop` | port/src/okm_string.c:270-295 | a block that ends four vectors or more before the top is never one for which the walk passes it |
| `StringScan.TerminatorMissed` | port/src/okm_string.c:265-268 | a string that ends in that byte, whose length and terminator come out wrong |
| `StringScan.WalksAstray` | port/src/okm_string.c:284 | a block at the top, without the byte looked for, for which the walk passes it |
| `StringCompare.Strcmp16` | port/src/okm_string.c:644-655 | the difference at the first place where two strings differ or end, however each is aligned and wherever it lies, within the pages of both up to there |
| `StringCompare.Strcmp32` | port/src/okm_string.c:758-769 | the same over vectors of 32, with words near the end of a page |
| `StringCompare.MaskTells` | port/src/okm_string.c:299-303 | the first set lane of a mask is the place where the strings are told apart |
| `Words.HasZeroTells` | port/src/okm_string.c:66-68 | the expression is non-zero exactly when a byte is zero, and its lowest bit lies in the lowest such byte |
| `Words.EveryWord` | port/src/okm_string.c:66-68 | the same said of the bytes of every 64-bit word |
| `Words.FirstDifference` | port/src/okm_string.c:93-113 | the lowest bit of the exclusive-or of two words lies in the first byte in which they differ |
| `WordLength.StrlenWords` | port/src/okm_string.c:910-918 | the length by masked first word and aligned words, at every alignment and every address |
| `Contexts.StepKeepsInv` | port/src/okm_context.c:79-163 | every load, store and compare-and-swap of every context keeps the table sound and each context's view of it right |
| `Contexts.ReachableInv` | port/src/okm_context.c:79-163 | so does every run from an empty table |
| `Contexts.EveryContextHasItsOwn` | port/src/okm_context.c:79-163 | after every run a context, by its key, has one entry, which its search reaches and which holds what it stored, or none; unclaimed entries are zero; a call that returned answered what it owes |
| `Contexts.LastStoreIsRead` | port/src/okm_context.c:114-150 | a thread pointer, or a record of itself, that a context stored is what its later calls read, until it stores another or is released, whatever others insert and retire |
| `ContextAnswers.RecordedExactly` | port/src/okm_context.c:114-137 | after every run something is recorded exactly when a call that stores a thread pointer has been completed |
| `ContextAnswers.AbortsExactly` | port/src/okm_context.c:117-126 | after every run an enquiry for the thread pointer ends the program exactly when its context has no entry and a store had been completed by then; before the first store it answers zero, and with an entry what was stored |
| `Contexts.NeverStuck` | port/src/okm_context.c:79-163 | a context that has not aborted can step |
| `Contexts.OwnStepIsSpent` | port/src/okm_context.c:79-104 | a search ends within a bounded number of the context's own steps |
| `ContextCalls.AloneFailsWhenFull` | port/src/okm_context.c:79-104 | from where a call that makes an entry begins to where it returns, with no step of another between: it fails exactly when every entry is another's |
| `ContextCalls.RefusedExactly` | port/src/okm_context.c:79-104 | with any steps of others between, it fails exactly when it found every entry another's as it probed it, or its chosen entry had become another's at the load, or had changed at the swap |
| `ContextCalls.LostRace` | port/src/okm_context.c:97-102 | a run in which a context is refused while all entries but one are free |
| `ContextIdentities.OneKey` | port/src/okm_context.c:65-68 | two identities have one key exactly when they are zero and the word that stands for it |
| `ContextIdentities.NoKey` | port/src/okm_context.c:65-68 | an identity has a key that an entry may have exactly when it is not the word for a retired entry |
| `ContextIdentities.EveryIdentityHasItsOwn` | port/src/okm_context.c:65-163 | after every run of contexts with any other identities, each has an entry of its own as above, or none |
| `ContextIdentities.OneEntryForTwo` | port/src/okm_context.c:65-68 | a run in which one of that pair reads what the other stored |
| `ContextIdentities.RetiredIsTaken` | port/src/okm_context.c:92-102 | a run in which the context whose identity is that word finds its entry taken |
| `Sockets.SlotsFit` | port/src/okm_net.c:131-172 | every call moves each slot along free, new, and one of listening, connected or datagram, with the type that fits; only a release frees a slot, and only the one it names |
| `Sockets.StepKeepsInv` | port/src/okm_net.c:276-474 | every call keeps slots fitting and each object in one place |
| `Sockets.ClosedOnce` | port/src/okm_net.c:152-172 | after every sequence of calls each object obtained is held by one slot or has been closed once, and what was not obtained has not been closed |
| `Sockets.NothingIsLost` | port/src/okm_net.c:152-172 | when all slots are free every object obtained has been closed once |
| `Sockets.ReadyListenerAccepts` | port/src/okm_net.c:748-763 | a listener reports ready exactly when it holds a connection, and an error exactly when it holds none and the wait failed; the accept that follows a ready answer takes the connection and asks the environment for nothing |
| `SocketAnswers.RefusedExactly` | port/src/okm_net.c:308-474 | each error of each call comes exactly in its phase and type, or when the environment refuses |
| `SocketAnswers.OpenedExactly` | port/src/okm_net.c:272-306 | a new socket is refused without a descriptor, or else without a free slot; otherwise it gets a free one, new and of its type |
| `SocketAnswers.RefusalLeaves` | port/src/okm_net.c:308-474 | a refused call changes nothing, but that a connection which cannot be placed is closed |
| `SocketAnswers.SuccessLeaves` | port/src/okm_net.c:308-474 | a stream's connect leaves its slot connected, with the connection given; a listen leaves a listener; the bind, connect or transfer that opens a datagram socket leaves it open; no other slot is touched |
| `SocketAnswers.AcceptLeaves` | port/src/okm_net.c:363-423 | an accept leaves a slot that was free connected, with the connection an enquiry held or else the one asked for, and its listener without that one |
| `SocketAnswers.ReleaseCloses` | port/src/okm_net.c:152-172 | a release closes the slot's object and then the connection it held, and nothing else |
| `SocketAnswers.PhaseIsTold` | port/src/okm_net.c:131-474 | after every sequence of calls, phase and type of every slot are what the calls and their answers have told since it was given |
| `SocketAnswers.StreamAnswers` | port/src/okm_net.c:308-655 | so a stream transfers exactly after an accept made it or a connect succeeded, accepts exactly after a listen did, and refuses a second bind, listen or connect with the error of each |
| `SocketAnswers.DatagramAnswers` | port/src/okm_net.c:308-655 | a datagram socket needs the environment for the first bind, connect or transfer that succeeds and for no later one; it is bound before that or not at all, and never listens or accepts |
| `SocketSlots.StepKeepsTied` | port/src/okm_fd.c:309-328 | every step of every context keeps each slot in use named by one description, referred to, and a released one by none |
| `SocketSlots.OneDescriptionEach` | port/src/okm_net.c:131-172 | after every run a slot in use is named by one live description and one not in use by none, and each has been released as often as it was given, less one while it is in use |
| `SocketSlots.ReleasedInUse` | port/src/okm_net.c:152-172 | a step releases only a slot that is in use, once |
| `SocketTable.Table.SlotAlloc` | port/src/okm_net.c:131-143 | the first free slot, new and of the type asked for, or none |
| `SocketTable.Table.Release` | port/src/okm_net.c:152-172 | in place, the release of which the conservation theorem speaks, pending connection included |
| `SocketTable.Table.OpenSocket` | port/src/okm_net.c:272-306 | in place, the opening of a socket, undone when there is no descriptor |
| `SocketTable.Table.BindSocket` | port/src/okm_net.c:308-334 | in place, the binding, which is deferred for a stream |
| `SocketTable.Table.ListenSocket` | port/src/okm_net.c:336-361 | in place, the deferred binding and listening |
| `SocketTable.Table.AdoptConnection` | port/src/okm_net.c:364-380 | in place, a slot for a connection, which is closed when none can be had |
| `SocketTable.Table.AcceptSocket` | port/src/okm_net.c:382-423 | in place, the pending connection first, else one asked for |
| `SocketTable.Table.ConnectSocket` | port/src/okm_net.c:425-474 | in place, the connection, for a stream or a datagram endpoint |
| `SocketTable.Table.EnquireSocket` | port/src/okm_net.c:748-763 | in place, the enquiry that keeps what it got |
| `Readiness.Conservation` | port/src/okm_poll.c:88-140 | over every sequence of enquiries and receives, what was delivered, the byte held and what is still to come make the stream, in order |
| `Readiness.EnquiryAnswers` | port/src/okm_poll.c:116-140 | an enquiry answers what is held or else what the environment answers, with its error, and what makes the connection ready is a positive answer and nothing else |
| `Readiness.ReceiveAnswers` | port/src/okm_net.c:631-640 | a receive asks exactly when it has nothing of what is held to give, and then passes on silence, error or bytes |
| `Readiness.ReadyConnectionReceives` | port/src/okm_poll.c:116-140 | after a positive answer the next receive asks nothing and gives the first byte, or the end where there is none |
| `Readiness.EmptyReceiveIsTheEnd` | port/src/okm_net.c:631-640 | a receive of nothing means the end exactly, unless nothing was asked for |
| `Readiness.EndIsHeldOnce` | port/src/okm_poll.c:88-98 | the end that was seen is handed over once, without asking; the next receive asks |
| `Readiness.MessageConservation` | port/src/okm_net.c:606-629 | messages are delivered in order, each once and each cut to the room given, whatever enquiries come between |
| `Readiness.MessageFound` | port/src/okm_net.c:606-629 | an enquiry, as a receive, finds a message exactly when one is held or arrives |
| `Readiness.ReadyEndpointReceives` | port/src/okm_net.c:765-785 | after a positive answer the next receive gives the message held |
| `HeldAhead.GoodExactly` | port/src/okm_net.c:392-396 | a step of one of any number of contexts leaves each thing in one place exactly when it finds what its context saw when it looked |
| `HeldAhead.NothingLostExactly` | port/src/okm_poll.c:88-139 | over every run each thing the environment gave is kept, in hand or received once, and nothing else is, exactly when every step does so |
| `HeldAhead.NothingLostOneAtATime` | port/src/okm_net.c:606-613 | it is so in every run in which no two contexts are at the place at once |
| `HeldAhead.ReceivedTwice` | port/src/okm_net.c:392-396 | a run in which two contexts receive one thing |
| `HeldAhead.LostToAnother` | port/src/okm_poll.c:116-139 | a run in which what one context keeps overwrites what another has kept |
| `Description.Connection.TakeAhead` | port/src/okm_poll.c:88-98 | in place, the byte or the end that is held |
| `Description.Connection.WaitIn` | port/src/okm_poll.c:116-140 | in place, the enquiry, which changes nothing a reader would see |
| `Description.Connection.Recv` | port/src/okm_net.c:631-640 | in place, the receive, held byte first, which with what is left makes what there was |
| `Poll.PollOne` | port/src/okm_poll.c:176-232 | one entry's answer is truthful; it is told of input exactly when it asked and there is input afterwards, which there is when there was before or some arrives; it is an error exactly when the environment answers so where there was none |
| `Poll.Pass` | port/src/okm_poll.c:170-233 | all answers of a pass are true together at its end, though entries may name one description; an entry is told of input exactly when its description has some or is brought some by then; the error is that of the first entry refused at a description that had none by then, and there is one only so; the count is of those that are ready |
| `Poll.Poll` | port/src/okm_poll.c:158-257 | the first round in which an entry is ready or an enquiry is refused decides: ready ones are counted, else the first error is answered; without such a round none is answered once the bound is spent, by sleeping whole rounds or in the one wait of a single entry, and without a bound it goes on; the answers are those of the last pass |
| `Poll.OneConclusion` | port/src/okm_poll.c:158-257 | set, environment and bound leave one answer, one round that decides and one time slept |
| `Poll.NoErrorNoFailure` | port/src/okm_poll.c:234-238 | an environment that never answers with an error is never reported to have failed |
| `Poll.RefusalIsAnswered` | port/src/okm_poll.c:234-238 | an enquiry refused in the first round, with nothing ready, is answered at once |
| `Poll.IdleTakesTheBound` | port/src/okm_poll.c:239-256 | a set of which nothing is or becomes ready is answered none, after the bound and less than a round more, or in the one wait |
| `Ranges.SearchIsLinear` | port/src/okm_region.c:78-94 | the place that halving finds decides as looking at every range does |
| `Ranges.SearchRightExactly` | port/src/okm_region.c:78-94 | with the sums in 64 bits the search finds what looking at every range does, for every address, exactly when no range ends at the top |
| `Ranges.TopIsMissed` | port/src/okm_region.c:83 | the last address of a range that does is not found |
| `Ranges.InsertKeepsOrder` | port/src/okm_region.c:96-112 | a disjoint range put at that place keeps the record ordered and disjoint and adds itself alone |
| `Ranges.RemoveKeepsOrder` | port/src/okm_region.c:155-158 | taking one out keeps it ordered and removes that one alone |
| `Ranges.PartLiesInside` | port/src/okm_region.c:133-141 | the part lies in the range and behind the address, however sums wrap |
| `Ranges.PartIsAllAsked` | port/src/okm_region.c:133-141 | it is all the whole pages asked for in that range exactly when no sum wraps, and nothing otherwise |
| `Ranges.WrapsToNothing` | port/src/okm_region.c:133-141 | a recorded range and a length that rounds up past the last address: nothing is given up |
| `Regions.Grain` | port/src/okm_region.c:65-76 | a power of two of at least 4096: the environment's, rounded up, or 4096 where that does not fit |
| `Regions.Record.constructor` | port/src/okm_region.c:78-112 | the record begins empty |
| `Regions.Record.Lower` | port/src/okm_region.c:78-87 | the first range that ends above the address, by halving |
| `Regions.Record.Find` | port/src/okm_region.c:89-94 | the index that a linear scan finds, or -1 |
| `Regions.Record.Insert` | port/src/okm_region.c:96-112 | in place and growing where needed, the range is recorded; without memory nothing changes |
| `Regions.Record.Unmap` | port/src/okm_region.c:143-175 | what is answered, what is asked of the environment and what is recorded afterwards, for every address and length |
| `RegionRuns.StepKeepsInv` | port/src/okm_region.c:114-175 | every reserve, record, failure, removal, release and decommit of every context keeps record and reservations in agreement |
| `RegionRuns.RecordIsReserved` | port/src/okm_region.c:114-175 | after every run the record is ordered, disjoint and reserved; what is reserved and not recorded is being put in or taken out by exactly one context |
| `RegionRuns.UnmapsWhatIsAsked` | port/src/okm_region.c:143-175 | a call that asks for a whole range or more takes it out of the record and then gives it back; one that asks for less gives up just its pages of the range |
| `RegionRuns.PartStaysMine` | port/src/okm_region.c:167-174 | a part to be given up stays within a reserved, recorded range as long as no one unmaps the whole of that range |
| `RegionRuns.RecordedExactly` | port/src/okm_region.c:143-166 | a range is recorded all through a run exactly when no call of the run unmaps the whole of it |
| `RegionRuns.PartOfAnother` | port/src/okm_region.c:167-174 | a run in which the part about to be given up has become another's |
| `Spawn.WantsOne` | port/src/okm_spawn.c:486-588 | what a list of actions wants of a position is one thing |
| `Spawn.WantsNext` | port/src/okm_spawn.c:486-588 | it is what the last action naming the position says, else the caller's descriptor |
| `Spawn.RefusedOnce` | port/src/okm_spawn.c:486-588 | a list is accepted exactly when it is refused for no reason, and is refused for one |
| `Spawn.RefusedWithoutPassing` | port/src/okm_spawn.c:629-631 | a list whose null device can be had is refused exactly when streams cannot be passed and one is named, or takes the place of the null device where that is wanted |
| `Spawn.NeededIsNamed` | port/src/okm_spawn.c:629-631 | a position that is to be given a stream was named one |
| `Spawn.TakenBackIsRefused` | port/src/okm_spawn.c:629-631 | a list that ends with every position inherited and is refused |
| `Spawn.NullPositions` | port/src/okm_spawn.c:604-609 | the bits that are kept are exactly the positions at which the null device is wanted |
| `SpawnMeaning.BeginsAsNamed` | port/src/okm_spawn.c:445-688 | the program begins at each position with what the last action about it names, or with what the caller has there: the stream or the null device itself, the way zero stands for inheritance undone; in place of the null device, where the environment has none, with the file of that name |
| `SpawnMeaning.AcceptedExactly` | port/src/okm_spawn.c:264-588 | a list is accepted exactly when the three descriptors lead somewhere that can be said and every action can be performed |
| `SpawnMeaning.FirstAreOpened` | port/src/okm_spawn.c:501-528 | the files opened are the first eight that its actions find, in order |
| `SpawnMeaning.StartedInTheLast` | port/src/okm_spawn.c:556-579 | the program is started in the directory that the last action about one names, or in none |
| `SpawnMeaning.InTurnExactly` | port/src/okm_spawn.c:487-500 | a position leads where it would if each action changed a table of the program's own exactly when the source of the last duplicate onto it still led where the caller's does |
| `SpawnMeaning.ChangedPlaces` | port/src/okm_spawn.c:487-500 | two streams that are to change places: the code changes them, a table changed in turn would have one twice |
| `SpawnCall.Call.Place` | port/src/okm_spawn.c:203-214 | a position shows the stream, inherited where it is the caller's own; a handle of zero that is not is refused |
| `SpawnCall.Call.PlaceNull` | port/src/okm_spawn.c:230-236 | the position shows the null device, and no other position shows anything else than before |
| `SpawnCall.Call.PlaceDescriptor` | port/src/okm_spawn.c:488-499 | a position shows what the caller's descriptor names, read in the caller's table |
| `SpawnCall.Call.Seed` | port/src/okm_spawn.c:264-276 | the positions show the caller's own descriptors, or the call is refused |
| `SpawnCall.Call.Perform` | port/src/okm_spawn.c:487-586 | one action, its effect on the positions and what it opens |
| `SpawnCall.Call.PerformAll` | port/src/okm_spawn.c:473-588 | the actions from the first added to the last, though the list begins with the last; refused at the first that fails |
| `SpawnCall.Call.CloseAll` | port/src/okm_spawn.c:633-638 | every file and directory obtained has been closed once |
| `SpawnCall.Call.NullDevices` | port/src/okm_spawn.c:604-627 | the null device by flag, or by one file at every such position, or the refusal; what is handed over then decodes to what is wanted |
| `SpawnCall.Call.Run` | port/src/okm_spawn.c:445-688 | refused with the reason that the actions give, else each position decodes to what the last action naming it wants; on every exit what was opened is what the actions begun by then ask for, and each file and directory of it has been closed exactly once |
| `PathSearch.EntriesAreThePath` | port/src/okm_spawn.c:763-782 | the entries joined by colons are the variable, and none holds a colon |
| `PathSearch.CandidateIsIn` | port/src/okm_spawn.c:769-773 | the name tried for an entry leads to the file in what the entry names |
| `PathSearch.SearchConcludes` | port/src/okm_spawn.c:763-783 | entries are tried in order; the search ends at a start or at an error that says nothing of the next, else reports a denial it met or that nothing was found |
| `PathSearch.WhatIsAnswered` | port/src/okm_spawn.c:775-783 | not found is answered exactly when every name was lacking, a denial exactly when one was denied and the others lacking or denied, and otherwise the first other answer, which ends the search |
| `PathSearch.StartedOnce` | port/src/okm_spawn.c:775-776 | at most one program is started, by the last attempt, and success means one was |
| `PathSearch.Compose` | port/src/okm_spawn.c:769-773 | the buffer holds entry, separator and name whole |
| `PathSearch.Search` | port/src/okm_spawn.c:763-783 | the loop over the variable comes to what the search concludes |
| `PathSearch.SpawnByName` | port/src/okm_spawn.c:737-784 | an empty name, one with a separator and one too long are not searched for; every other is, in the variable or its default |
| `Reaping.UnlinkKeepsInv` | port/src/okm_thread.c:80-81 | setting the link before a finished record to the link behind it takes exactly that record off the list, anywhere in it |
| `Reaping.JoinIsNew` | port/src/okm_thread.c:83 | a context about to be waited for has not been waited for |
| `Reaping.LinkKeepsInv` | port/src/okm_thread.c:161-164 | a record put in front is reached once, and all others still are; until the lock is released it stays there |
| `Reaping.StepKeepsInv` | port/src/okm_thread.c:74-165 | every step of every context in `__clone`, `reap` and `entry` keeps links, owners, records and waits in agreement |
| `ReapingRuns.JoinedOnce` | port/src/okm_thread.c:74-116 | after every run each context has been waited for at most once, and only when it had ended |
| `ReapingRuns.JoinedAfterFinished` | port/src/okm_thread.c:79-83 | whoever is about to wait does so for one context that has marked its record and that no one has waited for |
| `ReapingRuns.FreedAfterJoin` | port/src/okm_thread.c:82-84 | a record is freed when no context was started for it or that one has been waited for; then it is not on the list, no context runs on it, and no other caller has it to itself |
| `ReapingRuns.TouchesOnlyAllocated` | port/src/okm_thread.c:74-164 | no step reads, writes or frees a record that has been freed, but for the read of the answer after the unlock |
| `ReapingAnswers.AnswersFromItsOwn` | port/src/okm_thread.c:161-165 | the identity is read out of the record that was put on the list exactly when no other context has freed it since the unlock; it is as long as its context has not been waited for, and then only until the waiter frees it |
| `ReapingAnswers.AnswersWhileItRuns` | port/src/okm_thread.c:161-165 | it is when the new context does not return before the answer is read |
| `ReapingAnswers.AnswersWhenAlone` | port/src/okm_thread.c:161-165 | it is when no other context is in a call, and none begins one, before the answer is read |
| `ReapingAnswers.AnswerFromFreed` | port/src/okm_thread.c:161-165 | a run in which the record has been freed when it is read |
| `ReapingRuns.NothingLost` | port/src/okm_thread.c:65-70 | every context that was started has been waited for or has one record, on the list or in one caller's hands |
| `ReapingRuns.WhenQuiet` | port/src/okm_thread.c:65-70 | with no call under way the records are the list, and it names exactly the contexts not waited for |
| `ReapingRuns.NeverStuck` | port/src/okm_thread.c:74-165 | while a context is in a call or is ending some context can step: a wait is only for one that is about to end |
| `ReapingRuns.ReapIsBounded` | port/src/okm_thread.c:74-89 | one call takes at most a quadratic number of steps in the records it may find, since each restart removed one |
| `ReapingCollects.CollectedByThen` | port/src/okm_thread.c:74-89 | when a call is through with the list, no record of a context that had finished when the call began is on it: that context has been waited for, or another has its record in hand to do so |
| `DoneList.Done.Reap` | port/src/okm_thread.c:74-89 | the list is left with the unfinished records in order; the finished ones have been waited for once each, in order, and freed, and no other record was |
| `DoneList.Done.TakeOne` | port/src/okm_thread.c:80-84 | one record unlinked, waited for and freed, whatever its place |
| `DoneList.Done.Push` | port/src/okm_thread.c:161-164 | a record is put in front of the list |
| `DoneList.FirstGone` | port/src/okm_thread.c:76-88 | beginning again behind each removal comes to the same as one pass |
| `DoneList.KeptOrGone` | port/src/okm_thread.c:76-88 | each entry stays or goes, and not both |

## Left out

- The weak-memory effects of the atomics: every load, store and exchange is one step, in one order.
- DescriptorTable.Descriptors.DescRelease: not the name slot of a directory, which the last reference gives
  back; a description has none here.
- DescriptorTable.Descriptors.FdBind: likewise; the flags are one number, from which the flag that closes a
  descriptor when a program is started is taken by the caller.
- The table of those slots (`path_slot_alloc`, `okm_dir_remember`), `okm_chdir`, the attenuation of a supplied
  directory, `okm_errno` and `okm_open_flags`: tables and copies.
- The refusal of a name that ascends beneath a directory without a name: the test is in the model
  (`Resolver.ResolveBeneath`) as in the code, but `normalise` never emits two dots, so it is never taken and
  the name is clamped instead.
- Resolver.Confinement: of supplied directories whose names, where they begin with a separator, are in normal form
  and no volumes, as the environment gives them; `Resolver.Resolve` covers every other.
- Volumes.VolumeConfinement: likewise, and of volumes' names with one separator between their components.
- `memset`, `memcpy` and `memmove` over vectors of 32, the choice between the two widths, and the plain loops
  used without vectors: the same arguments over again, or none.
- Little-endian words only: on other machines the short comparison takes another branch.
- `__okm_rebind_context` and the state of a snapshot: they belong to starting up.
- Endpoint conversion, names, options, shutdown and sending on sockets: they fill structures or pass through.
- SocketTable.Table.OpenSocket: not the checks of domain, type flags and protocol before a slot is looked for.
- SocketTable.Table.BindSocket: not the endpoint that is recorded, nor the errors of its conversion.
- SocketTable.Table.ListenSocket: not the endpoint that is listened on.
- SocketTable.Table.ConnectSocket: not the peer that is recorded, nor the errors of its conversion.
- SocketTable.Table.AcceptSocket: not the check of the flags, nor the peer that is reported.
- Poll.Poll: a call without a bound is followed for any number of rounds that the caller of the model names,
  since it need not end. A null set, and how long the environment waits within one enquiry, are not modelled.
- Sockets.StepKeepsInv: each call is one step; so is each enquiry and receive in `Readiness.Conservation`. What
  several contexts at one held connection, message or byte come to is in `HeldAhead`, of which the flag and the
  value are read, or written, in one step.
- Ranges.InsertKeepsOrder: of ranges that end below the top of the address space, as is Regions.Record.Insert.
- Regions.Record.Insert: likewise; for any other range the search is wrong, as `Ranges.SearchRightExactly` says.
- ContextIdentities.EveryIdentityHasItsOwn: not of the retired word, nor of zero beside its stand-in, of which it
  is not so.
- `okm_region_advise`, the snapshot's ranges and the statistics: the first is the search and the part that
  `okm_region_unmap` uses, without a change to the record. `okm_map.c` is not part of this model.
- The argument and environment vectors of a started program, the directories granted to it, the name of its
  working directory, its record as a child, and whether a name can be started: they do not touch the streams.
- The identity counter of contexts and its 32 bits, thread-local storage, `SYS_exit` by `longjmp`, and the
  wake of the word that a creator waits upon.
- Reaping.StepKeepsInv: the handle of a started context is in its record from the step that starts it, as
  the environment fills it in before it answers.
- DescriptorTable.Descriptors.FdDup: asks that the counts be right, which `Ownership.StepKeepsInv` shows of
  every reachable table; with wrong counts a description could be released that is about to be counted again.
