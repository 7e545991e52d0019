# Gangway, modelled and proved

Gangway is a proxy that puts a small part of the Docker Engine API on a Unix socket. This project models the parts of
it that hold an algorithm or a protocol, and proves what they are for. `dafny verify dfyconfig.toml` checks all of it.

| module | what it models |
|---|---|
| `SocketProtocol`, `SocketSafety` | the publication of the socket by any number of instances, as a machine with one step per system call, with crashes and other programs |
| `SocketHost` | `Listen` and `Close` as code, each call a run of that machine, with any call able to fail |
| `SocketOrder` | what would be lost if `Close` released the lock before the unlink |
| `PathWalk`, `PathResolution` | the worklist that resolves a path, against a recursive walk and an unbounded relation |
| `PathAliases` | resolution while the filesystem changes, the kernel's resolution, and `ValidatePaths` |
| `SocketDirectory` | the directory the socket goes into: what is made of it, and when it can be had |
| `PublishedPath` | `Listen` on the whole directory tree: which paths are clean, when it succeeds, which entry it writes, and that it is not Docker's |
| `TokenBucket`, `TokenLaw` | the lazily refilled token bucket, and its law over windows of calls |
| `BackwardClock` | what a clock that goes backward costs such a bucket, over whole runs |
| `Admission` | classify, slot, token, Docker call and release, run by interleaved requests |
| `Throttling` | what a refused request costs the others |
| `PeerPolicy`, `ListenerStack` | peer authorization inside the connection limit, with Close racing Accept |
| `RequestGrammar`, `RequestTarget` | the recogniser of requests, its grammar, and the normal form of what it accepts |
| `BoundedRead`, `Utf8` | the bounded read into a pooled buffer, and the cut of a logged path |
| `Counting`, `Text` | counting in sequences; splitting, joining and searching byte strings |

## How to read the model

What the original changes step by step, a class or a method with loops changes step by step here, and its contract ties
the new state to a specification function or predicate; the properties are proved about that. What the original runs
concurrently is a machine: a state, the steps enabled in it, and `Run` for every finite sequence of them. A property of
every run is proved by an invariant that every step keeps.

Assumptions, all of them about what lies outside the code:

- A `char` stands for a byte. Instants are real seconds and tokens are reals.
- Inode numbers are never used twice.
- A system call is one atomic step. A step with `ok` false is one that fails, and any call may fail.
- Other programs may unlink the path, create a file on it, or bind and listen on it, but not between an instance's check
  and the act that relies on it: `NameRely` (an `Lstat` and the `Remove` or `Rename` after it) and `ListenRely` (a
  refused connection and the `Remove` after it). They leave the lock file alone.
- The kernel's own bound on a path walk is a parameter, `limit`; nothing is assumed about its value. A slash at the end of
  a path or of a link counts for it as a final ".", which demands a directory.
- Only for the places that publishing takes (`Publication`) and for when it succeeds (`CanListen`), the tree is assumed
  to be one: the root is a directory, and nothing lies below what does not exist (`IsTree`).
- A read from an upstream body reports an error in a call of its own, after the data before it. The response limit is
  less than the largest 64-bit integer, so that one more byte than the limit is a number.
- Whether the socket directory and the lock file belong to the user and are not writable by others is an input
  (`private`), and so are the umask, the random name of the staging directory, a peer's identity, the clock, and
  whether a connection was refused (`refused`) in the view that has no listeners.

## Where the code and its words differ

The model follows the code. Some places say something else, or less.

- The repository's README.md, lines 406-407, has it that a request answered 503 or 429 costs the other limit nothing. For
  503 this is proved, and more: such requests can be taken out of any run (`RefusedRequestsAreUnobservable`). A 429
  spends no token either, but its slot is given back by a deferred release after the answer, and until then it can make
  another request a 503. A handler can be brought to that exactly if it has a rate limit (`ThrottledCanCauseBusyIff`); in
  a given state it happens exactly if all slots are taken and a request answered 429 has one (`BusyDespiteRoomIff`); and
  requests answered 429 can be taken out of a run without changing any other exactly if none of them held a slot when
  another was answered 503 (`UndispatchedAreUnobservableIff`).
- internal/gangway/peer.go, lines 92-95, has it that a client being rejected occupies no connection slot. The limiter
  takes the slot before it accepts, so it does: the one of the Accept that has met it (`RejectedClientsHoldSlots`). That
  keeps another Accept waiting exactly if all slots are taken and a client under rejection has one (`KeptWaitingIff`),
  and it can come to that exactly if the policy is not empty and at least two goroutines call Accept
  (`RejectedCanKeepWaitingIff`). The program has one, in the server that internal/gangway/server.go, line 54, starts, so
  what internal/gangway/app.go, lines 138-140, expects, that no slot a permitted client needs is held, is true of it.
- internal/gangway/rate.go, lines 55-56, has it that a clock that went backwards costs at most one refill interval. Over a
  run it can cost as many admissions as tokens would have been refilled in the time it went back by, rounded up, and never
  more, whatever the bucket can hold (`BackwardClockLossIff`); so it is at most one exactly if it went back by at most
  the time of one token (`CostsAtMostOneIff`). The bucket of the warnings holds one, and is no exception.
- One expects that creating a socket where there was nothing changes no resolved path. It can turn a resolution into an
  error, also that of the very path it was created at (`SocketCanBlockItsOwnPath`); exactly when it does is
  `StableIffNothingBelow`. It never leads a path to another place (`ResolutionOutlivesChange`), which is what the check
  of the two sockets needs.
- `ValidatePaths` accepts a Docker path that names nothing yet, and publishing can then take that place for a directory
  on the way to the socket or for its lock file, or put a file above it. Exactly when it takes the place, and exactly
  when the Docker path then no longer resolves, is part of `ValidateAndListen`.

## Model

| member | source | states |
|---|---|---|
| `SocketProtocol.LockStep` | internal/gangway/socket.go:176-202 | Every step, of any instance, a crash or another program, keeps: the holder of the lock on the file that the lock path names is exactly the instance between its flock and the close of its lock |
| `SocketProtocol.StepKeepsInv` | internal/gangway/socket.go:105-128 | Every step keeps the whole invariant that ties lock ownership, the inode, mode and phase of each instance's socket, the directory entries, and each check an instance has made to the filesystem |
| `SocketProtocol.RunKeepsInv` | internal/gangway/socket.go:105-128 | So does every run |
| `SocketSafety.AtMostOneInLock` | internal/gangway/socket.go:105-115 | In every interleaving with crashes anywhere, at most one instance is between a successful flock and closing its lock |
| `SocketSafety.LockFileStays` | internal/gangway/socket.go:174-202 | Once it is there, no step unlinks or replaces the lock file |
| `SocketSafety.UnlinkingTheLockBreaksExclusion` | internal/gangway/socket.go:174-183 | Why that matters: if the lock file were unlinked while held, two instances could be in the lock |
| `SocketSafety.OthersLeaveTheEntry` | internal/gangway/socket.go:43-49 | While an instance is in the lock, no step of another instance, crashes included, changes what the path names |
| `SocketSafety.EntryStays` | internal/gangway/socket.go:40-53 | From its rename until it closes its lock, the path names an instance's own socket through every run of other instances; only another program can unlink it |
| `SocketSafety.OnlyDeadSocketsAreRemoved` | internal/gangway/socket.go:249-290 | No step of an instance replaces an existing entry, and one that removes an entry removes a socket nobody listens on, after proving it stale or as its own |
| `SocketSafety.VisibleSocketsAreReady` | internal/gangway/socket.go:204-247 | At every moment of every run a gangway socket at the path has exactly the mode it was asked to have, and is not one that has yet to listen |
| `SocketSafety.PublicationIsClean` | internal/gangway/socket.go:234-246 | The only step that makes a gangway socket visible is a rename onto a path that names nothing, of a socket that listens and has its mode |
| `SocketSafety.NothingIsLeftBehind` | internal/gangway/socket.go:212-243 | In every run, an instance that has published, closed, or given up at whichever call has left nothing in its staging directory, and unless it serves, no socket that listens |
| `SocketHost.Host.AcquireInstanceLock` | internal/gangway/socket.go:176-202 | Succeeds only if nobody holds the lock, and then holds it; does succeed if no call fails; failure leaves the lock with whoever has it, and the path alone |
| `SocketHost.Host.RemoveStaleSocket` | internal/gangway/socket.go:251-290 | Succeeds only if the path names nothing or a socket without a listener, and then has cleared it; does succeed if no call fails; failure at any call leaves the path alone |
| `SocketHost.Host.BindAndPublish` | internal/gangway/socket.go:207-247 | From a clear path it comes to serve, the path naming its own listening socket with the requested mode; if any call fails it leaves nothing at the path |
| `SocketHost.Host.Listen` | internal/gangway/socket.go:105-128 | If no call fails it serves if and only if the lock is free and the path clearable; whichever call fails, it then has given up, the lock is with whoever had it before, and the path is as it was or cleared of a stale socket |
| `SocketHost.Host.Close` | internal/gangway/socket.go:40-53 | Whichever call fails, it ends with its listener dead and the lock free; it unlinks at most its own socket, and does so if no call fails; the second time it does nothing |
| `SocketHost.Host.Restart` | internal/gangway/socket.go:249-290 | Crash recovery: from whatever any run, with any crashes, has left, if no instance is running and the path names nothing or a gangway socket, the next instance comes to serve unless one of its calls fails |
| `SocketHost.OverIsRecoverable` | internal/gangway/socket.go:249-251 | Crashed and closed instances leave neither a lock held nor a gangway socket with a listener |
| `SocketOrder.ServeAlone` | internal/gangway/socket.go:105-128 | As a property of the machine: with the lock unheld and the path clearable a new instance comes to serve, and no other instance is changed by that |
| `SocketOrder.DroppingTheLockEarlyLosesAnEntry` | internal/gangway/socket.go:43-49 | Why the lock is released last: dropped before the unlink, it lets a second instance publish in between, whose entry the first then unlinks |
| `PathWalk.WalkConcat` | internal/gangway/socketpath.go:98-102 | Budgets add over concatenation: walking two paths in a row is walking the first and then the second with what is left |
| `PathWalk.WalkStep` | internal/gangway/socketpath.go:105-140 | The recursive walk, which expands a link completely before the names after it, takes the loop's step: the names of the link go in front of the queue |
| `PathWalk.WalkIffReaches` | internal/gangway/socketpath.go:98-103 | A walk with a budget ends at a place if and only if the walk without one ends there and applies no more names than that |
| `PathWalk.CycleReached` | internal/gangway/socketpath.go:98-103 | A walk that reaches a name whose expansion comes back to that name resolves under no budget |
| `PathWalk.BlockedWalk` | internal/gangway/socketpath.go:118-125 | Blocking some names turns exactly the walks that look one of them up into errors |
| `PathWalk.DeadUnnoticed` | internal/gangway/socketpath.go:118-140 | A walk that does not end at an entry from which nothing leads on does not notice a change of that entry |
| `PathWalk.WalksCostTheSame` | internal/gangway/socketpath.go:98-103 | Two walks whose moves agree unless stopped, and that both resolve, apply as many names, so the budget of the one suffices for the other |
| `PathWalk.PaddedResolves` | internal/gangway/socketpath.go:88-92 | Where other moves do the same or stop, but for names in links that lead nowhere, whatever they resolve is resolved alike at no higher cost |
| `PathResolution.PathComponents` | internal/gangway/socketpath.go:146-160 | The loop gives the names of a path without the empty ones |
| `PathResolution.ComponentsConcat` | internal/gangway/socketpath.go:146-160 | Joining two paths with a separator joins their names, whatever separators they begin or end with |
| `PathResolution.ComponentsOfName` | internal/gangway/socketpath.go:146-160 | A string without a separator is one name |
| `PathResolution.ComponentsOfRender` | internal/gangway/socketpath.go:93-96 | Splitting undoes rendering, so two resolved strings are equal exactly if the places are |
| `PathResolution.ApplyName` | internal/gangway/socketpath.go:105-140 | One pass of the loop does with a name what the walk's move says; what that is for each kind of name, the next six rows say |
| `PathResolution.DotIsPassedOver` | internal/gangway/socketpath.go:109-110 | "." in a path changes nothing of where the rest leads |
| `PathResolution.DotDotUndoes` | internal/gangway/socketpath.go:111-113 | ".." takes back exactly the name before it, unless that is a symlink, at any place and before any rest: "/a/b/c/../d" leads where "/a/b/d" does |
| `PathResolution.DotDotStaysAtRoot` | internal/gangway/socketpath.go:111-113 | ".." at the root changes nothing of where the rest leads |
| `PathResolution.NameIsEntered` | internal/gangway/socketpath.go:116-139 | A name that is no symlink leads one name further down, also where nothing exists yet |
| `PathResolution.LinkIsItsTarget` | internal/gangway/socketpath.go:126-137 | A symlink stands for the names of its target, read from the root if that is absolute and else from the directory that holds the link, before the rest |
| `PathResolution.FailureEndsIt` | internal/gangway/socketpath.go:124-130 | What cannot be inspected or read ends the resolution with an error |
| `PathResolution.ResolveNames` | internal/gangway/socketpath.go:98-143 | The worklist loop computes the recursive walk, its errors included, under any budget and any moves that are the resolver's |
| `PathResolution.ResolvePath` | internal/gangway/socketpath.go:93-144 | The whole of it computes the walk with a budget of 255 |
| `PathResolution.ResolveIffReaches` | internal/gangway/socketpath.go:93-144 | It returns a place if and only if the unbounded walk meets no error, ends there, and applies at most 255 names in all, depth and symlink hops together |
| `PathResolution.CyclesAreRefused` | internal/gangway/socketpath.go:98-103 | Every symlink cycle that is reached is refused |
| `PathResolution.ResolveIsCanonical` | internal/gangway/socketpath.go:84-96 | A result has no symlink on the way, no empty, "." or ".." name and a depth of at most 255, and resolves to itself within the budget |
| `PathAliases.ResolutionOutlivesChange` | internal/gangway/socketpath.go:37-39 | Whatever is created or removed besides symlinks, a path that still resolves resolves to the same place, so an accepted pair cannot become one file |
| `PathAliases.DirectoriesChangeNothing` | internal/gangway/socketpath.go:120-123 | Creating a directory where there was nothing changes no resolution |
| `PathAliases.StableIffNothingBelow` | internal/gangway/socketpath.go:118-140 | Creating a socket or file where there was nothing leaves a resolution as it was if and only if that looks nothing up below it, and otherwise makes it an error |
| `PathAliases.SocketCanBlockItsOwnPath` | internal/gangway/socketpath.go:118-125 | The other half does occur: a path whose own socket, once created, makes it unresolvable |
| `PathAliases.KernelDots` | internal/gangway/socketpath.go:84-92 | For the kernel, in a directory that exists, "." changes nothing, nor does ".." at the root |
| `PathAliases.KernelDotDotUndoes` | internal/gangway/socketpath.go:84-92 | ".." takes back exactly the directory before it |
| `PathAliases.KernelEnters` | internal/gangway/socketpath.go:84-92 | It enters what exists in a directory |
| `PathAliases.KernelFollows` | internal/gangway/socketpath.go:84-92 | It puts the names of a link's target, with its rule for a trailing slash, before the rest |
| `PathAliases.KernelErrors` | internal/gangway/socketpath.go:69-72 | Its error is "not found" exactly for a name missing from a directory, and no name can be looked up in anything else |
| `PathAliases.KernelAgrees` | internal/gangway/socketpath.go:88-92 | Where the kernel's walk of section 4.13 of POSIX.1-2017, its rule for trailing slashes included, ends at something, the resolver's ends there too and applies no more names |
| `PathAliases.TrailingSlashDemandsDirectory` | internal/gangway/socketpath.go:64-68 | With a slash behind it, what a path names is found exactly if it is a directory, and otherwise is an error that ValidatePaths does not take for "not there yet" |
| `PathAliases.ResolverAgreesWithKernel` | internal/gangway/socketpath.go:88-92 | Resolver before and kernel afterwards agree on every path that both accept, whatever but symlinks has come or gone in between |
| `PathAliases.ValidatePaths` | internal/gangway/socketpath.go:45-82 | Accepts exactly the pairs that are apart, and reports a configuration error exactly for the mistakes that no retry mends, among them a Docker path that names the inode of the listen path under another name |
| `PublishedPath.CleanIff` | internal/gangway/socket.go:68-75 | The paths that filepath.Clean leaves alone are exactly the renderings of places without dot names; so every ordinary path passes the check |
| `PublishedPath.LexicalKeeps` | internal/gangway/socket.go:68-75 | Cleaning keeps every name that is no dot name |
| `PublishedPath.LexicalDots` | internal/gangway/socket.go:68-75 | Cleaning drops ".", and ".." together with the name before it, or alone at the root |
| `PublishedPath.CleanNames` | internal/gangway/socket.go:68-75 | A path that filepath.Clean leaves alone is the rendering of its names, with no dot name among them |
| `PublishedPath.CleaningIsResolving` | internal/gangway/socketpath.go:88-92 | Where nothing is a symlink, cleaning a path leads where resolving it does |
| `PublishedPath.CleaningAgreesIff` | internal/gangway/socketpath.go:88-92 | Why the resolver does not clean first: for a symlink followed by "..", cleaning and resolving agree if and only if the link names something in its own directory |
| `PublishedPath.EntryIsTheResolved` | internal/gangway/socket.go:68-81 | Taking the directory and the last name apart as text leads the kernel to the entry the resolver named |
| `PublishedPath.PublishedEntryIsNotDockers` | internal/gangway/socketpath.go:37-39 | For an accepted pair and a clean listen path, the entry written is the resolved one, and neither resolver nor kernel takes the Docker path there |
| `PublishedPath.DirectoryIsFoundAgain` | internal/gangway/socket.go:81-87 | Publishing does not change where the kernel finds the socket directory |
| `SocketDirectory.MadeIsFound` | internal/gangway/socket.go:151-157 | A directory just made is where its path leads the kernel |
| `SocketDirectory.WayIsFilled` | internal/gangway/socket.go:137-172 | Once the socket directory is found, exactly the missing places on the way to it have become directories |
| `SocketDirectory.CanMakeBelow` | internal/gangway/socket.go:147-165 | A missing directory can be had exactly if its parent can, with a step of the kernel's bound to spare, and nothing has its name |
| `SocketDirectory.MakesAfterParents` | internal/gangway/socket.go:151-165 | After the parents and one Mkdir, the directory is found exactly if it could be made |
| `PublishedPath.StagesPublish` | internal/gangway/socket.go:105-128 | Lock, removal and publication together make of every place in the tree exactly what is said: socket at the entry, lock file, nothing looked up below either, all else as it was |
| `PublishedPath.PublicationAndPaths` | internal/gangway/socketpath.go:118-140 | After publication a path resolves as it did if and only if resolving it looks up nothing that was missing below the entry or a new lock file; otherwise it is an error |
| `PublishedPath.CleanPathStays` | internal/gangway/socketpath.go:84-86 | A clean listen path whose directory the kernel finds resolves as it did, at the same cost |
| `PublishedPath.Disk.Mkdir` | internal/gangway/socket.go:157-165 | Creates one directory exactly where its parent is found and nothing has its name, and tells what is there already from what cannot be made |
| `PublishedPath.Disk.CreateSocketDir` | internal/gangway/socket.go:131-172 | Creates missing directories on the way to the one asked for and nothing else; a directory that exists is left as it is, and a file in its place is an error; the directory is found afterwards if and only if some prefix of its names led to a directory with the next name free |
| `PublishedPath.Disk.AcquireInstanceLock` | internal/gangway/socket.go:174-202 | Needs a regular file and the lock, and creates at most the lock file; succeeds exactly if the lock can be had and its place was free or a regular file |
| `PublishedPath.Disk.RemoveStaleSocket` | internal/gangway/socket.go:249-290 | Success leaves nothing at the entry, and what was there was a socket that refused a connection; failure changes nothing; succeeds exactly if nothing was there or a socket that refuses |
| `PublishedPath.Disk.Stage` | internal/gangway/socket.go:208-219 | Binds a new inode inside a new private directory, exactly if their places are free |
| `PublishedPath.Disk.BindAndPublish` | internal/gangway/socket.go:204-247 | Success puts a socket with a new inode where there was nothing; failure leaves an existing entry as it was; everything else that existed stays; where nothing is at the entry it succeeds exactly if the staging place is free |
| `PublishedPath.Disk.ListenIn` | internal/gangway/socket.go:81-128 | Success puts a new socket at the name in the directory, and overwrote at most a stale socket; every other place is exactly as said, directories on the way, a new lock file, nothing to look up below these files, and all else as it was; failure spares all that existed, but for a stale socket; succeeds if and only if the directory is private and there or to be had, the lock can be had, the entry is free or a socket that refuses, and the staging place is free |
| `PublishedPath.Disk.ListenAt` | internal/gangway/socket.go:105-128 | The same, from the lock on, for a directory that is there |
| `PublishedPath.Disk.Listen` | internal/gangway/socket.go:64-129 | The same for a path, which must be absolute and clean, and succeeds exactly then |
| `PublishedPath.Disk.ValidateAndListen` | internal/gangway/socketpath.go:37-81 | If both succeed, the new socket is where the listen path resolved and still resolves, and not where the Docker path leads; what existed there is untouched, and where nothing did, the place is left so if and only if it is not claimed; the Docker path resolves as before if and only if that looks up nothing missing below the entry or a new lock file; both succeed if and only if the paths are apart, the listen path is clean, and what publishing needs can be had |
| `TokenBucket.Bucket.Allow` | internal/gangway/rate.go:47-69 | The object follows the specification whose law the next rows prove |
| `TokenBucket.NewBucket` | internal/gangway/rate.go:29-42 | No bucket for a non-positive rate; otherwise a full one that can hold a token at least |
| `TokenBucket.AllowAll` | internal/gangway/rate.go:47-69 | A run of calls gives the decisions, and leaves the level, of the specification |
| `TokenLaw.HighWaterIsLatest` | internal/gangway/rate.go:55-60 | The high-water clock is the latest of the instants so far |
| `TokenLaw.TokensAreExact` | internal/gangway/rate.go:55-68 | With any clocks, backward ones included, the tokens are exactly the least, over all windows that end now, of capacity plus refill on the high-water clock less the calls admitted in it |
| `TokenLaw.AdmittedIffNoWindowIsOverrun` | internal/gangway/rate.go:55-68 | A call is admitted if and only if that overruns no window ending at it |
| `TokenLaw.WindowPolicyIsUnique` | internal/gangway/rate.go:55-68 | No other sequence of decisions follows that rule on every call |
| `TokenLaw.AdmissionsInWindow` | internal/gangway/rate.go:17-20 | Admissions in any window are at most the capacity plus the rate times the time elapsed |
| `TokenLaw.RefusedCallsAreUnobservable` | internal/gangway/rate.go:55-68 | Deleting any refused calls from any run, with out-of-order clocks, changes no other decision, and leaves a bucket that only lags behind in refilling |
| `TokenLaw.OnlyTheHighWaterCounts` | internal/gangway/rate.go:55-60 | A run equals the run in which each instant is replaced by the latest one so far |
| `TokenLaw.FreshBurst` | internal/gangway/rate.go:29-42 | Of any number of calls at the instant it is made, a bucket admits as many as it has whole tokens |
| `TokenLaw.RequestBurst` | internal/gangway/handler.go:78-82 | A fresh handler lets four seconds of requests through at one instant, or one for each slot if that is more, and no more |
| `TokenLaw.RequestsInWindow` | internal/gangway/handler.go:78-96 | In any window it lets through at most that many and the configured rate times the time elapsed |
| `TokenLaw.BurstCoversTheSlots` | internal/gangway/handler.go:78-82 | Whatever the rate and the clocks, the first requests, as many as there are slots, are let through |
| `TokenLaw.SingleTokenIff` | internal/gangway/rate.go:55-68 | A bucket of one token admits a call if and only if the clock has made a token since each earlier call it admitted |
| `TokenLaw.WarningsIff` | internal/gangway/handler.go:23-27 | A warning is written if and only if every one written before lies at least thirty seconds back on the high-water clock |
| `BackwardClock.LossIsBounded` | internal/gangway/rate.go:55-60 | In every run, with any calls, a clock that goes back loses no more admissions than the tokens of the time it went back by, rounded up |
| `BackwardClock.SomeRunLoses` | internal/gangway/rate.go:55-60 | And for every number within that there is a run from a full bucket that loses as many |
| `BackwardClock.BackwardClockLossIff` | internal/gangway/rate.go:55-60 | So n admissions can be lost if and only if more than n - 1 tokens would have been refilled in that time, whatever the capacity |
| `BackwardClock.CostsAtMostOneIff` | internal/gangway/rate.go:55-56 | What the comment claims, in every run, holds if and only if the clock went back by at most the time of one token |
| `Admission.StepKeepsInv` | internal/gangway/handler.go:110-150 | Every step of every request keeps the ties between slots, bucket and requests |
| `Admission.SlotsAreConserved` | internal/gangway/handler.go:180-191 | In every interleaving the slots taken are the requests between acquire and release, Docker calls in progress never exceed the limit, and no release blocks |
| `Admission.TokensAreDispatches` | internal/gangway/handler.go:120-137 | Tokens spent are exactly the requests dispatched to Docker, the bucket is asked exactly about these and the ones answered 429, and dispatches are bounded by capacity and time |
| `Admission.DecisionsFollowTheWindows` | internal/gangway/handler.go:133-137 | In every interleaving a request gets through the rate limit if and only if it overruns no window of the calls made so far |
| `Admission.SoloRequest` | internal/gangway/handler.go:110-150 | From any state an uninterrupted request gets the answer of the sequential specification, gives back its slot, and spends a token only if it is dispatched |
| `Admission.Handler.constructor` | internal/gangway/handler.go:78-98 | Builds the configuration the machine runs with: no limiter for a rate of zero; otherwise a full bucket of four seconds of requests and at least one request per slot |
| `Admission.Handler.Acquire` | internal/gangway/handler.go:180-189 | Takes a slot exactly if one is free |
| `Admission.Handler.Release` | internal/gangway/handler.go:191-191 | Gives back one slot |
| `Admission.Handler.ServeHTTP` | internal/gangway/handler.go:110-150 | Answers and moves the bucket as the sequential specification says, and leaves the slots as they were |
| `Throttling.RefusedRequestsAreUnobservable` | internal/gangway/handler.go:113-130 | Requests that end as 403 or 503 can be taken out of any run: all others go through the same steps with the same bucket, slots and answers |
| `Throttling.BusyDespiteRoomIff` | internal/gangway/handler.go:120-137 | In every reachable state, a 503 although requests other than throttled ones leave a slot free is due exactly if all slots are taken and a request answered 429 has one |
| `Throttling.ThrottledCanCauseBusyIff` | internal/gangway/handler.go:78-98 | A handler with any number of slots and any rate can be brought to such a 503 if and only if it has a rate limit |
| `Throttling.UndispatchedAreUnobservableIff` | internal/gangway/handler.go:120-137 | Requests that never reached Docker, 429 included, can be taken out of a run with every other request keeping its steps and its answer if and only if none of them held a slot when another was answered 503 |
| `PeerPolicy.AuthorizedAccept` | internal/gangway/peer.go:56-74 | The loop stops at the first arrival that is an error or a client that may proceed: an identified one that is the proxy's own user, or is on the list of users and on that of groups, where these are not empty; exactly the clients before it have been closed |
| `ListenerStack.NewConfig` | internal/gangway/limit.go:25-37 | A non-positive limit becomes one, and a positive one is kept |
| `ListenerStack.StepKeepsInv` | internal/gangway/limit.go:39-62 | Every step of every Accept, every connection's Close and the listener's Close keeps the invariant on slots, connections and close calls |
| `ListenerStack.SlotsAreConserved` | internal/gangway/limit.go:39-53 | In every interleaving the slots taken are the acceptors past the select plus the connections not yet released, within the limit |
| `ListenerStack.ReceivesNeverBlock` | internal/gangway/limit.go:47-52 | Neither receive from the slots channel ever blocks, also when a connection is closed twice at once |
| `ListenerStack.OpenSocketsAreBounded` | internal/gangway/limit.go:8-14 | Open accepted sockets, those being vetted included, never exceed the limit |
| `ListenerStack.ReleasedExactlyOnce` | internal/gangway/limit.go:64-74 | Once a close call has finished, no other close call of that connection moves the slot count |
| `ListenerStack.HandsOutIff` | internal/gangway/peer.go:56-74 | A step hands a client to the server if and only if both lists are empty, or it is identified and is the proxy's own user or on each list that is not empty |
| `ListenerStack.OnlyPermittedPeers` | internal/gangway/peer.go:92-95 | In every run every connection the server has got is from such a client |
| `ListenerStack.AcceptProceeds` | internal/gangway/peer.go:137-160 | In every interleaving the steps of each goroutine are those of the code: a rejected client is closed and the socket accepts again, an error is returned after the slot has been given back and only then, and a permitted client ends the call |
| `ListenerStack.RejectionGoesOn` | internal/gangway/peer.go:149-155 | After a rejection the Accept still holds its slot, and accepts again unless the socket is closed |
| `ListenerStack.PendingAcceptCanMove` | internal/gangway/limit.go:39-53 | After the listener's Close, an Accept that has not returned can always take a step, in every reachable state |
| `ListenerStack.RankFalls` | internal/gangway/limit.go:39-62 | After Close each of its steps, whichever branch the select takes, lowers its rank, and nobody else's touches it |
| `ListenerStack.AcceptReturnsAfterClose` | internal/gangway/limit.go:55-62 | So it makes at most four more steps in any run, and has returned when none is left |
| `ListenerStack.SlotsAtRest` | internal/gangway/limit.go:39-53 | Once all Accepts have returned and all close calls are done, the slots taken are the open connections |
| `ListenerStack.KeptWaitingIff` | internal/gangway/peer.go:92-95 | In every reachable state before Close, an Accept waits although permitted clients leave a slot free exactly if all slots are taken and a client under rejection has one |
| `ListenerStack.RejectedCanKeepWaitingIff` | internal/gangway/peer.go:92-95 | With any number of goroutines in Accept, it can come to that if and only if the policy is not empty and there are at least two |
| `ListenerStack.RejectedClientsHoldSlots` | internal/gangway/limit.go:39-46 | Every client under rejection holds a slot, and with an empty policy there is none |
| `ListenerStack.LimitedListener.Accept` | internal/gangway/limit.go:39-53 | A call takes a slot exactly if it hands out a connection, and that is the first arrival of a client that may proceed, by both lists and the proxy's own user, those before it closed; after Close it hands out none |
| `ListenerStack.LimitedListener.Close` | internal/gangway/limit.go:55-62 | However often it is called, the socket is closed once |
| `ListenerStack.LimitedConn.Close` | internal/gangway/limit.go:70-74 | Closes the connection, and gives back the slot exactly once, however often it is called |
| `RequestGrammar.CheckAPIVersion` | internal/gangway/validate.go:38-61 | The loop decides the versions of the grammar |
| `RequestGrammar.APIVersionIff` | internal/gangway/validate.go:38-61 | These are exactly the strings of 3 to 16 bytes that are digits, one dot, digits |
| `RequestGrammar.CheckContainerID` | internal/gangway/validate.go:63-78 | The loop decides the container IDs of the grammar |
| `RequestGrammar.ContainerIDIff` | internal/gangway/validate.go:63-78 | These are exactly 64 lower-case hexadecimal digits |
| `RequestGrammar.CheckImageReference` | internal/gangway/validate.go:80-108 | The one-pass scan accepts exactly the references whose bytes are allowed and none of whose segments is empty, "." or ".." |
| `RequestGrammar.ImageReferenceIff` | internal/gangway/validate.go:80-108 | These are exactly the strings of up to 1024 bytes that are segments of letters, digits and "._:@+-" between slashes, none of them empty, "." or ".." |
| `RequestGrammar.ParseOfPrint` | internal/gangway/allowlist.go:64-118 | Parsing a printed target of the grammar gives the target back |
| `RequestGrammar.PrintOfParse` | internal/gangway/allowlist.go:64-118 | A parse is in the grammar and prints back to its path |
| `RequestGrammar.PrintIsInjective` | internal/gangway/allowlist.go:83-99 | Each path has at most one parse, so the kinds of route are disjoint |
| `RequestGrammar.AcceptedIff` | internal/gangway/allowlist.go:40-100 | The accepted requests are exactly the printed ones: GET of a target of the grammar, or HEAD of the ping, with that target as raw target and path, no second spelling, no query, no body and no transfer encoding; the route names the kind of the target and its path |
| `RequestGrammar.ClassifyIsTheGrammar` | internal/gangway/allowlist.go:53-100 | Of the plain requests, those are accepted whose path is a target of the grammar, with that target's kind, under a method that kind allows |
| `RequestGrammar.EarlyCheckIsRedundant` | internal/gangway/allowlist.go:60-62 | The early reject of "%", backslash, control bytes and "//" never changes what is accepted |
| `RequestGrammar.GrammarBytes` | internal/gangway/allowlist.go:60-62 | No target of the grammar contains any of them |
| `RequestGrammar.CollectionsAreRefused` | internal/gangway/allowlist.go:102-118 | The list endpoints are refused bare and under every version |
| `RequestTarget.PrintIsSlashed` | internal/gangway/allowlist.go:29-34 | A target of the grammar is a path of segments |
| `RequestTarget.PlainSegmentsStay` | internal/gangway/validate.go:80-82 | remove_dot_segments, section 5.2.4 of RFC 3986, leaves any path of such segments alone |
| `RequestTarget.DotSegmentsGo` | internal/gangway/validate.go:80-82 | From any other it takes each "." away, and each ".." with the segment before it |
| `RequestTarget.DecodeOfEncode` | internal/gangway/allowlist.go:54-58 | Percent-decoding undoes percent-encoding on any bytes |
| `RequestTarget.AcceptedTargetsAreCanonical` | internal/gangway/allowlist.go:49-62 | An accepted target is the raw request target, matches path-absolute of section 3.3 of RFC 3986 with no empty and no dot segment, and is a fixed point of remove_dot_segments and of percent-encoding and -decoding |
| `BoundedRead.Buffer.ReadFromLimited` | internal/gangway/json.go:74-79 | However the stream is chunked, exactly its first `limit` bytes are read, or all of it |
| `BoundedRead.Pool.GetBuffer` | internal/gangway/json.go:27-36 | A buffer comes out empty, whatever it held, and is no longer in the pool |
| `BoundedRead.Pool.PutBuffer` | internal/gangway/json.go:38-42 | Only a buffer within the cap goes back |
| `BoundedRead.DecodeJSON` | internal/gangway/json.go:53-88 | A stream longer than the limit is refused as too large, and only such a one, after exactly one byte past the limit; else it fails exactly if the stream breaks off, and is otherwise the parse of the whole stream: whatever the chunking, the declared length or the pooled contents |
| `Utf8.PathForLog` | internal/gangway/json.go:161-173 | On any bytes a prefix within 256 bytes and an ellipsis; on valid UTF-8 a valid result that keeps at least 253 bytes |
| `Utf8.ValidIff` | internal/gangway/json.go:161-161 | Valid UTF-8, by the syntax of section 4 of RFC 3629, is exactly what its section 3 encodes sequences of code points to |
| `Utf8.CutOfValidText` | internal/gangway/json.go:167-170 | In valid UTF-8, section 4 of RFC 3629, backing up to a rune start loses at most three bytes and splits no character |
| `Utf8.CutIsUnique` | internal/gangway/json.go:167-170 | The bytes determine the position of the cut |
| `Utf8.PrefixIsValid` | internal/gangway/json.go:161-162 | What precedes a rune start in valid UTF-8 is valid |
| `Utf8.StartIsNear` | internal/gangway/json.go:167-170 | From any position in valid UTF-8 a rune start is at most three bytes back |

## Left out

- The HTTP server and transport, timeouts, `Serve` and shutdown (server.go, health.go): their correctness is that of libraries.
- Flags, exit codes, signals, logging and `main.go`; `app.go` serves only as evidence for the order of the listeners.
- The system calls behind peer credentials (peer_linux.go, peer_other.go): an identity is known or it is not.
- JSON syntax, and the shaping of responses (inspect.go, ping.go, upstream.go): parsing is a function of the bytes.
- Range checks and defaults of config.go: single-branch facts.
- TokenBucket.Bucket.Allow: does not model the rounding of float64, nor the nil receiver, which `Handler` treats as no limit.
- Admission.Handler.ServeHTTP: one uninterrupted request; interleavings are the machine of the same module. What Docker answers is one outcome, `Relayed`.
- ListenerStack.LimitedListener.Accept: one uninterrupted call, which the source would block where neither branch of the select is ready; interleavings are the machine of the same module.
- SocketHost.Host.Listen: one instance alone; interleavings are steps of `SocketProtocol`. The checks on the directory before the lock are not part of it.
- SocketHost.Host.AcquireInstanceLock: a lock file that is not regular or not private is one way in which the second call fails.
- SocketHost.Host.Close: the errors it joins are not modelled, only what they leave behind.
- PublishedPath.Disk.Listen: one process, and a listener's presence is an input; modes of files, and the check that a group can traverse the directory, are not modelled on the tree.
- PublishedPath.Disk.BindAndPublish: the `Chmod` of the socket and failing calls are not modelled on the tree; they are steps of `SocketProtocol`, and `SocketHost` has them as code.
- PublishedPath.Disk.AcquireInstanceLock: whether the lock is free is an input; who holds it is the matter of `SocketProtocol`.
- PublishedPath.Disk.RemoveStaleSocket: the probe's answer is an input and nothing changes in between; probe and recheck are steps of `SocketProtocol`.
- PublishedPath.Disk.CreateSocketDir: the `Chmod` after a `Mkdir` is not modelled, as the tree has no modes.
- SocketProtocol.StepKeepsInv: `MkdirTemp`, `Lstat` of the staged socket and removal of the staging directory are steps, but the staging directory is only the name of the socket in it.
- Error values: an error is told apart only as far as some branch of the code tells it apart.
