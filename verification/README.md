# nixct: a verified model

This project models the parts of the repository that decide something: two
protocols between processes, a file format with its printer and its parser, a
filtering SSH agent proxy, a network policy compiler, a FUSE view of a store, an
id encoding and a start check. Each module follows one source file or one
component; `dafny verify dfyconfig.toml` checks all of it.

- `Lease`, `LeaseCommands`: launchers of one app share a holder container through
  two `flock` files and may die between any two steps. A transition system over
  any number of processes; the conversion of an exclusive lock into a shared one
  is two steps, as in the kernel. The second module says which podman commands a
  launcher makes.
- `Session`, `SessionReads`: shells join a develop session with a marker, hand it
  over to a scope without the lock, and a watchdog tears the session down. Reading
  scopes and reading markers are separate steps, in either order. The second
  module says what a shell and a watchdog have read when they act.
- `Plan`, `PlanRoundTrip`, `PlanRefusals`, `Argv`, `ArgvRefusals`: the launch plan as
  nix/app/plan.nix prints it and nix/app/runner.rs reads it, and the way from its
  items to podman's arguments.
- `Proto`, `Digest`, `DigestConstants`, `Glob`, `Policy`, `Proxy`, `ProxyRuns`,
  `ProxyReplies`: the agent proxy, from the wire format and the digest to whole
  connections between arbitrary peers.
- `Ruleset`, `RulesetNumbers`: a declared network policy with its meaning, the rule
  lists it is compiled to, and a first-match evaluator; and the same in numbers.
- `Realize`, `Nodes`, `Inodes`, `Handles`, `StoreFs`: lexical paths, which links
  are followed, the inode table with paged listings, the backing-file cache, and
  the class that holds them.
- `MountId`, `SharedIds`: the session id of a project path, its decoder, and which
  paths share an id.
- `Skips`: the skip counter of a unit start and the recheck it arms.
- `Text`, `Wrappers`: strings and the optional value, shared by the others.

Methods follow the loops and assignments of the code and are proved equal to a
function; what the source promises is proved about that function.

## Where the code and its comments differ

The model follows the code.

- nix/container-module.nix:252-256 says a decision under the lock is one no joiner
  can invalidate. The scopes are read before the markers, the handover takes no
  lock, and it can fall between the two reads. The same holds for the search of a
  free index. Reading markers first would be safe.
- nix/scripts/run.nix:411-414 says two paths cannot land on one id. `/a-/b` and
  `/a/-b`, `/a--b` and `/a/-/b`, `/` and `/project`, `/.a` and `/_.a`, and `/a b` and
  `/a_b/<digest>` do. `SharedIds` says which canonical paths share their
  id. Lines 422-426 say other characters are folded; a newline inside is not.
- ssh-agent-filter/src/policy.rs:105-106 says `*` matches any run. That holds of
  patterns with no `*` or with one at the end. Line 184 says an allow list fails
  closed for a key never listed; a spec that is empty or all `*` admits it.
- nix/app/plan.nix:6-7 says a field that cannot be carried is an error there. A
  final carriage return, or a name that starts with `#` or `[`, is printed and lost.
  `tty` (lines 86-89) is not checked at all: `"never\nname\tother"` renames the
  plan, and any other value on one line is printed and then refused.
- prison-store-check/src/lib.rs:14-19 says every skip arms a recheck. Timer names
  fold other characters to dashes, so two units can share one and the second is
  not rechecked.

## Model

| member | source | states |
|---|---|---|
| `Lease.RemovalOnlyUnclaimed` | nix/app/runner.rs:673-716 | In every interleaving of any number of launchers, with kills between any two steps and the holder dying at any time, a podman call that removes the holder is made only by the owner of the guard, with no claim held and no entry leased; `LeaseCommands.LeftoverIsRemovedFirst` says when it is made. |
| `Lease.LeasedEntryKeepsHolder` | nix/app/runner.rs:673-716 | From a successful `acquire_lease` to the entry's release or death the holder container exists and no launcher removes it, although turning the exclusive lock into a shared one is an unlock followed by a lock. |
| `Lease.HolderGoneWhenAllDone` | nix/app/runner.rs:867-873 | In a run without kills, failures or guard timeouts, once every launcher has finished the holder is gone. |
| `Lease.CalmRunAttends` | nix/app/runner.rs:704-716 | In such runs a holder that exists always has somebody who holds a claim, owns the guard or is about to take it to release. |
| `Lease.KilledLauncherLeavesHolder` | nix/app/runner.rs:867-873 | Why those runs exclude kills: a launcher killed inside its entry leaves a live holder and nobody to remove it. |
| `Lease.StepKeepsInv` | nix/app/runner.rs:625-716 | Every step of every launcher, of the kernel and of the holder keeps the invariant that ties each program counter to the locks it owns. |
| `Lease.RunKeepsInv` | nix/app/runner.rs:625-716 | The same over whole runs. |
| `Lease.RemoverIsAlone` | nix/app/runner.rs:673-716 | A launcher at a removal owns the guard, nobody has a claim, and nobody else is past the guard or leased. |
| `Lease.ActTakesFreeLocks` | nix/app/runner.rs:552-592 | A lock is taken only when the others leave it free, a claim and an exclusive lock never meet, and only a remover makes the holder vanish. |
| `Lease.ProbeFailsForAReason` | nix/app/runner.rs:704-716 | A releasing launcher that cannot take the exclusive lock leaves another launcher behind that will look after the holder. |
| `Lease.CalmActLeavesNothing` | nix/app/runner.rs:673-716 | A launcher that stops being responsible has removed the holder or met others at its probe. |
| `LeaseCommands.AcquisitionCommands` | nix/app/runner.rs:624-701 | In every run, from a launcher's try for the exclusive lock on: once its entry starts, its podman commands were at most one removal, of a dead holder and only with the lock, then at most one creation, where there was none, then one start that succeeded and was followed by seeing the holder alive; once it is refused, it stopped in that order at a call without an answer, a failed start, a creation that failed and left nothing, or a holder seen dead. |
| `LeaseCommands.LeftoverIsRemovedFirst` | nix/app/runner.rs:671-689 | In every run a launcher that gets the lock and finds a dead holder removes it before any other command; one that does not get the lock, finds none, or finds one that stays alive removes nothing. |
| `LeaseCommands.ReleaseCommands` | nix/app/runner.rs:704-716 | In every run a releasing launcher makes exactly one removal if nobody has a claim or the lock when it probes, and no command otherwise. |
| `LeaseCommands.CommandsFitTheHolder` | nix/app/runner.rs:624-689 | In every reachable state a leftover about to be removed is dead, and a holder about to be created or started is absent or present. |
| `LeaseCommands.NobodyIsStuck` | nix/app/runner.rs:552-716 | In every reachable state a launcher that waits for nobody else's lock has a step that goes well. |
| `LeaseCommands.EveryStepGoesForward` | nix/app/runner.rs:624-716 | Each step of a launcher's own leaves it fewer steps, from twenty on, whatever the others did meanwhile. |
| `LeaseCommands.FilesOfTheKilled` | nix/app/runner.rs:552-592 | When the kernel closes a file of a killed launcher exactly its locks on that file are free. |
| `Session.OrderIsSafeIffMarkersFirst` | nix/container-module.nix:258-287 | Over all runs, from the decision to tear down to the end of the teardown no shell is between registering and ending, shells belong to the session that is up, and no two share an index, exactly when markers are read before scopes. |
| `Session.MarkersFirstIsSafe` | nix/container-module.nix:249-287 | Reading the markers first is safe, the teardown included, in every run of any number of shells and watchdogs, with deaths at any point. |
| `Session.QuietScopesFirstIsSafe` | nix/container-module.nix:252-256 | The order in the code is safe, the teardown included, in every run where no marker is dropped between two reads, which is the single observation its comment assumes. |
| `Session.RunIsSoundIffNoneMissed` | nix/container-module.nix:274-287 | In either order a run stays safe, and no shell comes to mark an index somebody has, exactly as long as no second read misses a shell that is in its way. |
| `Session.MissedShellHandedOverBetween` | nix/container-module.nix:258-281 | In the order of the code a shell that a second read misses was setting up, with its marker, at the first read, and has since appeared as a scope and dropped the marker. |
| `Session.StepKeepsCore` | nix/scripts/run/dispatch.nix:443-474 | Every step but such a read keeps what the lock holders rely on, through to the end of a teardown. |
| `Session.ScopesFirstTearsDownRunningShell` | nix/container-module.nix:274-287 | A run of the code's order in which the handover falls between the two reads and the watchdog tears down under a running shell. |
| `Session.ScopesFirstSharesIndex` | nix/scripts/run/dispatch.nix:459-471 | A run of the code's order in which two unfinished shells hold index 1. |
| `Session.ArrivalGetsFreshSession` | nix/scripts/run/dispatch.nix:456-459 | In every run and either order, a shell let in builds a fresh session exactly when nobody was let in since the last teardown decision, and never while a watchdog is tearing down. |
| `Session.LiveMeansUp` | nix/scripts/run/dispatch.nix:458-459 | The `live` file exists exactly when a shell was let in since the last teardown decision. |
| `Session.StepKeepsInv` | nix/scripts/run/dispatch.nix:443-474 | Every tolerated step of shells, watchdogs and the five-minute sweep keeps what readers in the middle of their two reads rely on. |
| `Session.RunKeepsInv` | nix/scripts/run/dispatch.nix:862-874 | The same over whole runs, the lock-free handover included. |
| `Session.MarkIsUnshared` | nix/scripts/run/dispatch.nix:460-471 | The index a shell is about to mark belongs to no unfinished shell; which index that is, is said by `SessionReads.SearchFindsFirstFree`. |
| `SessionReads.SearchFindsFirstFree` | nix/scripts/run/dispatch.nix:456-473 | In every run in the code's order, from the moment a shell is let in: the index it goes on with is one of 1 to 64, its last two reads found no scope and no marker of it, and each lower one was found taken at one of its reads; it gives up only after finding each of the 64 taken. |
| `SessionReads.SearchAlone` | nix/scripts/run/dispatch.nix:459-473 | Left alone, a shell gets the least of the 64 indices with neither scope nor marker, 64 included, and gives up exactly if there is none. |
| `SessionReads.TeardownFoundNobody` | nix/container-module.nix:274-287 | In every run a watchdog that tears down saw no scope and then no marker in two reads right after it took the lock, and one that gives the lock back saw a scope or a marker. |
| `SessionReads.TeardownAloneIff` | nix/container-module.nix:274-287 | Left alone, a waiting watchdog can come to tear down exactly if there is neither scope nor marker. |
| `PlanRoundTrip.RoundTripIffWellFormed` | nix/app/plan.nix:57-177 | For every launch `render` accepts, with sections, providers, rules and argv items of any length, the parser reads back that launch exactly when no `[vars]`, `[require]` or `[ensure-dir]` name starts with `#` or `[`, `tty` is `auto` or `never`, the parser's own checks hold, and no field that ends its line ends in a carriage return. |
| `PlanRoundTrip.ParseOfPrinted` | nix/app/runner.rs:112-251 | Of the printed lines the parser makes the launch, or refuses them exactly when one of its checks fails. |
| `PlanRoundTrip.OtherTtyIsRefused` | nix/app/runner.rs:166-168 | A `tty` without TAB or newline that is neither value, up to a final carriage return, has the whole plan refused whatever else it says; with nothing else wrong in the launch, `auto` and `never` are read as they are, with or without a final carriage return. |
| `PlanRoundTrip.TtyRenamesThePlan` | nix/app/plan.nix:86-89 | `tty` is printed unchecked: with a newline and a second `name` line in it, `render` accepts every otherwise well-formed launch and the parser reads the plan of a launch with that other name. |
| `PlanRoundTrip.BadNameIsLost` | nix/app/runner.rs:117-130 | An entry whose name starts with `#` or `[` is lost or the plan refused: what is read has fewer entries. |
| `PlanRoundTrip.CrPlanLines` | nix/app/runner.rs:117 | Reading lines drops a final carriage return of each line, which is the same as printing the launch without those. |
| `PlanRoundTrip.MeaningShowsCr` | nix/app/plan.nix:10-54 | Two launches that differ in such a carriage return differ in meaning. |
| `PlanRoundTrip.CarriageReturnIsLost` | nix/app/plan.nix:11-15 | A launch `render` accepts and the parser changes. |
| `Plan.ParsePlan` | nix/app/runner.rs:112-251 | The line-by-line parser loop computes the specified parse, refusals included. |
| `PlanRefusals.ParsedIff` | nix/app/runner.rs:112-251 | A text is a plan exactly if every line is a comment, a header, `plan 1` before any section or an entry its section takes, `plan 1` is said, and what was read has an absolute podman, a run command, with a bus its three paths and with a holder the command to create it. |
| `PlanRefusals.HeaderTakenIff` | nix/app/runner.rs:122-148 | The headers taken are `[NAME]` and `[NAME anything]` for eight names, and `[provider NAME]` with a nonempty name. |
| `PlanRefusals.HeaderKeeps` | nix/app/runner.rs:122-148 | Opening a section again forgets nothing of it. |
| `PlanRefusals.EntryTakenIff` | nix/app/runner.rs:156-230 | Which fields each section takes. |
| `PlanRefusals.ProcessNameIs` | nix/app/runner.rs:164-165 | A holder process is taken exactly if it is nonempty, without a slash and at most 15 bytes of UTF-8, which are characters when all are ASCII. |
| `PlanRefusals.PatternIs` | nix/app/runner.rs:186-192 | A mount pattern is taken exactly if it has a slash and no `*` or `?` before its last one. |
| `PlanRefusals.ModeIs` | nix/app/runner.rs:178-183 | A mode is octal digits behind at most one plus sign, below 2^32. |
| `PlanRefusals.OctalPlaces` | nix/app/runner.rs:178-183 | Octal digits are weighted by their place. |
| `PlanRefusals.OctalFits` | nix/app/runner.rs:178-183 | Without leading zeros that is at most eleven digits, and of eleven the first at most 3. |
| `PlanRefusals.ShortestPlan` | nix/app/runner.rs:112-251 | What a plan does not say is empty, and the terminal is not asked for. |
| `PlanRefusals.RenderRefusesIff` | nix/app/plan.nix:14-20 | The printer refuses a launch exactly if one of its printed texts but `tty` holds a TAB or a newline. |
| `Argv.ExpandTemplate` | nix/app/runner.rs:254-268 | The loop computes the specified expansion, with its two errors. |
| `Argv.ExpandIsMeaning` | nix/app/runner.rs:253-268 | A template spelled from literal text and names expands to the text with each name's value, and fails exactly on an unknown name; a value that looks like a template is not expanded again. |
| `Argv.EveryTemplateIsSpelled` | nix/app/runner.rs:254-268 | Every template is spelled that way up to a brace that is never closed, if there is one; with one it expands for no values. |
| `Argv.BindReadsBack` | nix/app/runner.rs:308-322 | The value of a mount that is made splits into exactly its source, its destination and the given options: no file name adds one. |
| `Argv.BindIff` | nix/app/runner.rs:308-322 | A mount is made of two absolute paths without comma, NUL or newline, and refused for any other. |
| `Argv.DropDuplicateMounts` | nix/app/runner.rs:373-391 | The index loop computes the specified list. |
| `Argv.NoDestinationTwice` | nix/app/runner.rs:369-391 | In the final arguments no two mounts have one destination. |
| `Argv.FirstMountWins` | nix/app/runner.rs:369-391 | Each destination keeps the first mount that named it, and every other argument stays, in order. |
| `Argv.DropIsIdempotent` | nix/app/runner.rs:373-391 | Dropping twice is dropping once. |
| `Argv.DropIsOnWords` | nix/app/runner.rs:373-391 | What is left is read in the same option-and-value pairs as before. |
| `Argv.SplicesAreSafeMounts` | nix/app/runner.rs:308-362 | Whatever the file names a provider's rules meet, what is spliced in is mounts that one of the rules asks for on this disk, each of two absolute paths free of commas and newlines and read as exactly its source, its destination and that rule's own options. |
| `Argv.EveryAskedMountIsSpliced` | nix/app/runner.rs:324-362 | And every mount the rules ask for is spliced in. |
| `Argv.FoundStand` | nix/app/runner.rs:326-353 | The paths bound for a pattern are exactly those it stands for: the listed, bindable names it means, the hidden ones only if it is hidden itself, or itself if it exists. |
| `Argv.ListingOrderIsIrrelevant` | nix/app/runner.rs:324-353 | The order in which a directory is listed does not show in the arguments. |
| `Argv.SortedIsUnique` | nix/app/runner.rs:344 | There is one sorted order of the paths found. |
| `Argv.HiddenNeedsHiddenPattern` | nix/app/runner.rs:270-288 | A path bound by a wildcard is a listed, bindable name the pattern means, and a hidden name needs a hidden pattern. |
| `Argv.Resolve` | nix/app/runner.rs:393-411 | The resolved argv is the items' expansions in order with later mounts of a destination dropped, or an error at the first unknown name. |
| `ArgvRefusals.ArgvRefusedIff` | nix/app/runner.rs:393-411 | An argv is refused exactly for an item that names no value or no provider, or whose provider has a refused rule. |
| `ArgvRefusals.RulesRefusedIff` | nix/app/runner.rs:324-362 | Rules are refused exactly for an unknown name, a pattern without a slash or that stands for more than 512 names, or a path no mount can name; a source that does not exist is no reason. |
| `ArgvRefusals.ItemsInOrder` | nix/app/runner.rs:393-411 | Otherwise the items' words follow each other, each item giving its text, its value between its two ends, or its provider's mounts. |
| `Proto.ReceiveAllFrames` | ssh-agent-filter/src/proto.rs:53-78 | Reading a concatenation of written frames with bodies of 1 byte to 256 KiB returns exactly those messages. |
| `Proto.ReceivedWasFramed` | ssh-agent-filter/src/proto.rs:53-72 | A message that is read is one of those sizes, and the bytes it was read from are its frame. |
| `Proto.ParseBuild` | ssh-agent-filter/src/proto.rs:125-150 | Parsing undoes building for every list within `u32` lengths; the bound on the count never refuses a genuine answer. |
| `Proto.BuildParse` | ssh-agent-filter/src/proto.rs:125-150 | Rebuilding an accepted payload gives a prefix of it. |
| `Proto.FilteredAnswerFits` | ssh-agent-filter/src/lib.rs:90-101 | A filtered answer is never longer than the one it replaces, so it can be sent. |
| `Proto.ReadPutString` | ssh-agent-filter/src/proto.rs:99-111 | A string of section 5 of RFC 4251 is read back from anywhere in a buffer, and the cursor ends behind it. |
| `Proto.ReadStringWasPut` | ssh-agent-filter/src/proto.rs:99-111 | What is read as a string is the encoding of that string. |
| `Proto.ListOnTheWire` | ssh-agent-filter/src/proto.rs:142-150 | A list of keys is its type 12, the number of keys, and of each key the blob and then the comment behind their lengths. |
| `Proto.OneKeyOnTheWire` | ssh-agent-filter/src/proto.rs:74-150 | A request for identities and an answer with one key, byte by byte. |
| `Proto.ParseIdentities` | ssh-agent-filter/src/proto.rs:125-140 | The reader loop computes the specified parse. |
| `Proto.BuildIdentities` | ssh-agent-filter/src/proto.rs:142-150 | The writer loop computes the specified message. |
| `Proto.Reader.U32` | ssh-agent-filter/src/proto.rs:92-97 | Reads a big-endian number at the cursor and moves it, or leaves it where it was. |
| `Proto.Reader.String` | ssh-agent-filter/src/proto.rs:99-105 | Reads a length-prefixed string at the cursor and moves behind it, or fails when the bytes are not there. |
| `Digest.Sha256Of` | ssh-agent-filter/src/policy.rs:12-83 | The in-place digest loop equals the hash of sections 5.1.1 and 6.2.2 of FIPS 180-4 for every input; from 2^61 bytes on, which the standard does not admit, the length wraps as the code's does. |
| `Digest.CompressInPlace` | ssh-agent-filter/src/policy.rs:38-76 | One block updates the eight hash words in place to the specified compression of them. |
| `Digest.Schedule` | ssh-agent-filter/src/policy.rs:39-50 | The 64 schedule words are those of section 6.2.2, whatever the order of the wrapping additions. |
| `Digest.RunRounds` | ssh-agent-filter/src/policy.rs:51-72 | The 64 rounds over eight variables equal the specified rounds. |
| `Digest.Padded` | ssh-agent-filter/src/policy.rs:30-36 | The push loop produces the padding of section 5.1.1. |
| `Digest.PadIsShortest` | ssh-agent-filter/src/policy.rs:30-36 | The padded length is the least multiple of 64 with room for the mark and the length. |
| `Digest.PadCanBeUndone` | ssh-agent-filter/src/policy.rs:30-36 | The data is recovered from its padding, up to the 2^61 bytes the standard admits. |
| `Digest.Base64NoPad` | ssh-agent-filter/src/policy.rs:86-98 | The group loop computes the unpadded encoding of section 4 of RFC 4648. |
| `Digest.Base64RoundTrip` | ssh-agent-filter/src/policy.rs:86-98 | A decoder recovers every byte sequence from its encoding. |
| `Digest.FingerprintNamesDigest` | ssh-agent-filter/src/policy.rs:101-103 | Two blobs have one fingerprint exactly when they have one digest. |
| `DigestConstants.RoundConstantsAreRoots` | ssh-agent-filter/src/policy.rs:13-22 | The first 32 round constants are the first 32 bits of the fractions of the cube roots of the primes from 2 to 131, by integer bounds on the cubes. |
| `DigestConstants.LaterConstantsAreRoots` | ssh-agent-filter/src/policy.rs:13-22 | The other 32 are those of the primes from 137 to 311. |
| `DigestConstants.HashValueFromRoots` | ssh-agent-filter/src/policy.rs:23-27 | The first hash value is so the square roots of the first eight primes. |
| `DigestConstants.FirstRoundOfAbc` | ssh-agent-filter/src/policy.rs:51-72 | All eight registers after the first round of the digest of `abc`. |
| `DigestConstants.PaddingBytes` | ssh-agent-filter/src/policy.rs:30-36 | Behind the data come the byte 128, fewer than 64 zeros and the number of bits, to a whole number of blocks. |
| `DigestConstants.BlockByBlock` | ssh-agent-filter/src/policy.rs:38-76 | From one block to the next each word grows, modulo 2^32, by what the 64 rounds make of its own register. |
| `DigestConstants.DigestIsEightWords` | ssh-agent-filter/src/policy.rs:77-83 | The digest is 32 bytes, the eight words after the last block, most significant byte first. |
| `DigestConstants.MajorityDecides` | ssh-agent-filter/src/policy.rs:61-62 | Where its first two arguments differ the majority takes the third; `MajorityAgrees` says the rest, `ChoiceOfSecond` and `ChoiceOfThird` the same of the choice. |
| `DigestConstants.Base64OfAbc` | ssh-agent-filter/src/policy.rs:86-98 | The encodings of `a`, `ab` and `abc`, by the letters of the alphabet. |
| `Glob.GreedyIsExactIff` | ssh-agent-filter/src/policy.rs:105-132 | The greedy matcher agrees with "`*` matches any run" on all texts exactly for the patterns with no `*` or ending in one. |
| `Glob.GreedyIsSound` | ssh-agent-filter/src/policy.rs:107-132 | It accepts nothing the pattern does not mean. |
| `Glob.GreedyIsComplete` | ssh-agent-filter/src/policy.rs:107-132 | For those patterns it accepts all of it. |
| `Glob.GreedyMisses` | ssh-agent-filter/src/policy.rs:124-131 | For every other pattern a text it means and the matcher refuses: the parts with the last one twice. |
| `Glob.StarAMissesAba` | ssh-agent-filter/src/policy.rs:107-132 | `*a` means `aba` and is refused. |
| `Glob.LeftmostIsBest` | ssh-agent-filter/src/policy.rs:114-123 | Taking each part at its first occurrence succeeds whenever any placement does, and leaves at least as much text. |
| `Glob.Greedy` | ssh-agent-filter/src/policy.rs:107-132 | The loop over the parts computes the greedy match. |
| `Glob.GoIsMeaning` | nix/app/runner.rs:279-286 | The backtracking matcher accepts exactly what the pattern means, `?` included. |
| `Glob.GlobMatchIff` | nix/app/runner.rs:270-288 | A name is matched exactly if the pattern means it and, when the name is hidden, is hidden itself. |
| `Glob.GreedyIsBacktracking` | nix/app/runner.rs:279-286 | Without `?`, on the patterns above, both matchers agree. |
| `Policy.ShownIsSignable` | ssh-agent-filter/src/policy.rs:160-193 | With comments that read the same wherever a blob is listed, a key is shown exactly when it may be signed with. |
| `Policy.AlwaysAgreesIffOneComment` | ssh-agent-filter/src/policy.rs:160-193 | For comments without `*`: under every mode and every list of specs each listed key is shown exactly when it may be signed with, if and only if no blob is listed with comments that read differently. |
| `Policy.SignableIsShown` | ssh-agent-filter/src/policy.rs:186-193 | A listed key that may be signed with is shown, whatever the comments. |
| `Policy.RepeatedBlobDisagrees` | ssh-agent-filter/src/policy.rs:186-193 | A blob listed as `a` and then as `b` is shown and refused for signing under an allow list of `b`. |
| `Policy.UnlistedKeyIsJudgedByPrint` | ssh-agent-filter/src/policy.rs:180-193 | A key never listed is judged by its fingerprint and the empty comment: an allow list admits it exactly if a spec names the fingerprint, is empty or is a run of `*`. |
| `Policy.AllowAndDenyAreOpposite` | ssh-agent-filter/src/policy.rs:148-178 | Two nonempty lists are refused, and one list as allow and as deny list splits the keys. |
| `Policy.SpecMeans` | ssh-agent-filter/src/policy.rs:135-146 | A spec matches a key whose fingerprint it is, with or without `SHA256:`, or by a comment that it means; with no `*` or one at the end it matches each of those. |
| `Policy.SpecOfTwoTexts` | ssh-agent-filter/src/policy.rs:105-146 | A spec `x*y` matches, but for its own text and a fingerprint, exactly the comments that begin with `x` and have their first `y` behind it at their end. |
| `Policy.PolicyMeans` | ssh-agent-filter/src/policy.rs:160-178 | With such specs a key is permitted by an allow list exactly if a spec names it or means its comment, and by a deny list exactly if none does. |
| `Policy.JudgedByFirstComment` | ssh-agent-filter/src/policy.rs:180-193 | A key is judged for signing by the comment it was first listed with. |
| `Proxy.ServeConnection` | ssh-agent-filter/src/lib.rs:17-107 | Everything written to either side over a whole connection is what the turns say, framed and in order. |
| `Proxy.HandleRequest` | ssh-agent-filter/src/lib.rs:32-105 | One turn of the loop writes, reads and learns what is specified, for every request and every upstream; `ProxyReplies.EveryTurnIsRuled` and `ProxyReplies.EveryReply` say in numbers what that is. |
| `Proxy.FetchIdentities` | ssh-agent-filter/src/lib.rs:111-124 | Sends one query, reads one answer, and knows its identities or nothing. |
| `Proxy.Endpoint.Read` | ssh-agent-filter/src/proto.rs:53-72 | Reads one message off the stream, its end, or a broken one. |
| `Proxy.Endpoint.Write` | ssh-agent-filter/src/proto.rs:74-78 | Appends one frame. |
| `ProxyRuns.UpstreamSeesOnlyAdmitted` | ssh-agent-filter/src/lib.rs:29-107 | For every client, upstream and policy, the i-th turn handles the i-th client message; it forwards it, unmodified, exactly if it is neither mutating nor an unwanted extension nor a signature refused by what is then known, and asks upstream itself exactly before ruling on a key never listed. |
| `ProxyRuns.NothingRefusedReachesUpstream` | ssh-agent-filter/src/lib.rs:35-71 | Every message upstream receives is the proxy's own query or a client message; none is of the nine mutating types, written as numbers, none is an extension unless allowed, and a signature was permitted. |
| `ProxyRuns.EachRequestGetsItsOwnAnswer` | ssh-agent-filter/src/lib.rs:73-105 | With an upstream that answers each message with one well-formed one, the i-th client message gets exactly one reply, the i-th: the failure, or what becomes of the answer standing where its request stood in the stream to upstream; `ProxyReplies.EveryReply` says what that is. |
| `ProxyRuns.TurnTakesItsAnswers` | ssh-agent-filter/src/lib.rs:45-105 | A turn reads exactly one answer for each message it sends upstream. |
| `ProxyRuns.KnownIsOneWholeAnswer` | ssh-agent-filter/src/lib.rs:25-27 | In every reachable state what is known is empty or the whole of one unfiltered answer read on this connection. |
| `ProxyRuns.BothSidesCanReadEverything` | ssh-agent-filter/src/lib.rs:17-124 | Whatever the peers send, each side can read back exactly the messages written to it. |
| `ProxyRuns.ClientSeesPermittedSublist` | ssh-agent-filter/src/lib.rs:84-101 | The client can parse the filtered listing and finds the permitted identities in upstream's order. |
| `ProxyRuns.ListedIsSignable` | ssh-agent-filter/src/lib.rs:40-66 | After a listing in which no blob has two different comments, a key is on the client's list exactly when a request to sign with it is forwarded. |
| `ProxyRuns.UnlistedSignIsJudgedByUpstream` | ssh-agent-filter/src/lib.rs:47-58 | A client that signs without listing gains nothing: upstream is asked, and the key is judged by the comment it is listed with there, or as one nobody lists if the answer is no list. |
| `ProxyRuns.TurnsFollowTheClient` | ssh-agent-filter/src/lib.rs:29-31 | Client messages are handled in order, one turn each, all of them unless upstream ends the connection. |
| `ProxyReplies.EveryTurnIsRuled` | ssh-agent-filter/src/lib.rs:30-71 | In the numbers of the protocol, for every turn of every connection: upstream is asked first exactly for a signing request (13) whose key is readable and was never listed; a request goes on exactly if it is none of the nine mutating ones, no extension (27) unless allowed, and no signing request but with a key the policy permits by what is then known; only an answered listing is learned. |
| `ProxyReplies.EveryReply` | ssh-agent-filter/src/lib.rs:73-105 | With an upstream that answers each message: a forwarded request gets the answer at its place in the stream unchanged, but for a request 11 answered with a 12, which gets a list of exactly the permitted identities in order, or a failure if the answer cannot be parsed; a refused one gets a failure (5). |
| `ProxyReplies.ShownIsPermittedPart` | ssh-agent-filter/src/lib.rs:90-98 | The list shown holds the permitted identities and no others, in upstream's order, each as often as listed. |
| `ProxyReplies.UnansweredTurn` | ssh-agent-filter/src/lib.rs:76-81 | A forwarded request without an answer ends the connection, well exactly if upstream's stream has ended. |
| `ProxyReplies.ConnectionEnds` | ssh-agent-filter/src/lib.rs:29-31 | The turns use up the client's bytes from the front; if all were answered the rest holds no message, and the connection ends well exactly if the rest is shorter than a length. |
| `Ruleset.OutputIsMeaning` | nix/prison/ruleset.nix:169-260 | For every policy that compiles and every packet, first-match evaluation of the output chain, the jump included, is the declared meaning, in each egress mode; `RulesetNumbers` has that of mode `internet` in address numbers. |
| `Ruleset.InputIsMeaning` | nix/prison/ruleset.nix:227-239 | For every packet the input chain accepts exactly loopback, neighbour discovery, ongoing flows and published ports. |
| `Ruleset.LoopbackChainMeans` | nix/prison/ruleset.nix:200-221 | The loopback chain always decides, and accepts exactly uid 0, or a sender that no reserved source bars and that its port's client list admits, else a published port. |
| `Ruleset.EgressMeans` | nix/prison/ruleset.nix:169-195 | The egress rules of each mode accept targets, then LAN entries, then the public internet on the public ports, with private ranges dropped in between. |
| `Ruleset.CompilesIffOk` | nix/prison/ruleset.nix:41-195 | A policy is compiled exactly when every stated check on ports, protocols, sources, clients, keys and modes holds. |
| `Ruleset.LoopbackOrderIsIrrelevant` | nix/prison/ruleset.nix:204-214 | Any permutation of the loopback ports and sources compiles as well and decides every packet the same. |
| `Ruleset.LoopbackPortsMean` | nix/prison/ruleset.nix:208-214 | With distinct keys the port rules accept the clients of the packet's port and reject everybody else on it. |
| `Ruleset.RepeatedPortIsRefused` | nix/prison/ruleset.nix:85-87 | A port declared twice is refused. |
| `Ruleset.UniqueDropsRepeats` | nix/prison/ruleset.nix:85-87 | `lib.unique` keeps the length exactly when nothing repeats. |
| `Ruleset.InternetTailMeans` | nix/prison/ruleset.nix:181-187 | The private ranges are dropped before the public accepts can be reached. |
| `Ruleset.PrivateMustBeNamed` | nix/prison/ruleset.nix:89-112 | A new flow other than neighbour discovery leaves for a private address only through a resolver, a target or a LAN entry that covers it, in every mode but `unrestricted`. |
| `Ruleset.ForwardDropsAll` | nix/prison/ruleset.nix:254-257 | Nothing is routed through a prison. |
| `RulesetNumbers.InternetFlow` | nix/prison/ruleset.nix:89-188 | In address numbers: a new flow in mode `internet` that no resolver, target or LAN entry covers is dropped if its destination lies in one of twelve written IPv4 or two written IPv6 ranges, neighbour discovery aside, and otherwise accepted exactly on a public port. |
| `RulesetNumbers.PrivateV4Is` | nix/prison/ruleset.nix:92-107 | The private IPv4 blocks hold exactly the addresses of the twelve ranges. |
| `RulesetNumbers.PrivateV6Is` | nix/prison/ruleset.nix:108-112 | The private IPv6 blocks hold exactly the addresses of fc00::/7 and fe80::/10. |
| `RulesetNumbers.BlockIsRange` | nix/prison/ruleset.nix:181-187 | A block of a given number of bits holds one aligned range of addresses. |
| `RulesetNumbers.CompilesIff` | nix/prison/ruleset.nix:41-195 | In numbers, which policies are compiled: one of four modes, ports 1 to 65535 over tcp or udp, nonempty lists of positive uids, sources in 127.0.0.0/8 other than 127.0.0.1, no loopback port twice, public ports in mode `internet` alone. |
| `Realize.Normalize` | nix-store-shared-fuse/src/realize.rs:22-61 | The stack loop and the pushes compute the normal form. |
| `Realize.NormalizeKeepsWalk` | nix-store-shared-fuse/src/realize.rs:14-61 | From every directory a path and its normal form lead to the same place. |
| `Realize.SameNormalFormIffSameWalk` | nix-store-shared-fuse/src/realize.rs:14-61 | Two paths have one normal form exactly when they lead to the same place from every directory. |
| `Realize.NormalizeIsIdempotent` | nix-store-shared-fuse/src/realize.rs:22-61 | Normalising twice is normalising once. |
| `Realize.NormalFormIsClean` | nix-store-shared-fuse/src/realize.rs:14-18 | The normal form of an absolute path is absolute and has neither `.` nor `..`. |
| `Realize.NormalizeThenJoin` | nix-store-shared-fuse/src/realize.rs:120-131 | Normalising a base, the empty one too, before or after joining a relative path gives the same. |
| `Realize.NormalFormReads` | nix-store-shared-fuse/src/realize.rs:48-61 | The text of a normal form is read back as the stack it was made from. |
| `Realize.ClassifyRealizesIff` | nix-store-shared-fuse/src/realize.rs:84-118 | A target is realized exactly when it lies component-wise under the resolution root and not under the bind target. |
| `Realize.RealizedPathLeadsBack` | nix-store-shared-fuse/src/realize.rs:95-118 | The relative path has names alone, and the resolution root joined with it is the normalised target. |
| `Realize.InsideIsPrefixOfPlace` | nix-store-shared-fuse/src/realize.rs:63-71 | For absolute paths containment is that of the places they lead to. |
| `Realize.ResolveFollowsTheLink` | nix-store-shared-fuse/src/realize.rs:120-131 | The resolved target is where the link leads from the directory that holds it. |
| `Nodes.RealizedIff` | nix-store-shared-fuse/src/fs/nodes.rs:25-67 | A farm link is followed exactly when it leads under the resolution root, not back into the farm, and a directory or file is there. |
| `Nodes.RealizedIsTheTarget` | nix-store-shared-fuse/src/fs/nodes.rs:32-55 | What is served instead is what the link leads to, seen from the relocated store. |
| `Nodes.RealizationIsFinal` | nix-store-shared-fuse/src/fs/nodes.rs:85-110 | A child of a node of the relocated store is there too, under its own name, and is no followed link. |
| `Nodes.ServedAsItIs` | nix-store-shared-fuse/src/fs/nodes.rs:12-110 | Every child is served with the kind of what is at the place it is served from, and a name is refused only if nothing servable has it. |
| `Nodes.LinkLeadsFromItsDirectory` | nix-store-shared-fuse/src/fs/nodes.rs:25-37 | A farm link is judged by where it leads from the farm's own directory that holds it. |
| `Nodes.ChildIsBelow` | nix-store-shared-fuse/src/fs/nodes.rs:12-110 | A child is served from below its parent's place, under its own name. |
| `Nodes.FollowedKind` | nix-store-shared-fuse/src/fs/nodes.rs:38-67 | A followed link is served as a directory if it leads to the relocated root or a directory, as a file if to a file, and any other stays a link. |
| `Inodes.InodesAreStable` | nix-store-shared-fuse/src/fs/mod.rs:183-196 | From the start of a mount, through any calls, a child keeps its inode and its node, different children have different inodes, and none has the root's. |
| `Inodes.InternKeeps` | nix-store-shared-fuse/src/fs/mod.rs:183-196 | Interning a resolved child keeps the table in order; for a known child the refresh changes nothing. |
| `Inodes.EverythingBelowStaysRedirected` | nix-store-shared-fuse/src/fs/nodes.rs:85-110 | After any calls everything below a node of the relocated store, at any depth, is served from there, and no link below it is followed. |
| `Inodes.RunKeeps` | nix-store-shared-fuse/src/fs/operations.rs:37-192 | Any sequence of lookups and listings keeps the table faithful to the trees and only extends it. |
| `Inodes.ListingIsStable` | nix-store-shared-fuse/src/fs/operations.rs:157-183 | A listing again, after any calls, is the same and changes nothing. |
| `Inodes.LookupAgreesWithListing` | nix-store-shared-fuse/src/fs/operations.rs:37-73 | A listed child is later found under the inode and kind it was listed with, unless its attributes cannot be read, which `Inodes.LookupFinds` rules out for a coherent host. |
| `Inodes.ListedIffHostLists` | nix-store-shared-fuse/src/fs/operations.rs:157-183 | A name is listed exactly when the host lists it and it can be served. |
| `Inodes.EveryEntryExactlyOnce` | nix-store-shared-fuse/src/fs/operations.rs:185-191 | A reader resuming at the last offset gets every entry once and in order, whatever the page sizes of at least one entry and whatever others do in between, and then empty pages. |
| `Inodes.ReadOnIsStretch` | nix-store-shared-fuse/src/fs/operations.rs:185-191 | From any offset such a reader gets the next stretch of the entries, as long as its pages together. |
| `Inodes.PageIsStretch` | nix-store-shared-fuse/src/fs/operations.rs:185-191 | A page is the next stretch, and its last offset is where the stretch ends. |
| `Inodes.LookupFinds` | nix-store-shared-fuse/src/fs/operations.rs:37-73 | On a host whose attribute calls agree with its listing a lookup finds every servable name of a directory, and fails only for the others, with ENOENT or ENOTDIR. |
| `Inodes.ListingShows` | nix-store-shared-fuse/src/fs/operations.rs:157-183 | A listing begins with the directory itself under `.` and `..`, and every further entry has the file type of the node behind its inode. |
| `Inodes.ChildrenInHostOrder` | nix-store-shared-fuse/src/fs/operations.rs:157-173 | The listed children are those the host lists, in its order, each as often, but for the unservable ones. |
| `Handles.SharedWhileOpen` | nix-store-shared-fuse/src/fs/mod.rs:135-181 | After any opens and releases there are no more handles than `max_open_files`; the table holds exactly the handles given and not released since; two of them share a backing id exactly when they were opened on one inode; and an inode's weak entry upgrades exactly while one of them was opened on it. |
| `Handles.HandleStaysOnItsInode` | nix-store-shared-fuse/src/fs/mod.rs:146-181 | A handle is held as open on an inode exactly when some call opened that inode as it and no later call released it. |
| `Handles.HandleNumbersGrow` | nix-store-shared-fuse/src/fs/mod.rs:146-150 | Handle numbers only grow over a run, so none is given twice. |
| `Handles.LiveIdsAreOpenInodes` | nix-store-shared-fuse/src/fs/mod.rs:72-76 | There are exactly as many live backing ids as inodes that were opened as a handle not released since. |
| `Handles.OpenKeepsInv` | nix-store-shared-fuse/src/fs/mod.rs:137-175 | An open keeps both tables in order, with the ceiling and whatever the host answers. |
| `Handles.ReleaseKeepsInv` | nix-store-shared-fuse/src/fs/mod.rs:177-181 | So does a release, of known and unknown handles. |
| `Handles.UpgradesIffOpen` | nix-store-shared-fuse/src/fs/mod.rs:151-154 | The weak entry of an inode upgrades exactly when some call opened the inode and its handle has not been released. |
| `Handles.RefusedForRoomIff` | nix-store-shared-fuse/src/fs/mod.rs:143-149 | Absent host errors an open is refused exactly at the ceiling or when the numbers have run out, and then changes nothing. |
| `Handles.OthersAreUntouched` | nix-store-shared-fuse/src/fs/mod.rs:137-181 | Opening and releasing again leaves every other handle as it was; a refused open leaves them all. |
| `Handles.OpenGives` | nix-store-shared-fuse/src/fs/mod.rs:137-175 | When an open gives a handle, which number, and what the tables then hold. |
| `StoreFs.StoreFs.constructor` | nix-store-shared-fuse/src/fs/mod.rs:85-114 | A new mount knows only the root, and both invariants hold. |
| `StoreFs.StoreFs.BackingGetOr` | nix-store-shared-fuse/src/fs/mod.rs:137-175 | Changes the handle tables by exactly the specified open, the counter included when the host then fails. |
| `StoreFs.StoreFs.BackingPut` | nix-store-shared-fuse/src/fs/mod.rs:177-181 | Removes exactly that handle. |
| `StoreFs.StoreFs.Intern` | nix-store-shared-fuse/src/fs/mod.rs:184-196 | Changes the inode tables by exactly the specified step. |
| `StoreFs.StoreFs.LookupHandler` | nix-store-shared-fuse/src/fs/operations.rs:37-73 | Answers and changes what the specified lookup does, and keeps both invariants. |
| `StoreFs.StoreFs.ReadDirHandler` | nix-store-shared-fuse/src/fs/operations.rs:118-192 | Answers the specified page and interns the specified children, and keeps both invariants. |
| `StoreFs.StoreFs.Number` | nix-store-shared-fuse/src/fs/operations.rs:175-183 | Interns the pending children one by one and numbers their entries. |
| `StoreFs.StoreFs.Gather` | nix-store-shared-fuse/src/fs/operations.rs:157-173 | Gathers the children that can be served, in the host's order. |
| `StoreFs.StoreFs.Fill` | nix-store-shared-fuse/src/fs/operations.rs:185-190 | Fills the reply from the offset until it is full. |
| `StoreFs.StoreFs.OpenHandler` | nix-store-shared-fuse/src/fs/operations.rs:205-239 | A handle is given exactly for reading a regular file when there is room and the file is open already or the host opens it; writing is EROFS whatever the inode, an unknown inode ENOENT, a directory of either kind EISDIR, a link EINVAL, and then the handles stay as they were. |
| `StoreFs.StoreFs.ReleaseHandler` | nix-store-shared-fuse/src/fs/operations.rs:259-271 | Releases one handle and keeps both invariants. |
| `MountId.DecodesIff` | nix/scripts/run.nix:411-436 | Of the canonical absolute paths in `[A-Za-z0-9._/-]` that encode to at most 180 characters, exactly those other than `/` with no component starting with `-` and the first not starting with `.` are recovered from their id by the decoder. |
| `MountId.DistinctProjectsDistinctIds` | nix/scripts/run.nix:411-414 | No two of these paths share an id; one of them can share it with a path that is not (see the next row). |
| `SharedIds.SharedIdIff` | nix/scripts/run.nix:411-436 | Of all canonical absolute paths in that alphabet and length, one shares its id with another exactly if it is `/` or `/project`; or a dash that ends a component, or starts one, leaves a proper name behind and so can change sides of the separator; or two dashes inside a component have a proper name on each side, or a component between two others is `-`; or it starts with `-` or `.` and encodes to less than 180 characters; or it starts with `_` in front of a proper name that starts so. |
| `SharedIds.OwnId` | nix/scripts/run.nix:411-436 | A path that shares its id with none of those, and whose id does not end in a dash and eight digest digits, shares it with no canonical absolute path at all, of any characters and any length. |
| `SharedIds.SecondReadingShows` | nix/scripts/run.nix:430-432 | Two canonical paths with one encoding differ, seen from either, at such a place. |
| `SharedIds.AnotherReading` | nix/scripts/run.nix:430-432 | Each such place gives another canonical path with the same encoding. |
| `SharedIds.SharingByExample` | nix/scripts/run.nix:411-414 | `/a--b` and `/a/-/b` share their ids; `/a/-` has its own. |
| `MountId.ErrsByCollision` | nix/scripts/run.nix:411-414 | Where the decoder errs it names another path, which has the same id if it is canonical; which paths share an id is said by `SharedIds.SharedIdIff`. |
| `MountId.DecodeEncodeIff` | nix/scripts/run.nix:430-432 | A string is recovered from its encoding exactly when no separator is followed by a dash or another separator. |
| `MountId.EncodeDecode` | nix/scripts/run.nix:430-432 | Encoding undoes decoding, always. |
| `MountId.DashesAroundSeparatorCollide` | nix/scripts/run.nix:430-432 | A dash before and a dash behind a separator give one id, whatever is around them. |
| `MountId.RootIsProject` | nix/scripts/run/session.nix:17 | `/` has the id of `/project`. |
| `MountId.HiddenLooksUnderscored` | nix/scripts/run/session.nix:18 | `/.name` has the id of `/_.name`. |
| `MountId.HashedLooksPlain` | nix/scripts/run/session.nix:15-16 | Whatever the digest, `/a b` shares its id with the path `/a_b/<digest>`. |
| `MountId.IdIsShort` | nix/scripts/run.nix:419-420 | An id has at most 190 characters, which leaves room for the prefix and the suffix of a user name. |
| `MountId.HashedIdsTellDigestsApart` | nix/scripts/run/session.nix:15 | Two paths that need a hash share an id only if their digests agree. |
| `MountId.IdIsPlainIff` | nix/scripts/run.nix:422-426 | An id is never empty and never starts like an option or a hidden file, and it is made of plain characters exactly unless the path, without its leading slash, holds a newline that something other than a newline follows and that fewer than 180 characters precede, dashes counted twice. |
| `MountId.NewlineSurvives` | nix/scripts/run.nix:433 | A newline inside a path is neither folded nor hashed away. |
| `MountId.ComputeMountId` | nix/scripts/run.nix:427-436 | The variable-by-variable script computes the specified id, and in the domain the path can be decoded from it. |
| `Skips.CountIsStreak` | prison-store-check/src/lib.rs:83-124 | After any checks of any valid units, with failures anywhere, a unit's count is its recorded stale checks since its last fresh one, up to the `u32` limit; checks of other units never show in it. |
| `Skips.OutcomeFollowsStreak` | prison-store-check/src/lib.rs:182-219 | For all faults of the host: a fresh check lets the start go if the skips can be forgotten; a stale one needs the skip recorded and the restart queued, gives up from the fourth skip in a row on, and before that also needs the recheck armed. |
| `Skips.OneRestartEach` | prison-store-check/src/lib.rs:205-219 | A skipped or given-up start has queued exactly one restart, of the stale views and the unit; a fresh one none. |
| `Skips.SkipIsRechecked` | prison-store-check/src/lib.rs:293-308 | A skipped start has armed a recheck of its own unit exactly if the timer's name was not taken by another unit. |
| `Skips.SharedTimerForgetsTheSecond` | prison-store-check/src/lib.rs:126-133 | Two valid units with one timer name: the second is skipped, with its restart queued, and no recheck of it is armed. |
| `Skips.TimerNameIs` | prison-store-check/src/lib.rs:126-133 | A unit's timer is named by the unit without a final `.service`, each character other than letters, digits, dashes and underscores a dash. |
| `Skips.FreshIfAllExpected` | prison-store-check/src/lib.rs:189-204 | Nothing is stale exactly when every view serves the expected target. |
| `Skips.StaleAreTheUnexpected` | prison-store-check/src/lib.rs:189-200 | The stale units are those of the views that do not, in order. |
| `Skips.FilesAreApart` | prison-store-check/src/lib.rs:84-124 | No unit's counter or staging file is another's, and no counter is a staging file. |
| `Skips.CountRoundTrip` | prison-store-check/src/lib.rs:89-107 | A count that was written is read back. |
| `Skips.CountOfText` | prison-store-check/src/lib.rs:89-95 | A counter file counts as the number it spells in decimal digits, with a plus sign or without and any Unicode blanks around it, up to 4294967295, and as 0 if it spells none or a larger one. |
| `Skips.BumpCounts` | prison-store-check/src/lib.rs:97-107 | A bump raises the unit's own count by one, or not at all when it fails, and nobody else's. |
| `Skips.ClearCounts` | prison-store-check/src/lib.rs:109-115 | Clearing forgets the unit's own count, and nobody else's. |
| `Skips.CmdlineReadsArguments` | prison-store-check/src/lib.rs:269-277 | Every argument list is read back from what the kernel shows, empty arguments included. |
| `Skips.FirstNamingDecides` | prison-store-check/src/lib.rs:135-149 | Only the first argument that names a bind target counts. |
| `Skips.StartedWithIsServed` | prison-store-check/src/lib.rs:151-164 | A running daemon counts as expected exactly if the first target on its command line is the expected one. |
| `Skips.TargetBehindEquals` | prison-store-check/src/lib.rs:135-149 | A target may stand behind `=` in the flag's own argument; a flag at the end names none. |
| `Skips.NotRunningIff` | prison-store-check/src/lib.rs:166-180 | A view is not running exactly without a main process, or with one whose command line is gone. |
| `Skips.BadNameChangesNothing` | prison-store-check/src/lib.rs:117-124 | A name that is empty, over 255 characters, begins with a dot or a dash or holds another character than those of a unit name is refused before anything changes. |
| `Skips.Checker.CheckUnit` | prison-store-check/src/lib.rs:182-219 | The loop over the views and the steps behind it are the specified check. |
| `Skips.Checker.BumpSkips` | prison-store-check/src/lib.rs:97-107 | Writes the staging file, renames it, and leaves what is specified at each failure. |
| `Skips.Checker.ClearSkips` | prison-store-check/src/lib.rs:109-115 | Removes the counter file, a missing one being no error. |
| `Skips.Checker.CountSkips` | prison-store-check/src/lib.rs:89-95 | Reads the count, 0 for a missing or unreadable number. |
| `Skips.Checker.ArmRecheck` | prison-store-check/src/lib.rs:293-308 | Arms the unit's timer, or finds its name armed already. |

## Left out

- Proxy.Endpoint.Read: does not model I/O errors other than the end of the stream and a bad or cut-off message, because they come from the host.
- Proxy.Endpoint.Write: does not model a failing write, because a peer that is gone reads nothing of what the model says.
- Session.StepKeepsInv: does not tell a scope that is loaded from one that is active, because a scope is both from its start to its end but for moments systemd decides.
- Ruleset.CompilesIffOk: leaves out values of the wrong type (a port that is no number, clients that are no list) and target protocols other than TCP and UDP, because the model's values are typed.
- Inodes.InternKeeps: does not model the wrap-around of `next_ino` after 2^64 children, because no mount lives that long; the handle counter's limit is modelled.
- Skips.Checker.BumpSkips: takes a failing `create_dir_all` for a failing read, because both end the check before any file changes.
- Skips.SharedTimerForgetsTheSecond: does not say what happens after a timer goes off, because the model's timers stay armed.
- SharedIds.SharedIdIff: speaks of the paths an id can carry; a path that needs a hash can share an id with one of them when the digest spells it, and `SharedIds.OwnId` says which ids that cannot happen to.
- MountId.DistinctProjectsDistinctIds: speaks of two paths the decoder recovers, because the comment's promise for any two is false; `SharedIds.SharedIdIff` and `SharedIds.OwnId` say for which paths it holds.
- MountId.ErrsByCollision: gives a shared id only when the decoded text is canonical, because otherwise no project has that path; `SharedIds.SharedIdIff` decides the sharing.
- Policy.AlwaysAgreesIffOneComment: leaves out comments that hold `*`, because a spec with such a text is a pattern and need not tell it from another.
- Argv.Resolve: takes what the disk answers (names, kinds, existence) as functions that do not change meanwhile.
- MountId.ComputeMountId: takes the first eight digits of the digest as a function of the path.
- DigestConstants.FirstRoundOfAbc: gives one round of a known message; the whole digest of one is left out, because its 64 rounds would only repeat `Digest.RunRounds` on numbers.
- Realize.Normalize: leaves out the branch for an absolute path whose result has no root, because the result always has it.
- Every podman, systemd and nft call is one step with an answer; a timeout is a step that gives up. A podman process that outlives its killed launcher is not part of this model.
- Children of a launcher that inherit its lock files, and lock files that cannot be opened at start.
- Clock time: the five-minute sweep is a step that spares shells still setting up.
- Text that is not UTF-8, and how a comment's bytes become text: a parameter of the policy.
- The text of the generated rules and of addresses; the model has rules and numbers. Address text such as a target's is not checked by the source either.
- What the kernel matches for a packet without a socket is taken to be nothing, for both uid tests.
- `supervise`, `relay`, `start_dbus_proxy`, `ensure_dir`, `host_vars`, `resolve_podman`: signals and host I/O.
- `getattr`, `readlink`, `statfs`, the refused mutations and the copying of attributes: field by field, nothing to decide.
- Confinement by capability directories and passthrough reads: library and kernel behaviour.
- `recheck` itself, log texts and error messages.
- GPU, Wayland, X11, wprs and D-Bus forwarding, the Git server, image builders and module options.
