# Verified model of Luminosity's stateful cores

Luminosity is a command-line launcher with a binary cache, a two-level configuration
store, and release tooling. This project models the parts whose correctness depends on
state that several calls, or several processes, share:

- **The binary cache and its resolver.** A directory without locks, used by any number of
  launcher processes. A resolve finds an entry, verifies it again, evicts it when it is
  bad, fetches, verifies, stores and applies the retention cap. The operations are modelled
  twice: as a class over a directory, one process at a time, and as a state machine whose
  steps (partial write, chmod, rename, remove, failure, crash) any process may take at any
  moment. For one process left alone the two agree: every resolve of the class is a run of
  the machine, and whatever such a run returns was found good or has just been stored.
- **The configuration tree.** An insertion-ordered mapping, mutated in place by a recursive
  insert, read by a path walk and overlaid personal over team. The heap structure is proved
  against an insert on values, and whole runs against two flat maps from paths to scalars.
- **The document format and the file store.** A one-pass fence splitter, a renderer that it
  inverts, the write through a temporary file, the path rule, root discovery, and any number
  of processes setting keys in one file at once.
- **The prompt fragment.** An offset-tracking trim, proved equal to a line-based
  specification, and the join of the two levels.
- **The result scrubber** (longest-first sequential replacement) and **the release
  protocol** (upload, verify, publish) of the Python tasks.

## Layout

| files | subject |
|---|---|
| `Wrappers.dfy`, `Text.dfy`, `Decimals.dfy` | options and results; lines of a text; decimal numerals |
| `ConfigTree.dfy`, `ConfigWrites.dfy`, `MappingTree.dfy`, `ConfigKey.dfy`, `ConfigService.dfy`, `ConfigRuns.dfy` | the configuration tree, its keys, its service, runs of commands |
| `Frontmatter.dfy`, `Document.dfy`, `Fragment.dfy`, `ConfigFile.dfy`, `Paths.dfy`, `ConfigStore.dfy`, `ConfigProtocol.dfy` | files, fragments, paths, and concurrent writers |
| `Verifier.dfy`, `CacheNames.dfy`, `CacheDirectory.dfy`, `CacheRetention.dfy`, `Resolver.dfy`, `CacheProtocol.dfy`, `SoloResolve.dfy` | the binary cache |
| `Scrub.dfy`, `Release.dfy` | the Python tasks |

`dafny verify dfyconfig.toml` checks everything.

## Hypotheses

They are stated as predicates that the theorems require, never built in:

- `Verifier.IsCollisionFree`: a digest has 32 bytes, and no two contents that some signature
  verifies over have the same digest. The digest and the signature scheme are otherwise
  arbitrary functions. The scheme is idealised: `verifies` stands for "the holder of a trusted
  key has issued this signature over these bytes", so the signed contents are the released
  ones and not everything for which a signature exists in principle.
- `Document.IsFaithful`: whatever the YAML library emits, closed by an LF, is not blank, has
  no line that reads as a fence, and parses back to the value emitted. The library is
  otherwise arbitrary, and may refuse to parse or to emit. It is idealised too: were it to
  emit a mapping with a key twice, which the tree allows, it would have to parse it again.
- Process numbers of live processes are distinct; a rename is atomic; nobody but the modelled
  processes touches the directory. What lies there at the start is arbitrary unless a
  statement says otherwise.

The network, clocks, failures of calls and listing orders are parameters or
nondeterministic choices, so the theorems hold for all of them.

## Where the code does less than one may expect

These are facts about the code, proved here rather than worked around:

- Retention for `foo` also counts and removes entries of `foo-bar` (`RetentionSeesLongerNames`).
- The doc comment at cache.rs:134-135 says that retention never removes the newest entry. It can, when
  enough other entries carry the same modification time; `SurvivesIff` gives the exact
  condition. So an entry can be dropped by the resolve that has just stored it;
  `StoredSurvivesIff` says exactly when, in terms of the directory before the store.
- The visible entries of a name that fail verification can grow: a store that stops after its
  first rename, over a stale signature, leaves one more (`VisibleBadCanGrow`).
  `VisibleBadGrowsIff` says that nothing else does, and `BadHitsUseUpVisibleBad` counts them in.
- Trimming a fragment body is not idempotent on a last line ending in two CRs
  (`TrimNotIdempotent`); `TrimIdempotentIff` gives the exact condition.
- A write discards a root that is a scalar or a sequence; `FragmentUnchangedIff` says exactly
  when this shows in the fragment.
- Overlapping writes of different keys can both succeed and lose one of them
  (`OverlappingWritesLoseOne`). `NewsStandsIff` says for every run when an update survives:
  exactly as long as no rename resets its key or installs a document read before it.
- A scrubbed text can still contain the repository path, but only if that path has a dot and
  does not lie below the home (`RepoIsGoneIff`, for a repository path without a tilde and not
  shorter than the home; `RepoSurvives` gives the text). For any two paths and any third,
  `ScrubGoneIffNoSource` reduces the question to finitely many candidate texts, also when there
  are temporary directories.
- The doc comment at github.py:153-155 says that every failure of a signature check, a tool
  hiccup included, counts as a failed verification. It does not when the download tool cannot
  be started or breaks (anything but a non-zero exit and a timeout), or when the signature
  tool breaks (anything but a non-zero exit, a timeout and a failure to start): such an
  exception escapes to the branch that deletes the draft and its tag. `SignatureCheckIsBlamed`
  gives the exact condition on the replies, `ToolHiccupsDelete` a whole run for each of the two
  failures.
- The draft and its tag are sent to deletion exactly when some call's reply escapes in this
  way, a failed upload or publish call among them, or when the run gets as far as a platform
  without a recorded digest (`DeletesIff`). A run that is interrupted or fails a verification
  before that look-up deletes nothing.

## Model

| member | source | states |
|---|---|---|
| CacheProtocol.VisibleIsAlwaysGood | cli/launcher/src/launch/outbound/resolve/cache.rs:37-132 | In every interleaving and crash of any number of processes, from a clean directory, every entry `find` can return is complete, executable, has the checksum in its name and a signature that verifies it; no temporary file is ever visible |
| CacheProtocol.TaintNeverSpreads | cli/launcher/src/launch/outbound/resolve/cache.rs:61-176 | From any directory, a stem under which nothing bad lay at the start stays so at every moment of every run |
| CacheProtocol.RunKeepsInv | cli/launcher/src/launch/outbound/resolve/mod.rs:92-207 | The invariant behind both: soundness per stem, and for every process in the middle of a store the exact content of its temporary file |
| CacheProtocol.StepKeepsOthers | cli/launcher/src/launch/outbound/resolve/cache.rs:80-92 | A step of one process never disturbs what another relies on, its temporary files included |
| CacheProtocol.StepKeepsSound | cli/launcher/src/launch/outbound/resolve/cache.rs:86-132 | No single step (partial write, chmod, rename, remove, crash) makes a sound stem unsound |
| CacheProtocol.ReverifyFailsOnlyOnRemoval | cli/launcher/src/launch/outbound/resolve/mod.rs:92-111 | From a clean directory a re-verification fails only because another process, evicting or enforcing retention, removed the binary or its signature while this one was reading the entry; that step is exhibited |
| CacheProtocol.ReturnedIsGood | cli/launcher/src/launch/outbound/resolve/mod.rs:92-204 | From any directory, poisoned or not, in every interleaving and crash: the entry a process has been given holds content with the checksum in its name that a trusted signature covers, as long as it is there |
| CacheProtocol.UndisturbedStoreIsStore | cli/launcher/src/launch/outbound/resolve/cache.rs:67-115 | Undisturbed, the store's steps amount to the sequential store, and at every point where it fails or is cut short to one that has placed neither file or the binary only |
| SoloResolve.ResolveIsSoloRun | cli/launcher/src/launch/outbound/resolve/mod.rs:181-207 | Every resolve the resolver can perform, in every world of faults and refused removals, is a run of the process's steps alone, from the scan to the answer and to the very directory the resolver leaves |
| SoloResolve.SoloRunReturns | cli/launcher/src/launch/outbound/resolve/mod.rs:139-207 | Whatever a process that runs alone returns is a visible entry that passes both checks, with the directory unchanged, or what it fetched, verified and stored in the directory it found without at most one bad entry; after the store only entries of the name went |
| SoloResolve.CrashesAndBegins | cli/launcher/src/launch/outbound/resolve/mod.rs:181-207 | Any moment can be a process's last, and a free one can take up any name |
| SoloResolve.CrashLeavesAnyPart | cli/launcher/src/launch/outbound/resolve/cache.rs:101-115 | A crash during the write leaves any part of the content under the temporary name |
| CacheDirectory.Cache.Find | cli/launcher/src/launch/outbound/resolve/cache.rs:37-59 | Returns a visible entry of the name and version with its checksum, and none exactly when there is none, in any listing order |
| CacheDirectory.Cache.WriteThenRename | cli/launcher/src/launch/outbound/resolve/cache.rs:101-115 | The final file is complete or as it was; only the temporary and the final name are touched; the temporary file is gone on success and after a failed rename whose clean-up works; exactly which faults make it fail |
| CacheDirectory.Cache.Store | cli/launcher/src/launch/outbound/resolve/cache.rs:67-99 | Both files complete and the binary dated by the store, or on failure the signature as it was and the binary as it was or complete, by where it failed; nothing else is touched |
| CacheDirectory.StoredIsStore | cli/launcher/src/launch/outbound/resolve/cache.rs:67-115 | The exact outcome of a store, temporary files included, keeps what the store promises at every fault |
| CacheDirectory.Cache.Evict | cli/launcher/src/launch/outbound/resolve/cache.rs:129-132 | Exactly the entry's binary and signature are gone, as far as they can be removed |
| CacheDirectory.Cache.EnforceRetentionCap | cli/launcher/src/launch/outbound/resolve/cache.rs:136-176 | Removes exactly the victims of the listing order it saw, with their signatures, as far as they can be removed |
| CacheDirectory.SoundIsVerified | cli/launcher/src/launch/outbound/resolve/cache.rs:37-59 | A visible sound entry is executable and passes both checks |
| CacheRetention.RetentionEffect | cli/launcher/src/launch/outbound/resolve/cache.rs:136-176 | Whatever the listing order, the entries chosen are the oldest beyond the cap; only they and their signatures go, as far as they can be removed; if all can, exactly min(n, cap) of the n remain |
| CacheRetention.SurvivesIff | cli/launcher/src/launch/outbound/resolve/cache.rs:134-175 | An entry survives every run of retention if and only if fewer than cap others are as new or newer |
| CacheRetention.SomeListingRemoves | cli/launcher/src/launch/outbound/resolve/cache.rs:170-172 | Otherwise some listing order makes it a victim |
| CacheNames.EntryIff | cli/launcher/src/launch/outbound/resolve/cache.rs:21-48 | A file is an entry of a name and version with a checksum exactly when it is their stem |
| CacheNames.StemInjective | cli/launcher/src/launch/outbound/resolve/cache.rs:21-23 | For a fixed version the entry name determines name and checksum |
| CacheNames.RetainedIff | cli/launcher/src/launch/outbound/resolve/cache.rs:148-156 | Retention for a name counts exactly the files made of the name, anything, and a trailing checksum |
| CacheNames.RetentionSeesLongerNames | cli/launcher/src/launch/outbound/resolve/cache.rs:137-156 | Every entry of a longer name that continues this one with a dash is counted too |
| CacheNames.TempNamesApart | cli/launcher/src/launch/outbound/resolve/cache.rs:80-84 | A temporary file is no entry, no entry's signature, and no other process's temporary file |
| Verifier.Sha256Hex | cli/launcher/src/launch/outbound/resolve/verifier.rs:13-20 | The byte-by-byte loop yields the hexadecimal text of the digest |
| Verifier.HexInjective | cli/launcher/src/launch/outbound/resolve/verifier.rs:13-20 | Distinct digests have distinct texts |
| Verifier.HexReadsBack | cli/launcher/src/launch/outbound/resolve/verifier.rs:13-21 | Each byte is two lower-case digits, the high one first, and the bytes come in order |
| Verifier.HexDigitIff | cli/launcher/src/launch/outbound/resolve/cache.rs:17-19 | A digit in a name may be of either case |
| Verifier.HexDigestFacts | cli/launcher/src/launch/outbound/resolve/verifier.rs:13-20 | The text is always 64 hex digits, and singles out the signed content it belongs to |
| Verifier.VerifiedIsUnique | cli/launcher/src/launch/outbound/resolve/verifier.rs:27-48 | Two contents verified against one checksum are the same |
| Resolver.FetchVerifyCacheResolver.Reverify | cli/launcher/src/launch/outbound/resolve/mod.rs:92-111 | Succeeds exactly when both files are there and their content passes both checks |
| Resolver.FetchVerifyCacheResolver.FetchVerifyStore | cli/launcher/src/launch/outbound/resolve/mod.rs:139-179 | Nothing is touched unless the fetched bytes verify; then they are stored and retention applied; each failure is reported as its own error |
| Resolver.FetchVerifyCacheResolver.Resolve | cli/launcher/src/launch/outbound/resolve/mod.rs:182-207 | A verified hit is returned and nothing changes; a bad hit is evicted and fetched again; no hit is fetched |
| Resolver.StoreKeepsSound | cli/launcher/src/launch/outbound/resolve/cache.rs:61-99 | Storing verified bytes makes no stem unsound, wherever it stops |
| Resolver.ResolveShrinksTaint | cli/launcher/src/launch/outbound/resolve/mod.rs:193-206 | No resolve taints a stem, and a bad hit that can be removed is clean afterwards |
| Resolver.BadHitsAreBounded | cli/launcher/src/launch/outbound/resolve/mod.rs:193-206 | In any run of resolves of one name, with removals succeeding, the bad hits never exceed the stems tainted at the start, invisible leftovers included, even if stores fail |
| Resolver.ResolveVisibleBad | cli/launcher/src/launch/outbound/resolve/mod.rs:182-207 | A resolve adds no visible entry that fails verification but a binary left over a stale signature, and a bad hit that can be removed is gone |
| Resolver.VisibleBadGrowsIff | cli/launcher/src/launch/outbound/resolve/cache.rs:86-92 | The visible entries that fail grow if and only if the store stopped between its two renames, over a signature that does not verify the new binary, under a stem not among them |
| Resolver.VisibleBadCanGrow | cli/launcher/src/launch/outbound/resolve/cache.rs:86-92 | The directory that holds only a stale signature, from no visible failing entry to one |
| Resolver.BadHitsUseUpVisibleBad | cli/launcher/src/launch/outbound/resolve/mod.rs:193-206 | In any run, with removals succeeding, bad hits and the visible failing entries left are at most those of the start and those added by stores that stopped midway |
| Resolver.BadHitsWithinVisibleBad | cli/launcher/src/launch/outbound/resolve/mod.rs:193-206 | So when no store stops midway, the bad hits are at most the visible entries that failed at the start |
| Resolver.HealedStaysOffline | cli/launcher/src/launch/outbound/resolve/mod.rs:193-206 | Once no visible entry of the name fails and there is one, every later resolve answers from the cache with verified bytes and changes nothing |
| Resolver.ResolvedIsVerified | cli/launcher/src/launch/outbound/resolve/mod.rs:183-207 | The entry a resolve names belongs to the name and verifies, if retention left it there |
| Resolver.StoredIsFound | cli/launcher/src/launch/outbound/resolve/mod.rs:157-178 | What was verified and stored is visible, and stays so exactly if retention did not choose it or could remove neither file |
| Resolver.StoredSurvivesIff | cli/launcher/src/launch/outbound/resolve/cache.rs:136-176 | What was just stored survives every listing order exactly if before the store fewer than the cap of other counted entries were as new as that moment or newer |
| Resolver.StoredStays | cli/launcher/src/launch/outbound/resolve/mod.rs:164-178 | What was fetched, verified and stored is visible when the resolve is over, executable, with the very bytes and signature fetched, if fewer than the configured number of other entries are as new as the store |
| Resolver.FetchKeepsTheCap | cli/launcher/src/launch/outbound/resolve/mod.rs:173-178 | A successful fetch leaves min(n, configured number) of the n entries there with the one stored, when removals succeed; no entry that went is newer than one left; nothing but entries of the name and their signatures went |
| Resolver.ResolveAnswers | cli/launcher/src/launch/outbound/resolve/mod.rs:139-207 | Every answer: a verified hit with nothing changed, else the exact success or error the fetch, the two checks and the two writes call for; files of other names stay |
| ConfigTree.InsertSucceedsIff | cli/config/src/service.rs:135-187 | A write succeeds if and only if no proper prefix of the key names a scalar or a sequence and the key names no mapping or sequence |
| ConfigTree.FirstConflict | cli/config/src/service.rs:151-187 | Otherwise the shortest blocking prefix decides which conflict is reported, and at which segment |
| MappingTree.Mapping.Insert | cli/config/src/service.rs:135-149 | The in-place recursive insert agrees with the insert on values, and leaves the tree untouched when it fails |
| MappingTree.Mapping.DescendForInsert | cli/config/src/service.rs:171-187 | Finds or appends the child mapping, or fails on anything else and changes nothing |
| MappingTree.Mapping.SetLeaf | cli/config/src/service.rs:151-169 | Writes the string at the segment unless a mapping or sequence stands there |
| MappingTree.Mapping.Upsert | cli/config/src/node.rs:52-59 | An existing key keeps its position, a new one goes last |
| MappingTree.Mapping.Position | cli/config/src/node.rs:37-43 | Finds the first of possibly several entries with the key |
| MappingTree.Mapping.Snapshot | cli/config/src/node.rs:64-69 | Reads back exactly the value the mutable tree holds |
| MappingTree.FromEntries | cli/config/src/node.rs:71-75 | Builds a tree that holds exactly the given value |
| ConfigWrites.PositionsKept | cli/config/src/node.rs:52-63 | At every mapping a write passes through, every other entry keeps its exact node and place, and a new one goes last |
| ConfigWrites.NodeAtAfterInsert | cli/config/src/service.rs:101-187 | The written path holds the value, nothing lies below it, and every path off the written branch names the same node as before |
| ConfigWrites.InsertEdits | cli/config/src/service.rs:135-187 | An accepted insert is an edit: the value at the path, the same node at every unrelated path, every other entry on the way in its place |
| ConfigWrites.EditIsUnique | cli/config/src/service.rs:135-187 | No other document is such an edit, so the insert is determined by it |
| ConfigWrites.ResolveAfterInsert | cli/config/src/service.rs:116-187 | A write changes the answer for its own key alone |
| ConfigWrites.WritesCommute | cli/config/src/service.rs:135-187 | Attempted writes to keys neither of which is a prefix of the other succeed or fail alike in both orders and agree on every lookup |
| ConfigWrites.WritesCommuteExactly | cli/config/src/service.rs:135-187 | When both leaves exist, the two orders give identical documents |
| ConfigWrites.SecondWriteAbsorbs | cli/config/src/service.rs:135-187 | A second write to the same key absorbs the first |
| ConfigWrites.PrefixWriteFails | cli/config/src/service.rs:151-187 | After a write, a write to a proper prefix or extension of its key fails |
| ConfigWrites.DenseFreeIffFlatFree | cli/config/src/service.rs:151-187 | On documents without sequences and empty mappings, the flat map of scalars decides which writes are allowed |
| ConfigKey.DisplayParsed | cli/config/src/key.rs:19-37 | Displaying a parsed key gives back the raw string |
| ConfigKey.ParseDisplayed | cli/config/src/key.rs:19-37 | Parsing the display of any key gives back the key |
| ConfigKey.ParseInOrder | cli/config/src/key.rs:19-37 | What stands before the first dot is the first segment, and the rest of the text gives the rest of the key |
| ConfigKey.ParseFailsIff | cli/config/src/key.rs:12-27 | Parsing fails exactly on an empty string, a leading or trailing dot, or two adjacent dots |
| ConfigService.Walk | cli/config/src/service.rs:116-133 | The segment loop finds exactly the scalar the path names |
| ConfigService.ConfigAccess.Get | cli/config/src/service.rs:83-99 | Personal over team, a null or empty string counting as present, and the first failing read reported |
| ConfigService.InsertKey | cli/config/src/service.rs:107-112 | The tree built of the mapping read, or an empty one, with the key inserted in place, is the insert on values |
| ConfigService.ConfigAccess.Set | cli/config/src/service.rs:101-113 | One level gets the document with the key inserted, or nothing changes |
| ConfigService.WriteEdits | cli/config/src/service.rs:101-187 | A write passes exactly when its level can be read and written and the path is free; it then leaves an edit of the document read, lists and empty mappings included, and the other level as it was |
| ConfigService.SetThenGet | cli/config/src/service.rs:83-113 | After a write its level answers the value, both levels together answer it unless the personal level has an answer to a team write, be it null or empty; every other key answers as before |
| ConfigService.LookupFailsIff | cli/config/src/service.rs:83-99 | A read fails exactly with the first failure among the levels it consults, personal before team |
| ConfigRuns.RunRefinesFlatMaps | cli/config/src/service.rs:83-133 | Over every run of gets and sets the two trees answer as two flat maps, each accepted set being one map update |
| ConfigRuns.DenseRunsAreFlat | cli/config/src/service.rs:83-187 | On documents a run of sets can build, the flat maps alone determine even which sets are accepted |
| ConfigRuns.InsertUpdatesView | cli/config/src/service.rs:135-169 | A successful insert is exactly one update of the flat view |
| Frontmatter.SplitContent | cli/config-adapters/src/frontmatter.rs:21-47 | The one-pass splitter with its flag and two buffers equals the split by position |
| Frontmatter.SplitFailsIff | cli/config-adapters/src/frontmatter.rs:21-47 | A split fails exactly when the first line is a fence and no later line is |
| Frontmatter.SplitLosesNothing | cli/config-adapters/src/frontmatter.rs:31-46 | Opening fence, frontmatter, closing fence and body are the content, and the frontmatter has no fence line |
| Frontmatter.SplitUnique | cli/config-adapters/src/frontmatter.rs:31-46 | Any content of that shape is split exactly there, whatever fences the body contains |
| Frontmatter.OpensIff | cli/config-adapters/src/frontmatter.rs:21-55 | Frontmatter is opened exactly by three dashes and the end of a line in any form, read off the text |
| Frontmatter.PlainContentIsBody | cli/config-adapters/src/frontmatter.rs:22-28 | The split is an empty frontmatter and the whole content as body exactly for a text that does not begin so |
| Text.WhitespaceIff | cli/config/src/fragment.rs:178 | Whitespace is exactly the 25 characters with the Unicode property |
| Document.NodeSurvives | cli/config-adapters/src/document.rs:71-108 | Mapping a document to the serialised form and back is the identity |
| Document.ParsedSurvives | cli/config-adapters/src/document.rs:71-108 | So is the round trip from the serialised form |
| Document.ScalarsAreRead | cli/config-adapters/src/document.rs:71-88 | Every path of the document reads as the very scalar the library parsed there, of the same kind |
| Document.SplitInvertsRender | cli/config-adapters/src/document.rs:30-69 | Splitting a rendering gives exactly the emitted text and the previous body |
| Document.RenderRoundTrips | cli/config-adapters/src/document.rs:24-60 | Rendering then reading gives back document and body, and rendering again changes nothing |
| Fragment.TrimBlankLines | cli/config/src/fragment.rs:170-184 | The one-pass trim equals the line-based specification, and its offsets stay in range |
| Fragment.TextBounds | cli/config/src/fragment.rs:171-182 | The loop finds the offset of the first line with text and the end of the last one |
| Fragment.TrimmedEmptyIff | cli/config/src/fragment.rs:170-184 | Text is left exactly when the body has a character that is not whitespace |
| Fragment.TrimmedEnds | cli/config/src/fragment.rs:170-184 | What is left begins and ends with a line that has text, and never ends in an LF |
| Fragment.TrimmedIsCutOut | cli/config/src/fragment.rs:170-184 | The trimmed text is cut out of the body as it stands: blank lines in front, and behind it the end of its last line and blank lines |
| Fragment.TrimIdempotentIff | cli/config/src/fragment.rs:170-184 | Trimming twice is trimming once exactly when the last line with text, without its terminator, does not end in CR |
| Fragment.TrimNotIdempotent | cli/config/src/fragment.rs:175-176 | The two-CR line that loses one CR at each pass |
| Fragment.AssemblyAgrees | cli/config/src/fragment.rs:121-168 | A level is reported to have a body exactly when its body has text, exactly when that text is in the fragment; team precedes personal with one blank line between; no LF at the end |
| Fragment.AssembleFailsIff | cli/config/src/fragment.rs:121-127 | The team's failure is reported before the personal one |
| ConfigFile.SetThenRead | cli/config/src/service.rs:101-113 | Through the file, a set leaves an edit of the document read, so exactly one update of its flat map, and the markdown body stays |
| ConfigFile.SetSucceedsIff | cli/config/src/service.rs:101-113 | A set succeeds exactly on a well-formed file with a free path, if the library can emit the edit |
| ConfigFile.SetKeepsTheTail | cli/config-adapters/src/document.rs:30-69 | The new file is two fences around the emitted text and then a tail of the old file, all of it exactly when that did not begin with a fence |
| ConfigFile.PlainFileKeepsItsText | cli/config-adapters/src/frontmatter.rs:22-28 | A plain markdown file keeps its whole text through a set, at the end of the file and in the fragment |
| ConfigFile.DocumentIs | cli/config-adapters/src/store.rs:162-176 | What a file reads as: an empty mapping without frontmatter or with a blank one, a failure, or what the library parses |
| ConfigFile.TextIs | cli/config-adapters/src/store.rs:83-111 | What a file contributes: what is below the fences when they hold nothing or a mapping, else all of it |
| ConfigFile.ContextReports | cli/config/src/fragment.rs:121-168 | Of two files the assembly reports level, path below the root, presence and text of each, and their trimmed texts, team first; or the first failure |
| ConfigFile.SetFileIsServiceWrite | cli/config-adapters/src/store.rs:162-220 | The file store behaves as the level store the service is written against |
| ConfigFile.FragmentUnchangedIff | cli/config-adapters/src/store.rs:94-111 | A set leaves what its level contributes to the project context unchanged if and only if the file was absent or its frontmatter blank, missing or a mapping |
| ConfigFile.RunKeepsProjectContext | cli/config-adapters/src/store.rs:94-111 | Any run of sets leaves the assembled project context unchanged; a level is discovered afterwards exactly if it was or some set at it was accepted, and a created file contributes nothing |
| ConfigProtocol.ConcurrentWritesKeepTheFile | cli/config-adapters/src/store.rs:137-219 | In every interleaving and crash the file is the initial one or one complete rendering over the initial body, and every scalar in it was there initially or requested for exactly that path |
| ConfigProtocol.MalformedFileIsNeverTouched | cli/config-adapters/src/document.rs:24-45 | A malformed file is never overwritten, whatever is attempted |
| ConfigProtocol.HeldIsRead | cli/config/src/service.rs:101-113 | In every run, a document that a process holds is an edit, at its own key, of the one it read at a definite earlier moment |
| ConfigProtocol.RenameInstalls | cli/config-adapters/src/store.rs:154-158 | In every run each rename leaves the document its process had read, at that moment, edited at its own key, and so exactly the flat map it read with that key set |
| ConfigProtocol.WriteStandsIff | cli/config-adapters/src/store.rs:137-219 | In every run a finished write stands up to a later moment if and only if every rename in between keeps it |
| ConfigProtocol.NewsStandsIff | cli/config-adapters/src/store.rs:137-219 | A write of a new value stands if and only if every rename in between sets the same value or comes from a document read after the write had finished |
| ConfigProtocol.BothStandIff | cli/config-adapters/src/store.rs:137-219 | Of two writes of different keys, with any renames in between, the later stands right after its rename, and the earlier exactly if it stood when the later process read; with no rename in between and a value that was not there before, exactly if it read after the earlier rename |
| ConfigProtocol.SequentialWritesBothStay | cli/config-adapters/src/store.rs:137-219 | For any two keys that can be set one after the other there is a run in which both writes take effect |
| ConfigProtocol.OverlappingWritesLoseOne | cli/config-adapters/src/store.rs:137-219 | For any two keys there is a run in which both writes succeed and the one that finished first leaves no trace |
| ConfigProtocol.SoloRunWrites | cli/config-adapters/src/store.rs:137-159 | An undisturbed process completes the sequential write and leaves no temporary file |
| ConfigProtocol.CrashLeavesAnyPart | cli/config-adapters/src/store.rs:137-159 | A crash during the write leaves any part of the content under the temporary name, and the file as it was |
| ConfigProtocol.AnyCallCanFail | cli/config-adapters/src/store.rs:137-159 | Every call can fail, with the temporary file gone or left behind |
| Paths.ParseSkillName | cli/config/src/source.rs:27-39 | Accepts a name unchanged, and refuses exactly the empty one and those with a character outside the allow-list |
| Paths.PermittedIff | cli/config/src/source.rs:28-32 | The allow-list, character by character |
| Paths.FragmentPathInjective | cli/config-adapters/src/store.rs:62-81 | Distinct sources and levels name distinct files, also as spelled out with separators |
| Paths.FragmentPathSpelled | cli/config-adapters/src/store.rs:53-77 | Where every fragment of every level is, spelled out |
| Paths.FragmentStaysInside | cli/config-adapters/src/store.rs:58-81 | Every fragment lies strictly below the config directory, with no component that could leave it |
| Paths.TempPathApart | cli/config-adapters/src/store.rs:142-149 | A write's temporary file is no fragment's file, and no two writes share one |
| Paths.Discover | cli/config-adapters/src/store.rs:255-264 | The upward walk yields the nearest marked ancestor, else the start directory |
| Paths.NearestIff | cli/config-adapters/src/store.rs:255-264 | What is found is a marked ancestor with no nearer one marked, and the only such |
| Paths.DiscoverIff | cli/config-adapters/src/store.rs:255-264 | A directory is chosen exactly when it is an ancestor holding `.git` or a `.luminosity` directory with none below it doing so, or is the start and no ancestor does |
| Paths.DiscoveryAfterWrite | cli/config-adapters/src/store.rs:137-159 | What discovery finds from every directory after a write, exactly |
| Paths.WriteKeepsDiscovery | cli/config-adapters/src/store.rs:47-56 | A write below the discovered root keeps it the root from the start directory and every directory between the two |
| ConfigStore.FileConfigStore.AtomicWrite | cli/config-adapters/src/store.rs:137-159 | The target holds all of the contents or what it held; nothing else changes but directories on the way and the temporary file, which is gone on success |
| ConfigStore.FileConfigStore.Read | cli/config-adapters/src/store.rs:162-176 | Absent, the parsed frontmatter, or the failure to parse |
| ConfigStore.FileConfigStore.Write | cli/config-adapters/src/store.rs:204-219 | Renders over what the file holds now and replaces it, or changes nothing when it is malformed |
| ConfigStore.FileConfigStore.Set | cli/config/src/service.rs:101-113 | The whole path from reading a level to replacing its file does what the function on file contents says |
| ConfigStore.WrittenIsRead | cli/config-adapters/src/store.rs:162-219 | A written document is read back as given over the same body, and every other fragment's file is as it was |
| ConfigStore.SetIsRead | cli/config-adapters/src/store.rs:162-219 | After a set through the file system its level reads as an edit of what it was, and the other level's file is as it was |
| Scrub.ScrubPaths | tasks/shared/eval/readback.py:57-70 | The loop applies the rules of the stably sorted list one after another |
| Scrub.SortIsStable | tasks/shared/eval/readback.py:65-67 | The sort keeps the rules of each length, in their order |
| Scrub.SortIsSorted | tasks/shared/eval/readback.py:65-67 | Longest needles come first |
| Scrub.ReplaceRejoins | tasks/shared/eval/readback.py:68-69 | One replacement keeps the pieces between the needles and joins them with the token |
| Scrub.EmptyNeedleRejoins | tasks/shared/eval/readback.py:68-69 | An empty needle is found in front of every character and at the end |
| Scrub.PiecesAreLeftmost | tasks/shared/eval/readback.py:68-69 | The needles taken are the leftmost, non-overlapping ones, and none is left over |
| Scrub.OccurrenceWasThere | tasks/shared/eval/readback.py:68-69 | A replacement brings no other needle into being and leaves none of its own, when the needle cannot overlap the token |
| Scrub.ScrubLeavesNoNeedle | tasks/shared/eval/readback.py:57-70 | A path that cannot overlap its own token or those applied later is left nowhere, nor is any path that contains it, for any text and any other paths |
| Scrub.NeedleIsGoneFrom | tasks/shared/eval/readback.py:68-69 | Only the tokens of a needle's own rule and of later rules matter for whether it is gone |
| Scrub.RepoIsGoneIff | tasks/shared/eval/readback.py:60-70 | A repository path without a tilde, not shorter than the home, is gone from every scrubbed text if and only if it has no dot or contains the home |
| Scrub.RepoSurvives | tasks/shared/eval/readback.py:60-70 | Otherwise the path wrapped around its first dot is a text that the scrub turns into the path itself |
| Scrub.ScrubGoneIffNoSource | tasks/shared/eval/readback.py:60-70 | For any repository and home, any path is gone from every scrubbed text if and only if none of finitely many computable candidates is scrubbed into it; with any temporary directories too, for paths with a separator and no angle bracket |
| Scrub.UnchangedIff | tasks/shared/eval/readback.py:57-70 | Scrubbing leaves a text alone exactly when no needle occurs in it, provided that every needle is longer than its token or cannot overlap a token |
| Scrub.MostSpecificWins | tasks/shared/eval/readback.py:65-69 | A path that is a needle becomes its own token, however many shorter needles it contains, if no later needle lies within that token |
| Scrub.PathBecomesItsToken | tasks/shared/eval/readback.py:57-70 | A temporary directory becomes `<tmp>`, the repository `.`, the home `~`, whichever contains which, in this order when they coincide; for paths with a separator |
| Scrub.NeedleIsGoneIff | tasks/shared/eval/readback.py:62-63 | One replacement by a single character removes its needle from every text if and only if the needle lacks that character |
| Release.Publisher.DownloadAndVerify | tasks/github.py:124-140 | Passes only on bytes with the expected digest; refusals and timeouts count as failed verification |
| Release.Publisher.DownloadAndVerifySignature | tasks/github.py:143-179 | Passes only when the signature tool succeeds on the two downloads; a refusal and a timeout of a download or of the signature tool count as failed verification, and so does a signature tool that cannot be started; a download tool that cannot be started and any other exception do not |
| Release.Publisher.TryBlock | tasks/github.py:207-230 | The nested loops perform the planned steps in order, up to the first failure |
| Release.Publisher.UploadAndVerify | tasks/github.py:182-244 | Unreadable checksums and any planned upload that is missing touch nothing; otherwise the block and its aftermath |
| Release.PlannedIsRequired | tasks/github.py:195-215 | The artefacts that must exist beforehand are exactly those the run would upload, so a missing one touches nothing |
| Release.RecordedDigest | tasks/github.py:187-190 | A recorded digest counts without its `sha256:` |
| Release.PublishedIsVerified | tasks/github.py:207-230 | A publish call comes only after everything was uploaded and, after that, every binary came back with its recorded digest and a verifying signature, and the manifest with one |
| Release.PublishesIff | tasks/github.py:207-230 | A run ends published if and only if every step succeeds in its turn: every call answered, every digest as recorded, every signature verifying |
| Release.EveryRunIsAccountable | tasks/github.py:207-244 | Publishing is issued at most once; a verification error neither publishes nor deletes; any other exception leads to exactly one delete; nothing else does (which replies lead there: `DeletesIff`) |
| Release.RunEndsBy | tasks/github.py:207-244 | How a run ends by the replies: interrupted exactly when a call was, in an ordinary exception exactly when a reply escaped or a digest is missing in its turn, published exactly when all succeeded, else in a verification error |
| Release.SignatureCheckIsBlamed | tasks/github.py:143-179 | A signature check escapes as an ordinary exception if and only if a download tool cannot be started or breaks, or the signature tool breaks |
| Release.DeletesIff | tasks/github.py:187-244 | A run sends the draft and its tag to deletion if and only if some reply escaped as an ordinary exception, or all went well up to the look-up of a missing digest |
| Release.RecordedDeletesIff | tasks/github.py:207-244 | With every platform's digest recorded, only such a reply does |
| Release.ToolHiccupsDelete | tasks/github.py:153-179 | A run in which only the signature tool breaks, and one in which only a download tool cannot be started, both delete and raise no alert |
| Release.UnrecordedIsNeverPublished | tasks/github.py:187-215 | A platform without a recorded digest is never published |

## Left out

- HTTP, TLS, redirects, retries and `exec`: a fetch is a parameter that yields bytes or an error.
- The release manifest's parsing, schema and version check: folded into what the fetch yields.
- The internals of YAML, minisign and SHA-256: the hypotheses above.
- Symlink resolution and the containment check of the file store: they rest on the operating system's canonical paths.
- The command line, help texts, error wording, `--explain` and the exact prose of prompts.
- Cache-root probing, the shell entry script and the build script.
- Invoke tasks other than the release upload and the scrubber, and version bumping.
- File names and signatures that are not valid UTF-8, and read failures other than a missing file.
- Integers beyond the 64-bit range, which the YAML boundary keeps as strings; infinities, NaN and the formatting of floats.
- Offsets count characters of a text where the source counts bytes; no slice depends on the difference.
- MappingTree.FromEntries: the source mutates the tree the reader returned; the model builds the mutable tree from the value that was read, and reads the value back out before it is written.
- SoloResolve.SoloRunReturns: the machine's scan may overlook an entry, so a run that fetches need not have had nothing to find.
- CacheProtocol.VisibleIsAlwaysGood: the machine lets `find` overlook an entry and lets retention pick any of the name's entries, so it covers more behaviours than the code has; it says nothing about progress.
- CacheDirectory.Cache.EnforceRetentionCap: modification times are those recorded at the write, and the directory does not change while it is listed; in the machine it may.
- Scrub.RepoIsGoneIff: does not cover a repository path with a tilde or shorter than the home, where the answer depends on how the two paths overlap; `Scrub.ScrubGoneIffNoSource` decides those too.
- Scrub.ScrubGoneIffNoSource: with temporary directories it asks that every path have a separator and no angle bracket, so that none can overlap the token `<tmp>`.
- ConfigProtocol.ConcurrentWritesKeepTheFile: a temporary file is named there by its process alone; that no two writes share a name is `Paths.TempPathApart`.
- ConfigStore.FileConfigStore.AtomicWrite: the write counter does not wrap around.
- Release.Publisher.UploadAndVerify: the creation and removal of local temporary files is part of the download call, and an interrupt during the clean-up call is reported as the error that led to it.
- Rewriting the files of a results directory after scrubbing, and the other readers of evaluation logs.
