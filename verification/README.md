# Macker in Dafny

Macker packages directory trees as OCI image layers, replays layers into a root filesystem, merges image indexes for
several platforms, and runs containers that own global host resources: bridge interfaces, PF redirect anchors and
ports. This project models the state machines and tree and sequence algorithms in the middle of it and proves what
they are for. `dafny verify dfyconfig.toml` checks everything.

**Layers** (`Text`, `Paths`, `FileTree`, `Layers`, `Modes`, `RootFilesystem`, `Headers`, `Changeset`, `Images`,
`RoundTrip`, `HiddenNames`). A filesystem is a map from paths below the root to directories, files, symlinks and
special files with modes. `RootFilesystem.dfy` holds the unpacker in the source's own form, a class whose methods
change that map call by call; each method is proved equal to a declarative step (`Layers.Effect`, `Layers.Step`,
`Layers.Replay`). About the declarative form four things are proved. Packing and unpacking restores a tree exactly
under a condition on names, modes and order that can be read off before. A layer that goes through leaves at every
path what the OCI image specification's `layer.md` ("Whiteouts", "Applying Changesets") says, and the layers that go
through are characterised; so is the folding of all layers of an image. While entries are replayed nothing is created,
replaced, linked or removed through a symlink or outside the root: the class logs the path and the tree of every such
system call, and each method shows that its calls stay inside. The mode phase at the end has no such guard, because
chmod follows symlinks: for every visiting order that puts deeper paths first it is said exactly when it is led
through a symlink, when it fails, and what it leaves. `Headers` says in literal terms what header names and types ask
for and what a layer of one entry does.

**Lifecycle** (`Network`, `Lifecycle`, `Ledger`, `LedgerRuns`, `Cleanings`, `Successes`, `Runs`, `HostBridge`,
`ForeignInterfaces`, `BridgeReferences`, `BridgeClaims`, `BridgeInUse`, `Redirects`, `LoadedRedirects`,
`FirstContainer`, `Suspension`, `Outcomes`, `Machines`). The world is the metadata on disk, the interfaces, anchors
and tokens of the host, the processes, and the records foreground runs keep in memory. Each command is a function from
a world and the outcomes of its fallible calls to a world; `Machines.dfy` holds the commands in the source's own form,
a class whose methods update fields statement by statement, each proved equal to its function. `Execute` runs any
sequence of commands with any outcomes, mixed with what others do: processes end or are killed, interfaces of any name
come and go, Macker's own included. The theorems quantify over all such runs: nothing leaks, interface slots are
distinct, every packet matches at most one redirect. Where a theorem needs others to keep off something, that is a
hypothesis on the events of the run (`Throughout`), and the lemma beside it shows what happens otherwise. `Successes`
and `Runs` say of each command, by the records, the processes and the calls alone, exactly when it succeeds and what
it then leaves, and `LoadedRedirects` that a container's redirects are loaded by its run and stay so until its own
cleanup. `Outcomes` adds what commands achieve together: a failed run leaves nothing behind, and run, stop and rm give
back what run took.

**Bundles** (`Bundles`, `Merging`, `BundleLaws`, `Platforms`). A digest stands for its content, so descriptors carry
the blob they point to, and a layout is an index with the set of blobs present. Flattening, merging, push wrapping and
the selection of `run` are loops proved against recursive functions, and the laws relate them. `Platforms` says which
platform an image without a label has and what that decides.

**Substitution and environment** (`Tokens`, `Substitutions`, `Environment`), **image references** (`ImageRefs`,
`ImageNames`) and **node ports** (`Ports`) complete the path from `run`'s arguments to the workload.

Some promises do not hold as one would first state them. Each has lemmas with inputs that break it and a theorem with
the exact condition under which it holds.

- Unpacking can change a mode elsewhere: where an entry names a directory and a later one puts a symlink in its place,
  the directory's mode is set through the symlink, inside the root or out, and the call may well succeed
  (`Modes.ReplacedDirectoryLeadsOut`); where a later entry puts a file there, the file gets the directory's mode
  (`Modes.FileTakesDirectoryMode`). `Modes.DeferredModes` says exactly when the phase is led through a symlink and when
  it fails, `Changeset.StreamSetsItsModes` the same in terms of the entries of any stream, and
  `Changeset.StreamLeavesItsFiles` exactly which streams leave every file as they made it. A layer that names no path
  twice does neither harm (`Changeset.LayerIsMerge`).
- A directory whose own name begins with `.wh.` may be lost by packing and unpacking, with the sibling it names
  (`HiddenNames.WhiteoutNamedDirectoryIsLost`), and may come back
  (`HiddenNames.WhiteoutNamedDirectoryCanComeBack`). `RoundTrip.RoundTripsExactly` says exactly which trees come back
  in which orders.
- A network configuration can outlive the bridge it refers to: when the container's own interface cannot be destroyed
  (`BridgeReferences.BridgeCanGoFirst`), and when everything is cleaned up but the record cannot be written
  (`BridgeReferences.BridgeCanGoUnwritten`). For each command it is said exactly when it leaves a reference without
  its bridge, over the records it actually leaves; in a run every reference has its bridge after every event if and
  only if every event meets its condition (`BridgeReferences.ReferencesAreAlwaysThere`). Whatever calls fail, a
  container in use has its bridge as long as nobody else destroys it (`BridgeInUse.EngagedAlwaysHaveBridge`).
- The last successful cleanup does not always destroy Macker's bridge: where an external container lodges on it and the
  container that claims it is stopped, the bridge stands and nobody claims it (`BridgeClaims.LodgerStrandsBridge`), and
  Macker never destroys it again (`BridgeClaims.StrandedForGood`). For each command it is said exactly when this
  happens, and a run keeps the bridge claimed at every point if and only if every event meets its condition
  (`BridgeClaims.BridgeIsAlwaysClaimed`). `HostBridge.BridgeLifetime` says what holds when nobody lodges on the bridge,
  takes its name or destroys it.
- Interfaces of others' making are destroyed if they take a name that a record still calls Macker's own
  (`ForeignInterfaces.SquatterIsDestroyed`). `ForeignInterfaces.StepDestroysExactly` says exactly which interfaces an
  event destroys, and `ForeignInterfaces.ForeignInterfacesStay` that all others' are safe in runs without such squatting.
- `rm` removes the record of a paused container whose launcher alone was killed and leaves its workload suspended
  (`Suspension.RmCanOrphan`, exactly when: `Suspension.RmOrphansExactly`); `ps` does so when automatic removal was
  asked for, and keeps the record otherwise (`Suspension.PsCanOrphan`, exactly when, wherever the loop fails:
  `Suspension.PsListOrphansExactly`). Without these two commands no suspension is forgotten whatever is killed
  (`Suspension.SuspensionIsRecorded`), with them none as long as launchers are not killed alone
  (`Suspension.SuspensionIsAttended`).
- Bundling again is idempotent, and of a bundle a supplied Darwin descriptor is loaded, if and only if some supplied
  descriptor's digest is not already that of a retained source leaf (`BundleLaws.RebundlingIsIdempotent`,
  `BundleLaws.BundleThenLoad`).
- A whiteout can reach beyond a name in its own directory: `.wh..` removes that directory and `.wh...` the one above, as
  far as they lie inside the root (`Headers.WhiteoutHeader`). A hard link without a source loses what was at its own
  path (`Headers.HardLinkLayer`).

## Model

| member | source | states |
|---|---|---|
| Paths.LexicalShape | cmd/macker/oci.go:1054-1060 | after cleaning, ".." occurs only at the front and no component is empty or ".", so rejecting a leading ".." rejects every escape |
| Paths.CleaningExactly | cmd/macker/oci.go:1049-1062 | a name is refused if and only if it is empty, begins with a slash of either kind or leads above the root at some point, even if it comes back; otherwise it cleans to the names last taken at each depth |
| Paths.CleaningIsIdempotent | cmd/macker/oci.go:1064-1073 | a cleaned name cleans to itself: the second cleaning inside safePath cannot fail or move the target |
| Paths.CleanOfRendered | cmd/macker/oci.go:714-717 | cleaning inverts the header names makeLayer writes, with or without the "/" of a directory |
| Layers.CheckParentsMeaning | cmd/macker/oci.go:1075-1101 | the parent check accepts a path if and only if every ancestor and the path itself is a real directory or below something missing |
| Layers.ObstacleIsNamed | cmd/macker/oci.go:1094-1099 | of the first obstacle on the way the parent check says whether it is a symlink |
| Layers.DecodeIsClean | cmd/macker/oci.go:907-919 | whatever the header says, the paths an entry acts on are free of "..", "." and empty components |
| Layers.ReplayKeepsClosed | cmd/macker/oci.go:899-986 | every entry stream, accepted or rejected midway, leaves a tree in which every node has its parent directories |
| Headers.OpaqueHeader | cmd/macker/oci.go:1020 | an entry named ".wh..wh..opq", in any directory and of any type and mode, empties that directory |
| Headers.WhiteoutHeader | cmd/macker/oci.go:1036-1046 | any other name ".wh." + n removes n beside it; "." stands for the directory itself, ".." for the one above, where there is one, and nothing is an error |
| Headers.PlainHeader | cmd/macker/oci.go:914-985 | any other entry adds what its type says at its own path with its nine permission bits, a hard link from its cleaned source |
| Headers.OpaqueLayer | cmd/macker/oci.go:1007-1034 | a layer of one opaque whiteout goes through if and only if the way is clear, and then all below its directory is gone and everything else, the directory included, as it was |
| Headers.WhiteoutLayer | cmd/macker/oci.go:1007-1046 | a layer of one whiteout likewise takes away what bears the name, with all below it, and nothing else |
| Headers.FileLayer | cmd/macker/oci.go:939-959 | a layer of one file needs a clear way and a directory to put it in, replaces whatever was at its path and nothing else; where it cannot be made nothing changes and the error says why |
| Headers.SymlinkLayer | cmd/macker/oci.go:960-964 | likewise for a symlink, its target as it stands |
| Headers.HardLinkLayer | cmd/macker/oci.go:965-982 | likewise for a hard link, with content and mode of a regular file elsewhere; where there is none, what was at its own path is gone all the same |
| Headers.DirectoryLayer | cmd/macker/oci.go:934-938 | a layer of one directory makes missing directories on the way with mode 0755, replaces what is at its path unless that is a directory, whose contents stay, and sets its own mode |
| RootFilesystem.RootFS.EnsureNoSymlinkParents | cmd/macker/oci.go:1075-1101 | the walk down from the root answers what the declarative parent check answers |
| RootFilesystem.RootFS.RemoveExisting | cmd/macker/oci.go:1120-1132 | removes the node and all below it, nothing else |
| RootFilesystem.RootFS.EnsureDirectory | cmd/macker/oci.go:1103-1118 | afterwards the path is a directory: kept with its contents, put in place of a non-directory, or made with its missing parents |
| RootFilesystem.RootFS.EmptyDirectory | cmd/macker/oci.go:1020-1034 | an opaque whiteout removes all below the directory and keeps the directory, in any order of its children |
| RootFilesystem.RootFS.ApplyWhiteout | cmd/macker/oci.go:1007-1047 | does what the decoded whiteout declares, error cases included |
| RootFilesystem.RootFS.ReplaceWith | cmd/macker/oci.go:939-964 | a file or symlink entry replaces what was at its path |
| RootFilesystem.RootFS.ReplaceWithLink | cmd/macker/oci.go:965-982 | a hard link entry removes what was at its path and puts its source's content there, or fails when there is none |
| RootFilesystem.RootFS.ApplyEntry | cmd/macker/oci.go:921-985 | one entry has its declarative effect |
| RootFilesystem.RootFS.ApplyHeader | cmd/macker/oci.go:907-985 | one turn of the loop is one declarative step, on tree, recorded modes and outcome |
| RootFilesystem.RootFS.ApplyDirectoryModes | cmd/macker/oci.go:988-1003 | for any map order: the recorded modes are set deepest first, symlinks followed, up to the first error, as the declared phase does |
| RootFilesystem.RootFS.ApplyTarLayer | cmd/macker/oci.go:896-1005 | the whole call, for every entry stream: the declarative replay, then the mode phase; every path given to a creating, replacing, linking or removing system call lies inside |
| RootFilesystem.RootFS.UnpackImage | cmd/macker/oci.go:848-867 | layer after layer, each applied to what the one before left, until one fails |
| RootFilesystem.LayerExactly | cmd/macker/oci.go:896-1005 | a layer ends in its replay's error or in the mode phase, which changes modes only, goes well and is led through no symlink if and only if no recorded path has a symlink at or above it or another non-directory above it, and then each recorded path has its recorded mode |
| RootFilesystem.InsideMeaning | cmd/macker/oci.go:1075-1101 | what the log of system calls is checked for: a path without "..", whose proper ancestors are real directories or missing at that moment |
| RootFilesystem.DirectoryKept | cmd/macker/oci.go:1103-1113 | a directory entry for an existing directory leaves its contents alone |
| RootFilesystem.DirectoryReplaces | cmd/macker/oci.go:1106-1110 | a directory entry takes the place of a file or symlink |
| RootFilesystem.ReplayStops | cmd/macker/oci.go:899-986 | the first failing entry ends the replay, and later entries change nothing |
| Modes.DeferredModes | cmd/macker/oci.go:988-1003 | for every order with deeper paths first and whatever chmods through symlinks do: led through a symlink if and only if the first trouble met is one; otherwise failing if and only if some path is obstructed; neither if and only if nothing is in the way, and then all orders leave the same tree |
| Modes.ChmodAllOnlyModes | cmd/macker/oci.go:1000 | whatever happens, the phase changes nothing but modes |
| Modes.ReplacedDirectoryLeadsOut | cmd/macker/oci.go:938-1000 | a directory replaced by a symlink: the stream goes through, and its mode is set through the symlink, with whatever outcome that has |
| Modes.FileTakesDirectoryMode | cmd/macker/oci.go:938-1000 | a directory replaced by a file: nothing fails, and the file gets the directory's mode |
| Modes.ShallowFirstCanFail | cmd/macker/oci.go:994 | the depth order is needed: visiting a parent first can lock its children out |
| Modes.ReplayKeepsSearchable | cmd/macker/oci.go:988-990 | while a layer is replayed every directory stays searchable, because modes are deferred |
| RoundTrip.MakeLayer | cmd/macker/oci.go:683-742 | fails if and only if the tree holds a special file; otherwise one entry per node, parents before children |
| RoundTrip.PackedTreeUnpacks | cmd/macker/oci.go:896-1005 | with ordinary names, build then unpack restores the tree and its permission bits, the root's own mode apart, for every order with parents first, and sets no mode through a symlink |
| RoundTrip.PermissionOnlyTreesComeBack | cmd/macker/oci.go:955 | with permission-only modes the restored tree is the very tree packed |
| RoundTrip.ReplayRebuilds | cmd/macker/oci.go:899-986 | replaying any beginning of a walk rebuilds exactly what has been made and not removed since, or fails, exactly when some entry does not land |
| RoundTrip.RoundTripsExactly | cmd/macker/oci.go:914-919 | for every tree and order the round trip succeeds if and only if names are readable, entries land, everything stands in the end, and directories with whiteout names have the mode they are made with |
| RoundTrip.HiddenNeedsDirectory | cmd/macker/oci.go:1117 | a directory with a whiteout name comes back only if it holds a directory |
| HiddenNames.RoundTripsExactlyOrdinaryTrees | cmd/macker/oci.go:914 | without whiteout-named directories a tree comes back if and only if no name begins with ".wh." or holds a backslash |
| HiddenNames.WhatComesBack | cmd/macker/oci.go:914-919 | what success forces: plain names, no whiteout-named file or symlink, and each whiteout-named directory with permissions 0755 and a directory in it |
| HiddenNames.WhiteoutNamedDirectoryIsLost | cmd/macker/oci.go:914-919 | an empty directory named ".wh." plus a sibling's name is lost together with that sibling, and nothing is reported |
| HiddenNames.WhiteoutNamedDirectoryCanComeBack | cmd/macker/oci.go:914-919 | such a directory with a directory in it, and no sibling of the name, comes back |
| Changeset.ReplayIsPointwise | cmd/macker/oci.go:899-986 | for every stream that goes through, hard links included, each path holds what the last entries touching it left there, and the recorded mode likewise |
| Changeset.ReplayIsOverlay | cmd/macker/oci.go:907-985 | for whiteouts before additions, the replayed tree is the overlay: added entry, else hidden under a replacing non-directory, else removed, else the lower tree |
| Changeset.LayerIsMerge | cmd/macker/oci.go:896-1047 | an applied layer succeeds exactly when its stream does, sets no mode through a symlink, and leaves at every path the merge with the layer's modes |
| Changeset.LayerGoesThrough | cmd/macker/oci.go:925-931 | a layer goes through if and only if each entry finds clear parents in the overlay of what precedes it |
| Changeset.StreamSetsItsModes | cmd/macker/oci.go:936-1000 | in terms of the entries of any stream: modes are set where recorded if and only if the last entries leave no symlink at or above a recorded path and no other non-directory above one; failing and being led through a symlink are told apart |
| Changeset.StreamLeavesItsFiles | cmd/macker/oci.go:938-1000 | when the mode phase goes well, every file is as the last entries left it, mode included, if and only if each file left at a path named as a directory has the mode last named for that directory |
| Images.LayerLeavesSearchable | cmd/macker/oci.go:852-857 | a layer leaves the next one searchable directories if and only if the modes it names for directories are |
| Images.ImageIsMerged | cmd/macker/oci.go:848-867 | as long as the layers before leave directories searchable, each layer fails exactly when its entries do not land and otherwise leaves its merge with what the layers before have left |
| Tokens.FindAllOrdered | cmd/macker/config_template.go:13 | the matches are disjoint tokens from left to right |
| Substitutions.TokensAreSpelled | cmd/macker/config_template.go:13 | a token stands exactly where "____MACKER_", one or more of letters, digits and underscores, and "____" stand |
| Tokens.AfterMatch | cmd/macker/config_template.go:13 | the greedy class takes the whole word-run's last bar: no token starts in what remains of the run |
| Tokens.MatchesLieInDifferentRuns | cmd/macker/config_template.go:13 | at most one match in a maximal run of word characters |
| Tokens.ReplaceTokens | cmd/macker/config_template.go:77-98 | the loop writes gaps and values as the specification interleaves them, and fails if and only if some matched key has no value |
| Substitutions.SubstitutingItselfChangesNothing | cmd/macker/config_template.go:85-97 | the text around the tokens is kept to the last character: with every name standing for its own token the text comes back |
| Substitutions.TokenFreeTextIsLeftAlone | cmd/macker/config_template.go:78-81 | a text without a token is reported unchanged |
| Substitutions.SubstitutionStepByStep | cmd/macker/config_template.go:86-96 | what precedes the first match stays, its name becomes its value or is the one reported missing, and the rest is substituted as a text of its own |
| Tokens.SubstitutionIsOnePass | cmd/macker/oci.go:345-349 | when no substituted value holds "_" the output holds no token, so a second pass with any values changes nothing |
| Tokens.WholeTokenBecomesItsValue | cmd/macker/config_template.go:86-95 | a text that is one token becomes its value, so a value that is a token is found again: the proviso on "_" is needed |
| Environment.IndexEntries | cmd/macker/oci.go:1241-1246 | the index map holds the last binding of every bound name |
| Environment.MergeEnvironment | cmd/macker/oci.go:1239-1260 | the loop with its index map computes the merge of the specification |
| Environment.PutIndexed | cmd/macker/oci.go:1247-1258 | one override replaces the last binding in place or is appended, and the index stays right |
| Environment.MergeOverrides | cmd/macker/oci.go:1239-1260 | under last-wins lookup merging is map override, for every name, duplicate base names included |
| Environment.MergeTwice | cmd/macker/oci.go:1239-1260 | merge(merge(b, x), y) is merge(b, x ++ y), entry for entry |
| Environment.MergeIsInPlace | cmd/macker/oci.go:1247-1258 | entry by entry: the base keeps its length and order with the last binding of each overridden name replaced, and the new names follow in order of first occurrence, each once with its last override |
| Environment.MackerEnvironmentValues | cmd/macker/config_template.go:100-109 | the map holds exactly the names with the MACKER_ prefix, each with its last value |
| Environment.LookupPrinted | cmd/macker/network.go:245-259 | last-wins lookup in the printed --env arguments gives back the network values |
| Environment.NetworkArgsSpelled | cmd/macker/network.go:231-259 | the added variables, in order: interface, address, host interface, host address, and under the number of each mapping its node port |
| Environment.NetworkValuesAreClean | cmd/macker/network.go:231-243 | network values are free of "_" when interface names and addresses are, so substituting them is final |
| Environment.RuntimeEnvironment | cmd/macker/main.go:1172-1181 | the loops of run compute the user's variables, last one winning, with the network's over them |
| Environment.RuntimeExactly | cmd/macker/main.go:1172-1181 | the first pass knows the network's names with its values, and of the run's own variables those with a name that the network does not define, each with its last value |
| Environment.PassesAgree | cmd/macker/main.go:1234-1237 | on every MACKER_ name the first substitution pass knows, the workload's own pass reads the same value, over any image environment |
| ImageRefs.ParsedIsPrintable | cmd/macker/main.go:2307-2350 | an accepted reference has a valid tag, a registry without a slash, a repository that is not empty and has no double slash, neither of them with an "@", and prints as registry/repository:tag |
| ImageRefs.PrintedParses | cmd/macker/main.go:2307-2350 | every printable reference parses back to itself |
| ImageRefs.NormalizedParsesBack | cmd/macker/main.go:1382-1393 | the normalised form of any accepted input parses to the very same reference |
| ImageRefs.NormalizedIsAKey | cmd/macker/main.go:2584-2591 | references that print alike are alike, so layout directory and scratch decision follow from the recorded name |
| ImageNames.TrimmedExactly | cmd/macker/main.go:2308 | white space is taken off both ends, all of it and nothing else |
| ImageNames.RefusedAtOnce | cmd/macker/main.go:2308-2314 | blank texts, and texts with "://" or "@" in them, are refused, each with its own error; all others go on trimmed |
| ImageNames.NameExactly | cmd/macker/main.go:2316-2350 | for slash-separated parts with or without a tag: latest without one, docker.io unless the first of several parts holds a dot or colon or is localhost, library/ before a single part there; refused are an empty name or tag, an empty path, an empty part inside it and what is no tag |
| ImageNames.EveryNameIsWritten | cmd/macker/main.go:2316-2322 | every text is written as such parts and tag |
| Ports.ScanVisitsEachPortOnce | cmd/macker/ports.go:43-44 | from any start the probe visits each port of 30000..32767 exactly once, within its integer widths |
| Ports.ScanGoesRound | cmd/macker/ports.go:42-44 | the probe begins at 30000 plus the random start modulo 2768, goes up by one and from 32767 on to 30000 |
| Ports.UsesNodePort | cmd/macker/ports.go:60-67 | true if and only if an earlier mapping has the port and protocol |
| Ports.AllocateNodePort | cmd/macker/ports.go:34-58 | gives the first candidate of the scan that is not taken, and is exhausted if and only if none is left |
| Ports.ResolveNodePorts | cmd/macker/ports.go:20-32 | explicit ports stay, automatic ones are free and differ from every earlier port of their protocol; a failure stops at one mapping with the rest untouched |
| Bundles.FlattenDescriptors | cmd/macker/main.go:754-794 | the recursive loop computes the leaf sequence, or the error of the first unreadable entry |
| Platforms.LabelledIsALeaf | cmd/macker/main.go:757-763 | a descriptor with a platform is its own leaf, whatever is or is not in the store |
| Platforms.UnlabelledTakesItsConfig | cmd/macker/main.go:817-842 | one without takes os and architecture from its config, in that order and without a variant, and stays as it is when one is empty or there is no config |
| Platforms.UnreadableIsAnError | cmd/macker/main.go:817-837 | a blob or config that is missing or not JSON is an error of its own kind |
| Platforms.IndexIsItsEntries | cmd/macker/main.go:768-783 | a descriptor that is an index, by its media type or its entries, stands for what these flatten to |
| Bundles.FlattenGivesLeaves | cmd/macker/main.go:754-794 | everything flattening returns is a leaf with its platform resolved |
| Bundles.FlattenIsIdempotent | cmd/macker/main.go:754-794 | flattening the leaves again returns them |
| Bundles.IndexStandsForItsEntries | cmd/macker/main.go:768-783 | an index entry may be replaced by its own entries in place: order is left to right |
| Bundles.WrapKeepsLeaves | cmd/macker/main.go:691-752 | flattening the push wrapper gives what flattening the layout gives, errors included, and the wrapper has at most one entry |
| Merging.IsPresent | cmd/macker/main.go:862-869 | true if and only if some entry has the candidate's digest |
| Merging.AppendForeign | cmd/macker/main.go:631-647 | the first loop keeps the source's non-native leaves in order, each digest once |
| Merging.AppendNew | cmd/macker/main.go:648-652 | the second loop appends the supplied descriptors whose digests are new |
| Merging.RetagEntries | cmd/macker/main.go:657-667 | exactly entry 0 carries the tag afterwards and nothing else changes |
| Merging.MergeBundleIndices | cmd/macker/main.go:608-669 | the whole merge computes the specified index or error |
| Merging.AddNewAppends | cmd/macker/main.go:644-651 | what is appended is in order, distinct by digest, and leaves no digest out |
| Merging.MergedIndexShape | cmd/macker/main.go:608-669 | a merged index has distinct digests, first every non-native leaf in order, then supplied Darwin descriptors, and one ref.name, on entry 0 |
| Merging.MergeFailsExactly | cmd/macker/main.go:608-656 | merging fails if and only if the schema is neither 2 nor unset, the source is empty or does not flatten, or nothing is left for the index |
| Platforms.CollectedExactly | cmd/macker/main.go:796-808 | an unlabelled image of the supplied layout is taken if and only if its config says darwin and the host's architecture |
| Platforms.DroppedExactly | cmd/macker/main.go:631-647 | an unlabelled image of the source, its digest its own, is dropped if and only if its config says so, and otherwise kept with the platform its config gives |
| Platforms.BundleFailsExactly | cmd/macker/main.go:566-606 | bundling fails where the supplied layout does not flatten, has nothing for the host, or the merge fails; otherwise all blobs of both are there |
| BundleLaws.RebundlingIsIdempotent | cmd/macker/main.go:566-606 | bundling into the bundle again changes nothing if and only if some supplied digest was new; otherwise it is refused |
| BundleLaws.SelectManifest | cmd/macker/oci.go:790-814 | the scan picks the last native entry, else the last with the tag, else the first if no tag is asked for, else none |
| BundleLaws.SelectionExactly | cmd/macker/oci.go:786-814 | the last entry for darwin and the host's architecture; without one the last with the tag, without that not found, and the first if no tag is asked for |
| BundleLaws.BundleThenLoad | cmd/macker/oci.go:802-814 | for every tag asked for, the entry read from a bundle is a supplied Darwin descriptor if and only if some supplied digest was new |
| BundleLaws.BundleKeepsClosed | cmd/macker/main.go:586-591 | bundling two layouts that hold every blob they refer to gives one that does |
| BundleLaws.WrapKeepsClosed | cmd/macker/main.go:706-727 | so does wrapping for a push |
| Network.SlotsAreDistinct | cmd/macker/network.go:61-77 | slots are told apart by name and by address, and none is the host bridge |
| Network.SlotsAreNumbered | cmd/macker/network.go:16-24 | the host bridge is bridge88 at 172.31.88.1, slot i bridge88 followed by the numeral of i at 172.31.(88+i).1, up to the octet 255 |
| Network.ScanSlots | cmd/macker/network.go:61-75 | the scan finds the lowest index neither reserved nor existing, and gives up only when all 167 are |
| Ledger.CleanupReleases | cmd/macker/network.go:261-279 | a metadata field is cleared only when what it names is gone from the host, and success means all are cleared |
| Successes.CleanupSucceedsExactly | cmd/macker/network.go:204-279 | a cleanup succeeds if and only if everything the record names can be given back, a host interface others refer to being spared; then exactly that is gone from the host, and of the record exactly the halves that were given back are cleared |
| Ledger.StopIsTidy | cmd/macker/main.go:1736-1849 | stop, whatever fails, clears or removes metadata only for resources that are gone, and after a successful stop none are named |
| Ledger.RmIsTidy | cmd/macker/main.go:1980-2040 | the same for rm, forced or not |
| Ledger.PsIsTidy | cmd/macker/main.go:2042-2130 | the same for ps over any list of containers, cut short by any failure |
| Ledger.FinishIsTidy | cmd/macker/main.go:1295-1322 | the same for the end of a foreground run |
| Ledger.PauseIsTidy | cmd/macker/main.go:1851-1908 | pause leaves the host as it is, and every record naming exactly the anchor, token, network and ports it named |
| LedgerRuns.SetupShape | cmd/macker/network.go:38-92 | a network that is set up is the lowest free slot, new on the host; one that fails to be set up leaves the interfaces as they were |
| LedgerRuns.RunKeepsLedger | cmd/macker/main.go:1130-1293 | run, completed or rolled back at any point, leaves every resource named and every record sound |
| LedgerRuns.StepKeepsLedger | cmd/macker/network.go:261-279 | every command and every event keeps the ledger, whatever interfaces others make or destroy |
| LedgerRuns.NothingLeaks | cmd/macker/main.go:1814-1848 | in every run with arbitrary failures each loaded anchor, held token and interface made for a container is named by metadata on disk |
| LedgerRuns.RemovedOnlyWhenReleased | cmd/macker/main.go:2026-2037 | a container's directory goes only when its own anchor, token and interface are gone |
| LedgerRuns.OwnedSlotsAreDistinct | cmd/macker/network.go:53-91 | in every reachable world owned interfaces and their addresses are pairwise distinct slots |
| LedgerRuns.CleanupHitsOnlyItsOwn | cmd/macker/network.go:204-222 | no cleanup, first or retried, destroys an interface another container's record calls its own |
| LedgerRuns.SlotChoice | cmd/macker/network.go:57-91 | with its calls succeeding, set-up fails if and only if all 167 slots are reserved or exist, and otherwise takes the lowest free one |
| Runs.SetupSucceedsExactly | cmd/macker/network.go:38-92 | a network is set up if and only if the bridge is there with its address or can be made, and one of the 167 slots is the first free one with no failing look before it; what is then on the host and on record, address by address |
| Runs.ConflictExactly | cmd/macker/main.go:3090-3130 | a request is refused if and only if some packet would be taken by one of its rules and by one that another container's record stands for |
| Runs.RunSucceedsExactly | cmd/macker/main.go:1085-1293 | run succeeds if and only if nothing clashes, the network can be had and every later call goes well; and the whole record, processes and interfaces it then leaves |
| Cleanings.StopCleans | cmd/macker/main.go:1760-1832 | whether stop comes to clean up, by which metadata, and when the record lands: host and network entry afterwards are those of that cleanup |
| Cleanings.RmCleans | cmd/macker/main.go:2007-2037 | the same for rm, forced or not |
| Cleanings.PsOneCleans | cmd/macker/main.go:2078-2113 | the same for one container in ps |
| Cleanings.FinishCleans | cmd/macker/main.go:1304-1322 | the same for the end of a foreground run |
| HostBridge.CleanupBridgeEffect | cmd/macker/network.go:204-222 | a cleanup touches the bridge only by its own claim and when no other record refers to it, and gives the claim up only then |
| HostBridge.BridgeIsRecognised | cmd/macker/network.go:156-177 | the ownership scan of the metadata answers what is true of the bridge itself |
| HostBridge.StepKeepsBridge | cmd/macker/network.go:347-407 | every event in which others respect the bridge and its name keeps the invariant that ties claims on disk to the bridge |
| HostBridge.BridgeLifetime | cmd/macker/network.go:156-222 | in every run in which others respect the bridge, whatever calls fail: a container in use has its bridge, all references agree on who made it, and Macker's bridge is gone when the last reference is |
| BridgeReferences.StopKeepsReferredExactly | cmd/macker/main.go:1804-1832 | stop leaves every record that refers to the bridge with a bridge if and only if the bridge stays, or the container's interface goes and the record lands |
| BridgeReferences.RmKeepsReferredExactly | cmd/macker/main.go:2011-2037 | the same for rm, whose record lands by being removed |
| BridgeReferences.PsKeepsReferredExactly | cmd/macker/main.go:2087-2112 | the same for the whole loop of ps |
| BridgeReferences.FinishKeepsReferredExactly | cmd/macker/main.go:1313-1314 | the same for the end of a foreground run, whose record is written even when the cleanup failed |
| BridgeReferences.RunKeepsReferred | cmd/macker/network.go:38-123 | run, completed or rolled back, takes the bridge from nobody |
| BridgeReferences.ReferencesAreAlwaysThere | cmd/macker/network.go:204-279 | every reference on disk has its bridge after every event of a run if and only if every event meets its condition |
| BridgeReferences.BridgeCanGoFirst | cmd/macker/network.go:206-219 | a run in which a record still claims the bridge after it was destroyed, for the container's interface could not be |
| BridgeReferences.BridgeCanGoUnwritten | cmd/macker/main.go:2091-2101 | another, in which all was cleaned up and only the write failed |
| BridgeClaims.CleaningKeepsClaimExactly | cmd/macker/network.go:204-222 | a cleaning leaves Macker's bridge claimed by some record if and only if it does not give up the only claim while others refer to the bridge without claiming it |
| BridgeClaims.StopKeepsClaimExactly | cmd/macker/main.go:1804-1832 | the same for stop, over the records it actually leaves |
| BridgeClaims.RmKeepsClaimExactly | cmd/macker/main.go:2011-2037 | the same for rm |
| BridgeClaims.PsKeepsClaimExactly | cmd/macker/main.go:2087-2112 | the same for the whole loop of ps, wherever it fails |
| BridgeClaims.FinishKeepsClaimExactly | cmd/macker/main.go:1313-1314 | the same for the end of a foreground run |
| BridgeClaims.RunKeepsClaimExactly | cmd/macker/main.go:1146-1157 | run leaves the bridge claimed if and only if it does not raise it, fail, and leave it to others who refer to it without claiming it |
| BridgeClaims.BridgeIsAlwaysClaimed | cmd/macker/network.go:204-279 | Macker's bridge is claimed at every point of a run if and only if every event meets its condition |
| BridgeClaims.StrandedForGood | cmd/macker/network.go:212 | a bridge nobody claims is never destroyed by Macker again, whatever is run or cleaned up |
| BridgeClaims.LodgerStrandsBridge | cmd/macker/network.go:101-123 | an external container on the bridge, and a stop of the one that claims it: the bridge stands unclaimed |
| BridgeInUse.EngagedAlwaysHaveBridge | cmd/macker/network.go:204-222 | in every run in which nobody else destroys a bridge that is referred to, external containers on it included, a container in use has its bridge |
| ForeignInterfaces.SetupOwns | cmd/macker/network.go:156-177 | a new record calls Macker's own only what Macker made, now or before |
| ForeignInterfaces.CleanupDestroysExactly | cmd/macker/network.go:190-222 | a cleanup destroys an interface if and only if its metadata calls it Macker's own, the calls succeed and, for a host interface, no other record refers to it; all others stay as they are |
| ForeignInterfaces.StopDestroysExactly | cmd/macker/main.go:1736-1849 | stop destroys exactly what its cleanup does, if it comes to one |
| ForeignInterfaces.RmDestroysExactly | cmd/macker/main.go:1980-2040 | the same for rm |
| ForeignInterfaces.PsDestroysExactly | cmd/macker/main.go:2057-2130 | the same for the whole loop of ps |
| ForeignInterfaces.RunDestroysNothingOld | cmd/macker/main.go:1146-1157 | run, rolled back at any point, destroys nothing that was there before it |
| ForeignInterfaces.StepDestroysExactly | cmd/macker/network.go:190-222 | exactly which interfaces an event destroys, whoever made them |
| ForeignInterfaces.StepDestroysOwn | cmd/macker/network.go:204-222 | nothing is destroyed that no record calls Macker's own |
| ForeignInterfaces.ForeignInterfacesStay | cmd/macker/network.go:190-222 | in every run in which nobody takes a name that a record claims, no command destroys or changes an interface Macker did not make, the bridge included |
| ForeignInterfaces.SquatterIsDestroyed | cmd/macker/network.go:190-222 | a run in which somebody does, and rm destroys that interface |
| Redirects.OverlapMeaning | cmd/macker/main.go:3293-3304 | two rules overlap if and only if some packet matches both |
| Redirects.AcceptedRulesAreApart | cmd/macker/main.go:3090-3130 | a request that passes the conflict check gets rules apart from all that are loaded |
| Redirects.StepKeepsRules | cmd/macker/main.go:1085-1113 | every event keeps loaded rules apart and true to the metadata |
| Redirects.RedirectIsUnambiguous | cmd/macker/main.go:3090-3130 | in every reachable world a packet matches at most one rule over all containers, half-cleaned ones included, and its container is on record |
| Redirects.LoadedRulesAreTheContainers | cmd/macker/main.go:3293-3304 | a loaded rule redirects one published port to its node port, in external mode only for the container's own address |
| LoadedRedirects.RunLoadsRedirects | cmd/macker/main.go:1186-1196 | after a run that succeeds every packet to a published port is led to the recorded address and the node port, and anchor and token are loaded and on record |
| LoadedRedirects.RunLoadsNothingElse | cmd/macker/main.go:1186-1196 | it leaves all other anchors and tokens alone, and all of them without published ports |
| LoadedRedirects.AnchorStaysExactly | cmd/macker/main.go:3266-3279 | a loaded anchor stays loaded with its rules in every event but a cleanup by a record that names it and whose flush succeeds |
| LoadedRedirects.TokenStaysExactly | cmd/macker/main.go:3266-3279 | likewise a held token |
| LoadedRedirects.RedirectsStayLoaded | cmd/macker/main.go:1186-1196 | over whole runs: from its run on, a published port leads to the address and node port given, until a cleanup by its record has flushed the anchor |
| Suspension.PausingChangesOnlyStatus | cmd/macker/main.go:1893-1907 | pause and unpause, failed or not, change nothing but the container's status and its processes |
| Successes.PauseSucceedsExactly | cmd/macker/main.go:1851-1908 | pause succeeds if and only if the container is detached, alive, identified and not paused, everything that lives can be signalled and the record written; then all of it is suspended and recorded |
| Successes.UnpauseSucceedsExactly | cmd/macker/main.go:1910-1963 | likewise unpause of a paused container; then workload and exec children all run and the record no longer says paused |
| Successes.PauseFailsExactly | cmd/macker/main.go:1872-1905 | a pause that fails leaves the record but for a refresh and, if signals had been sent, everything running |
| Successes.UnpauseFailsExactly | cmd/macker/main.go:1931-1960 | an unpause that fails likewise, everything suspended |
| Suspension.PauseOutcome | cmd/macker/main.go:1893-1905 | success suspends the workload and records it; failure leaves it running and unrecorded |
| Suspension.UnpauseOutcome | cmd/macker/main.go:1949-1960 | success resumes the workload and records it; failure leaves it suspended and recorded |
| Suspension.StopKeeps | cmd/macker/main.go:1769-1774 | stop forgets no suspension: it succeeds only with the workload resumed or dead |
| Suspension.SuspensionIsRecorded | cmd/macker/main.go:1851-1963 | in every run without rm and ps, with any failures and killings, every suspended workload is recorded as paused |
| Suspension.SuspensionIsAttended | cmd/macker/main.go:2011-2037 | in every run in which no launcher is killed alone, rm and ps included, likewise |
| Suspension.RmOrphansExactly | cmd/macker/main.go:2011-2037 | an rm, failing or not, leaves a suspended workload without a record if and only if it goes through, the workload was suspended, and its container passed for neither running nor paused |
| Suspension.PsOrphansExactly | cmd/macker/main.go:2082-2112 | a turn of ps, failing or not, leaves a suspended workload without a record if and only if it goes through, the workload was suspended, its container passed for neither running nor paused, and automatic removal was asked for |
| Suspension.PsListOrphansExactly | cmd/macker/main.go:2062-2112 | over the whole loop, wherever it fails: a suspended workload's record goes if and only if the loop deals with it, its container passed for neither running nor paused, and automatic removal was asked for |
| Suspension.PsCanOrphan | cmd/macker/main.go:2104-2108 | run with automatic removal, pause, kill the launcher, ps: the workload stays suspended without a record |
| Suspension.RmCanOrphan | cmd/macker/main.go:2011-2037 | run, pause, kill the launcher, rm: the workload stays suspended without a record |
| Outcomes.StopOutcome | cmd/macker/main.go:1786-1849 | a stop that succeeds has ended the launcher and leaves a stopped record naming no resource, or none if it was to be removed |
| Successes.StopSucceedsExactly | cmd/macker/main.go:1736-1849 | stop succeeds if and only if the launcher is the recorded one, a paused workload can be resumed, exec children and launcher end, all resources are given back and the record is written and, if asked for, removed; and host, record and processes it then leaves |
| Successes.StopRecordsExactly | cmd/macker/main.go:1786-1849 | whether it succeeds or not, the records stay as they are until all has been given back, and then the container's is settled or gone |
| Outcomes.RmOutcome | cmd/macker/main.go:2011-2040 | an rm that succeeds has removed the record, and that of a live container only when forced |
| Successes.RmSucceedsExactly | cmd/macker/main.go:1980-2040 | rm succeeds if and only if a container that is neither running nor paused can be cleaned and removed, or a live one is forced, stopped and removed; then its record and resources are gone and nothing else |
| Successes.RmFailsExactly | cmd/macker/main.go:2011-2040 | an rm that fails leaves the records as the stop it made has left them, and otherwise as they were |
| Outcomes.PsOutcome | cmd/macker/main.go:2057-2120 | a ps that succeeds leaves of every container it went through a live one, one without resources, or nothing |
| Successes.PsOneSucceedsExactly | cmd/macker/main.go:2062-2112 | a turn of ps leaves a live container exactly as it is, and of any other ends the exec children, gives back everything, writes what changed and removes if asked; it succeeds if and only if all of that does |
| Successes.PsInTurn | cmd/macker/main.go:2057-2120 | the loop takes the containers in turn, each as the ones before left the world, up to the first failure |
| Successes.ExecsInTheWay | cmd/macker/main.go:2016-2018 | where exec children cannot all be ended, rm and ps fail before anything else is touched |
| Outcomes.FinishOutcome | cmd/macker/main.go:1304-1322 | a foreground run that ends well leaves a stopped record naming no resource, or none |
| Successes.FinishSucceedsExactly | cmd/macker/main.go:1295-1322 | a foreground run ends well if and only if its resources are given back and its record is written and, if asked for, removed; the record says stopped even when resources could not be given back, and then names those |
| Outcomes.FailedRunLeavesNothing | cmd/macker/main.go:1146-1157 | a run that fails at any point, whoever is on the bridge, leaves records, processes, anchors, tokens and interfaces exactly as they were, but for a bridge other records wait for |
| Outcomes.RunThenStopRestores | cmd/macker/main.go:1130-1849 | run then stop, all going well, restores the host exactly, and rm the records too, when the bridge existed or nobody else refers to it |
| Machines.SignalTargets | cmd/macker/main.go:2978-2998 | every live target is tried, a failure does not spare the rest, and success means none that lives was missed |
| Machines.SignalProcessGroups | cmd/macker/main.go:3000-3015 | the workload and its exec children are signalled once the workload can be named |
| Machines.InterfacesInUse | cmd/macker/network.go:315-345 | the scan collects exactly the interface names on record |
| Machines.HostBridgeOwned | cmd/macker/network.go:347-376 | true if and only if some record claims the bridge |
| Machines.HostBridgeInUse | cmd/macker/network.go:378-407 | true if and only if another container's record refers to the interface |
| Machines.Duplicated | cmd/macker/main.go:1085-1096 | true if and only if two published ports share host port and protocol |
| Machines.PortConflict | cmd/macker/main.go:3090-3130 | true if and only if another container with an anchor, not elsewhere by address, shares a requested port |
| Ledger.OwnRecordIsPassedOver | cmd/macker/network.go:391-392 | what a container's own record says does not change its network's cleanup |
| Machines.Machine.CleanupPFMappings | cmd/macker/main.go:3266-3279 | anchor and token are each tried, and the outcome tells whether both went |
| Machines.Machine.DestroyInterface | cmd/macker/network.go:190-202 | an interface already gone is a success |
| Machines.Machine.CleanupMackerNetwork | cmd/macker/network.go:204-222 | destroys the interface, then the bridge if nobody else refers to it, whatever the first did |
| Machines.Machine.CleanupContainerResources | cmd/macker/network.go:261-279 | host and metadata afterwards are those of the specified cleanup |
| Machines.Machine.SetupMackerNetwork | cmd/macker/network.go:38-92 | the loop with its undoing of a new bridge computes the specified set-up |
| Machines.Machine.SetupExternalNetwork | cmd/macker/network.go:101-123 | creates nothing and accepts what the specification accepts |
| Machines.Machine.CommandPause | cmd/macker/main.go:1851-1908 | new state and result are those of the specified pause |
| Machines.Machine.CommandUnpause | cmd/macker/main.go:1910-1963 | likewise for unpause |
| Machines.Machine.CommandStop | cmd/macker/main.go:1736-1849 | likewise for stop |
| Machines.Machine.CommandRM | cmd/macker/main.go:1980-2040 | likewise for rm |
| Machines.Machine.CommandPS | cmd/macker/main.go:2057-2130 | likewise for ps, up to the first container that cannot be dealt with |
| Machines.Machine.CommandRun | cmd/macker/main.go:1085-1293 | likewise for run, up to the start of the workload |
| Machines.Machine.CommandRunPublishing | cmd/macker/main.go:1085-1113 | run from its published ports on: they are resolved in place, a failure there changes nothing, and what runs publishes exactly the resolved ports |
| Machines.Machine.Rollback | cmd/macker/main.go:1146-1157 | takes down PF and network and removes the directory, nothing else |
| Machines.Machine.FinishRun | cmd/macker/main.go:1295-1322 | likewise for the end of a foreground run |

## Left out

- Skopeo, pfctl, ifconfig, sudo, ps-output parsing, terminals, sockets, flag parsing, logs, printing and clocks: a
  privileged or fallible call is a boolean outcome, a time is set or unset.
- SHA-256, JSON, gzip and tar encodings: digests are taken to be injective and encodings lossless, and a layer starts
  from decoded entries. `AnchorFor` stands for the hashed anchor name.
- Concurrent commands and crashes in the middle of one; the lock and the index of `state.json` (the container
  directories are read directly, and `ps` takes its names in any order).
- Rollback calls of `run` are taken to succeed, rollback signals of pause and unpause to arrive, a failed write to leave the old record, and the token that
  enabling PF gives to be parseable and one that nobody holds and no record names: `Lifecycle.Step` passes over a run with another.
- Machines.Machine.FinishRun: the workload's end and what follows in the foreground are one step, so a `ps` between the exit record and the final
  cleanup is not modelled.
- HostBridge.BridgeLifetime: demands of the events that no external container names bridge88 as its host interface (`BridgeClaims.LodgerStrandsBridge` shows what
  happens otherwise), that nobody takes a name a record claims (`ForeignInterfaces.SquatterIsDestroyed`), and that nobody else destroys the bridge while a record
  refers to it (`BridgeReferences.ReferencesAreAlwaysThere` counts that among its conditions); the interfaces themselves come and go freely in the model.
- ForeignInterfaces.ForeignInterfacesStay: demands of the events that nobody takes a name a record claims; without that it is false, as the lemma beside it shows.
- Suspension.SuspensionIsRecorded: speaks of workloads, not of exec children, which a refreshed exit record may leave stopped until they are ended.
- RootFilesystem.RootFS.ReplaceWithLink: a hard link copies its source's content and mode; shared inodes and a link to a symlink are not modelled.
- Modes.DeferredModes: where a chmod is led through a symlink its effect is any change of modes in the tree and any outcome, since the target may lie outside;
  symlink targets are not resolved.
- RootFilesystem.RootFS.ApplyTarLayer: permissions count only as search permission in the mode phase, and new directories get 0755 whatever the umask.
- Images.ImageIsMerged: assumes searchable directories under each layer, because permission errors while replaying are not modelled.
- RoundTrip.MakeLayer: the order of the walk is any order with parents first, of which the lexical order is one.
- Changeset.LayerIsMerge: whiteouts come before additions, paths are distinct and hard links absent; all other streams are covered by
  `Changeset.ReplayIsPointwise`, `Changeset.StreamSetsItsModes` and `Changeset.StreamLeavesItsFiles`.
- Tokens.ReplaceTokens: the regular-expression engine is modelled as leftmost and greedy over its character class, not as an automaton; which files are
  substituted is not modelled.
- Ports.ResolveNodePorts: says nothing about an explicit port that follows an automatic one, which the source does not reserve.
- Machines.Machine.SetupExternalNetwork: the syntax of interface names and addresses is not checked, only their existence.
- Process identity by start time is a boolean, so reused process ids appear only as its failure.
- `exec`, `logs`, `inspect`, `images`, `rmi`, Mackerfile parsing, COPY, volumes, chroot mode, image command lookup, `environmentValue`, and the copying and
  validation of blob files, which would add little beside what is here.
