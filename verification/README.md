# shuttle-gate: protocols, locks and rules, verified

A Dafny model of the parts of shuttle-gate whose correctness is about every run
and every input rather than one call:

- **The generation store** (`StateDisk`, `StateProtocol`, `StateInvariant`,
  `StateTheorems`, `StateAnswer`, `StateDurability`, `StatePowerLoss`, `StateRuns`,
  `StateAbandoned`, `StateWitness`, `StateStore`). `mutate_state` is a machine whose transitions
  are its filesystem operations, run by any number of processes beside readers,
  with a kill or an exception after any operation. `StateStore` is the same call
  as imperative code on a disk updated in place; its ghost log is proved to be a
  run of the machine, so each theorem about runs covers it. A disk also says what is
  not durable: which names and links may come or go, which files may come back with
  any content, and where `current` may lead. Power loss is a relation to every disk
  that may come back.
- **The SSH key-pair journal** (`SshJournal`, `SshProtocol`, `SshTheorems`,
  `SshKeyStore`). Recovery is a plan computed from the disk alone, which makes
  interrupted recoveries the same thing as uninterrupted ones.
- **Host-socket claims** (`PosixPath`, `ClaimArguments`, `ClaimProtocol`,
  `ClaimRunner`): the printed and parsed argument vector, and N wrappers that
  try-lock sorted claim sets.
- **Route compilation** (`Cidr`, `Nftables`, `TproxyTable`, `GatewayConfig`,
  `CapturePolicy`, `PacketPath`, `CaptureExamples`): rendered rules get a packet
  semantics, the first-match chain is proved equal to a declarative rule, and
  configuration checks are carried through to what is captured or dropped.
- **What rests on these**: key mutations over published histories (`KeyFiles`,
  `PeerKeys`, `PeerTheorems`), the binding of a launch to a generation
  (`LaunchBinding`), and the order of gateway start-up (`GatewayRuntime`).

`Wrappers`, `TextOrder` and `DecimalText` hold shared vocabulary.

Conventions. A digest stands for the content it is computed from, except in
`ClaimArguments`, where the digests of the sockets concerned are assumed not to
collide. Identifiers drawn at random are new. A rendered phone configuration is
some function of configuration and keys. An environment that may fail is a
nondeterministic choice in a method, and an event in a protocol.

## Model

| member | source | states |
|---|---|---|
| StateStore.StateStore.MutateState | src/shuttle_gate/state.py:418-470 | What a call answers is a function of the view it finds: a record of its operation is returned, or refused for its kind, its form or its content; else the mutator runs on everything published before, and its outcome is published exactly when it is wanted and valid, and then is what readers see. It ends otherwise only when the environment has failed an operation, or at a foreign object. It publishes at most once, its operations are a run of the call machine, and after a publication or a replay no legacy data are left |
| StateStore.StateStore.BuildGeneration | src/shuttle_gate/state.py:439-458 | Copy, mutate, stamp, validate, publish: ends with the new generation active and the old ones to be swept, with staging discarded, or with an exception that names the staging directory to remove |
| StateStore.StateStore.CleanGenerations | src/shuttle_gate/state.py:252-264 | Goes through every listed child, stops at the first that is no generation, and leaves every other object, the link and the legacy tree alone |
| StateStore.StateStore.RemoveOwned | src/shuttle_gate/state.py:227-235 | Removes one owned directory entry by entry, or stops part-way; nothing else on disk changes |
| StateStore.StateStore.SwitchPointer | src/shuttle_gate/state.py:400-401 | The rename, its fsync and the verification end with the new generation active, or in an exception |
| StateStore.StateStore.Consult | src/shuttle_gate/state.py:433-438 | The receipt alone decides between building and replaying, and changes nothing on disk |
| StateInvariant.ActKeepsInv | src/shuttle_gate/state.py:385-470 | Every single filesystem operation of a call keeps the invariant of disk, call and published history |
| StateTheorems.PublicationIsAtomic | src/shuttle_gate/state.py:385-402 | In every run, `current` names nothing or a complete generation with its own manifest that is exactly the latest publication, and every publication is the whole validated outcome of one call on the one before |
| StateTheorems.ViewChangesOnlyAtSwitch | src/shuttle_gate/state.py:400-400 | A reader's view changes only at the rename over `current`, and then to the fully mutated, validated and sealed successor of what was visible |
| StateTheorems.ReceiptsOnlyGrow | src/shuttle_gate/state.py:267-281 | A receipt of one publication is in every later one, unchanged |
| StateTheorems.OperationsHappenOnce | src/shuttle_gate/state.py:433-452 | Two publications never carry the same operation ID |
| StateTheorems.PublishedOperationIsNotRerun | src/shuttle_gate/state.py:433-438 | While a published operation is called again, that call never reaches its mutator or a publication |
| StateTheorems.ReusedOperationIsRejected | src/shuttle_gate/state.py:324-346 | A call that uses a published operation ID for another kind: from its start to its end, in every interleaving, nothing is published and readers see what they saw; it never returns, and fails for the reuse, or earlier by an exception or at an object that is foreign or could not be removed |
| StateTheorems.ResultsAreAccountedFor | src/shuttle_gate/state.py:433-470 | In any interleaving, a call that returns has published that outcome and had it accepted again, or found it recorded, readable and valid, or does not want it published, and only then can legacy data be left; and each error it decides on is what the view, or its own publication, deserves |
| StateTheorems.RetryReturnsPublishedValue | src/shuttle_gate/state.py:433-438 | A call that returns for a published operation returns the value the publishing mutator computed |
| StateTheorems.ReaderViewIsStable | src/shuttle_gate/state.py:186-213 | While a view is open, in every interleaving with kills, its generation stays present, unmodified and active; a view of no generation overlooks no legacy data |
| StateTheorems.LocksAreGranted | src/shuttle_gate/state.py:98-119 | The exclusive lock is granted exactly when nobody holds a lock and refused as busy otherwise; the shared one is granted exactly when nobody holds the exclusive one |
| StateTheorems.LocksAreReturned | src/shuttle_gate/state.py:110-121 | A reader that ends, or any process that dies, holds no lock any more and leaves disk, history and other processes as they are |
| StateTheorems.BindingMeans | src/shuttle_gate/state.py:204-213 | A reader is bound to what is active, or refused exactly when there are legacy data only |
| StateTheorems.FinishedCallsEnd | src/shuttle_gate/state.py:98-119 | A call that returned or failed performs no further operation and gives its lock back |
| StateTheorems.WritersExclude | src/shuttle_gate/state.py:98-119 | While one process mutates, no other process reads or writes |
| StateTheorems.ReturnedCallLeavesNoGarbage | src/shuttle_gate/state.py:405-415 | After a normal return without failed removals only the active generation is left, and no temporary link |
| StateTheorems.LeftoversAreOwned | src/shuttle_gate/state.py:238-264 | Whatever killed calls leave, a later call does not fail on an unexpected object, a broken `current` or an unverifiable publication, unless a removal failed |
| StateTheorems.ForeignObjectsUntouched | src/shuttle_gate/state.py:245-262 | Objects outside the owned name patterns are never changed or removed |
| StateTheorems.LegacyIsMigratedWhole | src/shuttle_gate/state.py:284-306 | Until something is published the legacy tree is intact, and the first publication is built from the whole of it |
| StateTheorems.CallsStartFromEverything | src/shuttle_gate/state.py:267-306 | A call starts from every file and receipt of its predecessor, or from all legacy data, and from nothing else |
| StateTheorems.UnaffectedEntriesAreCarried | src/shuttle_gate/state.py:267-281 | Between two publications, every file and receipt that no call in between writes is the same |
| StateTheorems.NothingIsLost | src/shuttle_gate/state.py:267-306 | In every run, readers find each legacy file that no published call wrote, and no file that none of them wrote |
| StatePowerLoss.PowerLossesAreSurvived | src/shuttle_gate/state.py:363-402 | Power lost at any point of any calls, any number of times, unless a call stops between lines 400 and 401: every disk that can come back holds a published generation file for file, manifest and receipts included, or the whole legacy tree, and is again safe to lose |
| StatePowerLoss.RestartIsRecovered | src/shuttle_gate/state.py:388-401 | The disk that comes back satisfies the invariant of the store again, for the publications that survived |
| StatePowerLoss.PublicationSurvivesLosses | src/shuttle_gate/state.py:385-470 | Publication stays atomic and operations stay unique over runs with power losses in them |
| StateDurability.UnsyncedStepsMayBeLost | src/shuttle_gate/state.py:385-402 | Whatever power loss could bring back before an operation, it can bring back after it, unless the operation is an fsync: nothing counts as durable before |
| StateDurability.FsyncsReach | src/shuttle_gate/state.py:388-402 | Each fsync makes exactly its own part durable: the staged files, the names of the generations, or `current`, the links and legacy directories that are gone |
| StateDurability.FilesMayComeBackTorn | src/shuttle_gate/state.py:363-382 | Files changed since their fsync come back with any content, or not at all, each by itself |
| StateDurability.OthersMayComeOrGo | src/shuttle_gate/state.py:396-401 | So do links and legacy files, and `current` with any value it had since its fsync |
| StateAbandoned.AbandonedPointerExactly | src/shuttle_gate/state.py:400-401 | A call that stops between the rename and its fsync leaves a state that is still safe; what follows can destroy what the durable `current` leads to if and only if the call replaced a generation, or migrated legacy data under an operation ID |
| StateAbandoned.HarmlessStopStaysSafe | src/shuttle_gate/state.py:429-438 | After any other such stop every further run, losses of power included, is safe |
| StateWitness.StopThenSweepLosesAGeneration | src/shuttle_gate/state.py:252-264 | It happens, from an empty instance: one call publishes, the next is killed between lines 400 and 401, the sweep of a third destroys the generation the durable `current` leads to |
| StateTheorems.LoggedCallIsARun | src/shuttle_gate/state.py:418-470 | Every prefix of the imperative call's log is a run of the process system that a kill may follow |
| SshKeyStore.SshKeyStore.InstallTransactionFile | src/shuttle_gate/keys.py:655-676 | Installs the new file, or fails with the same error as the recovery plan; what recovery would finally leave does not change |
| SshKeyStore.SshKeyStore.RemoveTransaction | src/shuttle_gate/keys.py:711-720 | Stages, backups and journal are gone, the visible pair and the receipts unchanged |
| SshKeyStore.SshKeyStore.CleanOrphans | src/shuttle_gate/keys.py:816-836 | Exactly the transaction's files are removed |
| SshKeyStore.SshKeyStore.RecoverTransaction | src/shuttle_gate/keys.py:803-813 | Succeeds if and only if the disk is resumable, a condition on files and receipts that can be checked beforehand, and then leaves the recovered disk given in closed form |
| SshKeyStore.SshKeyStore.GenerateSshKey | src/shuttle_gate/keys.py:450-507 | Commits at most one pair, and with a receipt for the operation never: it then returns, or refuses another kind, or a pair that is no longer in force; without one, an existing file is replaced exactly with `force`. However it ends, a complete recovery leaves the pair in force; a normal return has that pair visible, the receipt recorded and nothing left over; a refusal changes nothing |
| SshJournal.RecoverStep | src/shuttle_gate/keys.py:655-720 | Each recovery operation keeps the disk recoverable, to the same result, with less left to do |
| SshJournal.RecoveryNeverStuck | src/shuttle_gate/keys.py:679-720 | On a resumable disk recovery is finished, exactly when the disk is its own recovery result, or has a next operation |
| SshJournal.ResumabilityIsInvariant | src/shuttle_gate/keys.py:655-676 | No recovery operation makes or mends a disk that cannot be resumed |
| SshProtocol.ReachableInv | src/shuttle_gate/keys.py:459-507 | The protocol invariant holds after any generations, kills and recoveries |
| SshTheorems.PairIsWholeWithoutJournal | src/shuttle_gate/keys.py:503-507 | Whenever no journal exists, both visible files belong to the latest committed pair, or both are as at the start |
| SshTheorems.JournalIsTheCommitPoint | src/shuttle_gate/keys.py:496-503 | The pair in force changes only at the journal's publication, and then to the staged files while the visible pair is still the previous one; at every moment a complete recovery would leave the pair in force |
| SshTheorems.RecoveryNeverRefuses | src/shuttle_gate/keys.py:655-701 | From every reachable state recovery hits none of its "cannot resume" errors and always has a next operation until it is done |
| SshTheorems.CompleteRecoveryOutcome | src/shuttle_gate/keys.py:803-813 | A finished recovery leaves the pair in force, every committed operation's receipt, no journal, and no file but the pair and what is unrelated |
| SshTheorems.KeyMaterialIsKept | src/shuttle_gate/keys.py:655-676 | While a journal exists, each new file is at its destination or stage, and each old one at its destination or backup until replaced |
| SshTheorems.NothingIsReplacedWithoutForce | src/shuttle_gate/keys.py:467-468 | In every run, a pair is committed without `force` only where neither file of a pair was in force, and only for an operation without a receipt |
| SshTheorems.PrivateKeyComesLast | src/shuttle_gate/keys.py:679-701 | At every moment of every run, a new private key in place has its public key beside it |
| SshTheorems.UnrelatedFilesStay | src/shuttle_gate/keys.py:816-836 | No operation touches another file of the directory |
| SshTheorems.OperationsCommitOnce | src/shuttle_gate/keys.py:728-766 | One operation ID commits at most one pair over any kills and retries |
| SshTheorems.InterruptedRecoveriesConverge | src/shuttle_gate/keys.py:803-836 | Recoveries killed any number of times reach one result within a fixed total number of operations |
| PosixPath.ParseOfStr | src/shuttle_gate/claim.py:32-32 | Printing a path and parsing the text gives the path back |
| PosixPath.PiecesMean | src/shuttle_gate/claim.py:32-32 | A path has the texts between its slashes for parts, without empty ones and "." |
| TextOrder.LessMeans | src/shuttle_gate/claim.py:36-37 | The order of texts: a proper prefix first, else the first difference decides |
| TextOrder.SortedSetFixesAscending | src/shuttle_gate/claim.py:36-37 | A list equals its own sorted set exactly when it is strictly ascending |
| ClaimArguments.ParseArguments | src/shuttle_gate/claim.py:24-49 | Accepts exactly the printed forms of acceptable claims and commands, and returns what was printed, as well-formed paths; every refusal is the one the checks give in order |
| ClaimArguments.AcceptableMeans | src/shuttle_gate/claim.py:34-49 | Acceptable claims are, in strict order, files of one absolute directory named by a digest, before a command that starts with a slash |
| ClaimArguments.ClaimNameMeans | src/shuttle_gate/claim.py:16-16 | A claim is named by 64 lower-case hexadecimal digits and ".lock" |
| ClaimArguments.ClaimCommand | src/shuttle_gate/host.py:611-620 | Prints the flags, the boundary and the command, and refuses exactly empty claims or an empty command |
| ClaimArguments.ClaimArgumentsRoundTrip | src/shuttle_gate/host.py:611-620 | The wrapper reads back exactly what the launcher printed, whatever words the command contains |
| ClaimArguments.SocketClaimsAreAccepted | src/shuttle_gate/host.py:565-581 | The claims derived from any bind addresses are accepted and come back unchanged |
| ClaimArguments.ClaimsIntersectIffSocketsDo | src/shuttle_gate/host.py:565-581 | Two configurations share a claim exactly when they share an address and the UDP port, if the digests of their sockets do not collide |
| ClaimRunner.Host.RunClaimed | src/shuttle_gate/claim.py:52-81 | Among interfering wrappers: the exact steps taken for each outcome, the child started only with every claim locked, the earlier claims given back on conflict, failure only when a file or the child could not be opened, and nothing held afterwards |
| ClaimRunner.Host.GiveBack | src/shuttle_gate/claim.py:78-81 | Every held claim is given back, one step each |
| ClaimProtocol.NotAllLose | src/shuttle_gate/claim.py:52-81 | In every interleaving of any number of wrappers, from free claims and without kills or broken files: as long as no child was reached somebody is still acquiring, and when all are done one of them ran its child |
| ClaimProtocol.ConflictMeansHeldElsewhere | src/shuttle_gate/claim.py:67-72 | In every run, a wrapper loses at a claim exactly when another live wrapper holds that claim |
| ClaimProtocol.DeadWrappersRest | src/shuttle_gate/claim.py:52-81 | A wrapper that is done takes no further step; a killed one holds no lock, and only its child may still end |
| ClaimProtocol.CrossedOrdersBothLose | src/shuttle_gate/claim.py:36-37 | With unsorted claims two wrappers can both lose: the demand for sorted claims is what makes somebody win |
| ClaimProtocol.ChildrenExclude | src/shuttle_gate/claim.py:67-75 | In every run, kills included, a live wrapper whose child runs holds all its claims, so children of live wrappers with a common claim never run side by side; an ended or dead wrapper holds none |
| ClaimProtocol.OrphansAreTheException | src/shuttle_gate/claim.py:58-81 | Children with a common claim are alive together if and only if one of them has lost its wrapper to a kill and not ended yet |
| ClaimProtocol.OrphanCanOverlap | src/shuttle_gate/claim.py:58-75 | That happens: a wrapper is killed and another starts its child with the same claim before the first child has ended |
| ClaimProtocol.OthersLocksKept | src/shuttle_gate/claim.py:67-81 | No step of one wrapper takes or drops a lock of another |
| Cidr.BlocksNest | src/shuttle_gate/nft_tproxy.py:102-102 | Two blocks that share an address are nested, the longer prefix inside |
| Cidr.BlockIsRange | src/shuttle_gate/nft_tproxy.py:102-102 | A block holds exactly the addresses from its first to its last |
| Cidr.BlockOfMulticast | src/shuttle_gate/config.py:257-261 | A block that shares an address with the multicast block and is at least as long has both ends multicast, as the route check sees them |
| Cidr.NetworkOfMeans | src/shuttle_gate/nft_tproxy.py:102-102 | Masking a prefix gives the block of addresses between the same multiples of the block size, whichever address of it is given |
| Cidr.FixedBlocks | src/shuttle_gate/runtime.py:40-40 | Multicast by value: 224.0.0.0 to 239.255.255.255 and ff00:: upwards; the broadcast address is 255.255.255.255 |
| TproxyTable.HeavierIsMoreSpecific | src/shuttle_gate/nft_tproxy.py:51-55 | The weight order is: fewer ports, then a longer prefix, then exclusion; ties agree on all three |
| TproxyTable.RenderTproxyTable | src/shuttle_gate/nft_tproxy.py:68-130 | The loops produce the table of the specification, or the first error met in weight order |
| TproxyTable.RenderedIffValid | src/shuttle_gate/nft_tproxy.py:78-106 | Rendering fails exactly on an unknown family, a mark that is no hexadecimal number, a bad port, or a subnet of another family, a width over 32 or 128, an unparsable or mixed-up network or ports out of order; ports 0 to 0 are valid |
| TproxyTable.RenderErrorsMean | src/shuttle_gate/nft_tproxy.py:78-106 | Which error is raised, for which cause, and for the first faulty subnet in weight order |
| TproxyTable.TableNamesDiffer | src/shuttle_gate/nft_tproxy.py:35-40 | Different ports give tables of different names |
| PacketPath.AcceptedRenders | src/shuttle_gate/runtime.py:169-197 | For every accepted configuration the tables render: what the program passes on is never refused |
| TproxyTable.CoversMeans | src/shuttle_gate/nft_tproxy.py:58-65 | A subnet covers an address when it agrees with it on the prefix, and a port when it has none or the port is in range |
| TproxyTable.ChainIsBestSubnet | src/shuttle_gate/nft_tproxy.py:96-120 | For every eligible packet the first-match verdict is the action of each most specific subnet that covers it, and none when nothing covers it |
| TproxyTable.TableMeaning | src/shuttle_gate/nft_tproxy.py:86-120 | What the whole table, guards included, does to any packet of its family |
| TproxyTable.OrderDoesNotMatter | src/shuttle_gate/nft_tproxy.py:96-96 | Permuting the subnets changes neither whether the table renders nor what it does to any packet |
| TproxyTable.ExclusionOnlyExcludes | src/shuttle_gate/nft_tproxy.py:115-116 | One more exclusion takes away exactly the packets it covers that no strictly more specific subnet wins back |
| GatewayConfig.ValidateNetwork | src/shuttle_gate/config.py:130-182 | Accepts exactly the networks with unique unicast binds, one proper gateway a family, and distinctly named peers with distinct unicast addresses inside their gateway's network |
| GatewayConfig.ValidateAddresses | src/shuttle_gate/config.py:61-73 | Accepts exactly one full-length address for each family a peer uses |
| GatewayConfig.PeersShareNothing | src/shuttle_gate/config.py:158-181 | Two peers of an accepted network have different names and no common address |
| GatewayConfig.ValidateProject | src/shuttle_gate/config.py:249-354 | The checks, in the source's order, accept exactly the configurations the capture theorems are about, and raise the first violation |
| GatewayConfig.AcceptedMeans | src/shuttle_gate/config.py:249-354 | What accepted configurations are, check by check: the usable DNS upstream, the routes each mode allows, and their families |
| GatewayConfig.UnicastByValue | src/shuttle_gate/config.py:136-168 | Unicast addresses by value, IPv6 forms of IPv4 addresses included |
| GatewayConfig.EffectiveRoutesMean | src/shuttle_gate/config.py:357-368 | Selected routing routes exactly the listed networks, full routing everything of the gateway families |
| CapturePolicy.SshuttleArguments | src/shuttle_gate/runtime.py:169-174 | The loops append the exclusions and routes of the specification, in order |
| CapturePolicy.ArgumentsMembers | src/shuttle_gate/runtime.py:169-174 | A network is excluded exactly when it is a gateway network or a multicast exclusion of a gateway family, and routed exactly when it is an effective route |
| CapturePolicy.CaptureIsRouteWins | src/shuttle_gate/runtime.py:169-174 | An address is captured exactly when some route to it is strictly longer than every exclusion of it |
| CapturePolicy.MulticastIsNeverCaptured | src/shuttle_gate/runtime.py:40-40 | For every accepted configuration, and whatever sshuttle excludes besides, no address from 224.0.0.0 to 239.255.255.255, from ff00:: upwards, and not 255.255.255.255, is proxied |
| CapturePolicy.UpstreamIsCaptured | src/shuttle_gate/config.py:334-342 | Queries to an accepted DNS upstream are captured, over TCP and UDP, exactly when it is not 255.255.255.255 |
| CaptureExamples.BroadcastUpstreamIsAccepted | src/shuttle_gate/config.py:271-281 | That exception occurs: a configuration with this upstream is accepted and never captured |
| CapturePolicy.GatewayTraffic | src/shuttle_gate/runtime.py:172-173 | Traffic into a gateway network is captured exactly when a route to it is strictly longer than the gateway's prefix |
| CaptureExamples.GatewayExclusionCanLose | src/shuttle_gate/runtime.py:172-173 | That occurs: an accepted selected route captures an address of the gateway network |
| CapturePolicy.FullRoutingCapturesTheRest | src/shuttle_gate/config.py:357-368 | Full routing captures exactly the addresses of gateway families outside gateway networks, multicast and 255.255.255.255 |
| PacketPath.FailClosed | src/shuttle_gate/runtime.py:178-197 | An unmarked packet from wg0 is dropped or delivered to the proxy with the mark, for any subnets, with or without tables and routes; to the proxy exactly when a table marks it and its family has policy routing |
| PacketPath.OnlyRoutedTrafficPasses | src/shuttle_gate/runtime.py:169-197 | End to end for an accepted configuration: exactly traffic with a winning route reaches the proxy, the rest is dropped |
| GatewayRuntime.Gateway.Start | src/shuttle_gate/runtime.py:227-252 | At every step until return or rollback, wg0 is up only behind the drop table, with policy routing for each routed family and after READY; a normal return means addresses, keys, MTU, filter, routing and a ready proxy are all in place; it fails only when a command or check has failed or the proxy has exited, and a working rollback leaves nothing |
| GatewayRuntime.Gateway.Cleanup | src/shuttle_gate/runtime.py:267-308 | Goes on whatever fails, never raises wg0, and leaves an empty namespace when every command works |
| GatewayRuntime.Gateway.SetupPolicyRouting | src/shuttle_gate/runtime.py:378-424 | Success means rule and local route for every routed family |
| GatewayRuntime.Gateway.Run | src/shuttle_gate/runtime.py:552-572 | The same safety for the whole run, until the cleanup that ends it; code 0 means that it served until a stop was asked for and the proxy is gone, and anything else that something has failed |
| GatewayRuntime.SafeMeans | src/shuttle_gate/runtime.py:378-424 | The routed families are those of the routes: a state is safe when wg0 is down, or the filter, a ready proxy, and a rule and a local route for the family of every route are there |
| GatewayRuntime.ServingMeans | src/shuttle_gate/runtime.py:342-376 | A serving gateway has wg0 up with every gateway address, its keys, peers and MTU, and all that makes it safe |
| GatewayRuntime.SafeMeansFailClosed | src/shuttle_gate/runtime.py:361-364 | In each of these states traffic from wg0 is dropped or goes to the proxy, also after the proxy and its tables are gone |
| LaunchBinding.LaunchRunsWhatWasPrepared | src/shuttle_gate/launch.py:73-158 | Through any events between preparing and starting, and while the gateway holds its view, `current` names the manifest's generation with the tree that was prepared, and no bound input differs |
| LaunchBinding.SameNameSameTree | src/shuttle_gate/state.py:439-440 | A generation name means one tree for the whole of a run |
| LaunchBinding.LaunchStartsIffNothingChanged | src/shuttle_gate/launch.py:142-158 | A prepared launch is accepted exactly when nothing was published since, in any interleaving, and no bound input differs |
| LaunchBinding.NestedReadsNeedNoLock | src/shuttle_gate/state.py:196-198 | Nested reads through bound paths take no lock and find the bound generation unchanged |
| LaunchBinding.PlainNestedReadWouldBlock | src/shuttle_gate/state.py:98-119 | Through plain paths a holder of the exclusive lock would wait for itself: whatever the other processes do, its shared lock is never granted, and an exclusive one is refused as busy |
| PeerKeys.Snapshot.GenerateMissingKeys | src/shuttle_gate/keys.py:107-141 | The loops write what the specification function says, in its order, up to the exception if there is one |
| PeerKeys.Snapshot.ReplacePeerKeys | src/shuttle_gate/keys.py:371-379 | The same for a peer rotation |
| PeerKeys.Snapshot.ReplaceServerKeys | src/shuttle_gate/keys.py:397-401 | The same for a server rotation |
| PeerKeys.Snapshot.Prune | src/shuttle_gate/keys.py:414-427 | The same for pruning, child by child as they are listed |
| PeerKeys.Snapshot.RenderPhoneConfigs | src/shuttle_gate/keys.py:247-262 | The same for phone configurations |
| PeerTheorems.UntouchedPeerKeepsItsFiles | src/shuttle_gate/keys.py:107-158 | A call changes no file of a peer it neither selects nor prunes |
| PeerTheorems.PeerFilesChangeOnlyWhenTouched | src/shuttle_gate/keys.py:360-434 | Over any stretch of published history without a call that touches a peer, each of its files stays the same |
| PeerTheorems.GeneratingKeepsExistingKeys | src/shuttle_gate/keys.py:107-141 | Generating and re-rendering overwrite or drop no existing key |
| PeerTheorems.CallsWorkWhenTheyCan | src/shuttle_gate/keys.py:107-141 | A key call raises exactly when a key it reads is missing or invalid, a needed one cannot be generated, or an undeclared child is no directory; and what it makes passes its own validation |
| PeerTheorems.CallsChangeNothingElse | src/shuttle_gate/keys.py:107-141 | A call writes or removes files of the peers it is for, and the server's where it generates those, and nothing else |
| PeerTheorems.SelectedIffConcerned | src/shuttle_gate/keys.py:161-167 | A call goes ahead unless it names an undeclared peer, and is for exactly the peer it names or else all |
| PeerTheorems.KindsTellCallsApart | src/shuttle_gate/keys.py:385-407 | Two rotations have the same operation kind exactly when they rotate the same keys; other calls have no operation |
| PeerTheorems.GenerationInstallsKeys | src/shuttle_gate/keys.py:107-141 | A completed generation gives the server and each selected peer without keys exactly the keys drawn for it, each draw once; it changes no other key and names exactly those it made keys for |
| PeerTheorems.GenerationRefusesPartialKeys | src/shuttle_gate/keys.py:117-129 | Partial keys of the server or of a selected peer make generation raise |
| PeerTheorems.MissingAmongMeans | src/shuttle_gate/keys.py:126-137 | The names returned are the peers that had no key file, in the order of selection |
| KeyFiles.ReadKeyMeans | src/shuttle_gate/keys.py:54-76 | A key is read exactly from a file that holds 43 base64 digits and the padding, and else spaces only |
| KeyFiles.LoadsMean | src/shuttle_gate/keys.py:179-224 | Keys load exactly when each of their files is there and holds one |
| PeerTheorems.PublishedKeysAreUsable | src/shuttle_gate/keys.py:336-447 | In every run of key calls each published generation is the work of some key call, has loadable server keys, and has, for the peers that call is for, phone configurations made of exactly the stored keys; after pruning each declared peer has all its keys or none |
| PeerTheorems.RotationInstallsPeerKeys | src/shuttle_gate/keys.py:371-379 | A completed peer rotation leaves exactly the generated keys, and the server's as they were |
| PeerTheorems.RotationInstallsServerKeys | src/shuttle_gate/keys.py:397-401 | A completed server rotation leaves exactly the generated pair, and every peer's keys as they were |
| PeerTheorems.PruningCallRemovesOrphans | src/shuttle_gate/keys.py:414-434 | A completed pruning leaves files of declared peers only, and publishes exactly when an undeclared child was listed |

## Left out

- StatePowerLoss.PowerLossesAreSurvived: excludes a call that stops between state.py lines 400 and 401; AbandonedPointerExactly says when that loses something, and StopThenSweepLosesAGeneration that it can.
- CapturePolicy.UpstreamIsCaptured: the unconditional statement is false of the code for 255.255.255.255, as BroadcastUpstreamIsAccepted shows.
- ClaimProtocol.ChildrenExclude: speaks of children whose wrapper is alive; a child can outlive a killed wrapper, which then no longer holds its claims (OrphansAreTheException). That systemd ends such children soon after is not modelled.
- ClaimProtocol.NotAllLose: says nothing of runs with kills or broken claim files, in which all others can lose to a wrapper that then dies. A child may itself exit with 73; the model tells that apart from a conflict, callers of the program cannot.
- StateStore.StateStore.MutateState: the handler's removal of a published directory while `current` is absent (state.py lines 462 to 464) is not modelled, because `current` is never absent after a publication; the transitions cover every point where an exception can occur outside it.
- SshKeyStore.SshKeyStore.RecoverTransaction: an I/O error inside a recovery is the event `Stop` of the protocol, not a branch of this method; in GenerateSshKey such errors are branches. Modes, chmod and fsync of the pair are not modelled.
- GatewayConfig.ValidateNetwork: states which configurations are accepted, not which of several violations is reported first; name patterns, bind scopes, hosts and ports are checks on one field.
- GatewayRuntime.Gateway.Cleanup: the order in which it removes objects is not claimed to be safe step by step; it deletes the filter before the link.
- TproxyTable.RenderTproxyTable: produces rules as data; the text layout of the table is not modelled. A subnet with first port 0 and a last port above 0 matches every port and ranks below one with 0 and 0, as in the code.
- CapturePolicy.CaptureIsRouteWins: assumes that sshuttle passes on the networks of its command line without ports; the multicast result also allows exclusions of its own.
- PeerKeys.Snapshot.RenderPhoneConfigs: writes the fingerprint as one text; its JSON is not parsed.
- Locks: creation of the lock file, its first exclusive touch by an optional reader (state.py lines 200 to 202), and the retry of a blocked reader as time passes.
- Disk: modes, ownership, symbolic links below a generation, size limits, JSON spelling, temporaries of atomic writes inside a staging directory, empty legacy directories, and an interrupted creation of the `generations` directory.
- Durability: writes that are fsynced one by one (`atomic_write`) and the fsyncs after a sweep count as not fsynced, which only adds disks that may come back; a rename within one directory is atomic; power loss in the SSH journal is not modelled.
- Changes of `ssh.identity_file` between a crash and its recovery; external edits of keys or generations.
- Subprocess, socket and signal handling, `recvmsg` parsing, systemd, pasta and bubblewrap option lists (including `_add_parent_directories` of host.py), journald arguments, the status file, the command line interface and help texts.
