# persistent-pod-state: a verified model

The repository keeps the node and the address of every pod of a StatefulSet across
recreation. A reconciler records where pods run and reserves their addresses; an admission
webhook pins a recreated pod to what is recorded. The webhook provisions its own
certificates: replicas race over one Secret, publish its content to a directory with an
atomic writer, and put the CA into two webhook configurations.

This project models these three parts and proves what each of them promises.
`dafny verify dfyconfig.toml` checks all of it.

## How it is built

* **The atomic writer.** `FileSystem.Disk` is one directory tree, changed by one system call
  at a time; links are followed as a reader follows them. Every call may fail for a reason
  of its own (`EIO`, recorded in `faulted`), calls that take several steps may stop in the
  middle, and `log` keeps every state the tree was ever in, so a crash can be placed after
  any step. `AtomicWriter.Writer` is the eleven-step algorithm on it, with maps iterated in
  any order. `Publication` says what a reader sees (`View`, `Shows`) and which changes a
  reader cannot see (`Same`). `Write` promises that every state before one position of the log
  is the `Same` as the first, and every later one the `Same` as the state the rename made
  (`Trace`); `Runs` turns that into two theorems about any run of interrupted writes: one for
  any payloads (`AtomicPublication`), and one without any assumption on failures for writes
  that keep to the names seen already (`SteadyPublication`). `CertDir` adds the caller:
  clearing the way, the six files, and reading them back. Clearing can take a good link away,
  when it cannot be read, so `CertRuns` says what holds of any run of publications, whatever
  fails: every path reads as nothing or as its contents in the one version that was renamed
  last (`PublicationsNeverMix`); and while clearing removes nothing, all of it is seen
  (`CertificatesStaySeen`).
  `Witnesses` holds the inputs at which less happens than one might expect.
* **Certificates.** `CertProtocol` is N replicas, time and other clients taking steps over a
  versioned Secret. Calls may be lost, or take effect without being reported. Certificates are
  abstract: validity only ever turns from true to false. `CertWriter` is the code itself,
  call by call; between two calls everybody else takes any number of protocol steps, and the
  code's own calls are shown to be steps of its replica. `WebhookConfig` and `Configuration` do
  the same for the two webhook configurations: replicas that use the same parameters, whatever
  was done before, converge as soon as one of them finishes (`RacingReplicasConverge`), and one
  that fails has been overtaken by another that got further. `WebhookController` composes
  them, with the certificates kept in the Secret or in the directory, for one replica among
  many (`Sync`, `Work`) and for all of them (`FleetConverges`). Ghost flags of the API servers
  (`mixed`, `touched`, `disturbed`, `contended`, `faulted`) say what has happened since they were
  last false, so that every statement is about one call.
* **Pods.** `PodStates` is the reconciler over an API server whose calls may fail or go
  unreported. `PodWebhook` is the webhook. `Identity` puts their decisions
  (`Replaces`, `StateOf`, `Created`) into one state machine with pods being created,
  scheduled, addressed and deleted, with reads as stale as a cache can make them; a reconcile
  of the code, whatever fails in it, is a sequence of that machine's steps
  (`ReconcilerRefines`).
  `RequestNames` is the naming of reconcile requests.

What leaves the program is said in the words of whoever receives it, not through the functions that
compute it: the webhooks that the API server holds (`Delivered`), a pod for the scheduler and the
network plugin (`PinnedTo`), the blocks of addresses (`Reserves`), the record (`RecordsAll`), and the
files and the keys of the Secret under their literal names (`DirectoryRoundTrip`, `SecretRoundTrip`).

## What turned out

* The path check looks at the raw path: `./..data` is accepted and cleans to the writer's own
  link. `CleanedKeyIsReservedIff` says exactly which accepted paths do so. The comment above
  `validatePath` promises more than the code does.
* `Write` returns nil, if no call fails and there is something to write, exactly when no stale
  `..data_tmp` is there, no payload file is the directory of another, and each name that only the
  old version needs can be removed from the root in one go (`Obstructed`, reached by any
  directory in `NestedKeysObstruct`). When a file became a directory, or the reverse, the
  comparison before that fails in some iteration orders and not in others
  (`ScanFailsInNoOrderIff`, `FileBecomesDirectory`).
* A `Readlink` that fails with anything but "not found" makes step 7 pass over a missing link
  without an error. This needs a name without an entry before the write; the payload is then
  not shown (`Trace`), and a later write of the same payload does not repair it, because the
  comparison looks only at the timestamped directory (`PassedOverStaysMissing`).
* For the same reason, `prepareToWrite` removing a plain file whose name is already published
  leaves that name missing until other certificates are published (`PlainFileHidesName`);
  `WriteCertsToDir` states exactly when a success means that the certificates are seen.
* A valid certificate is replaced exactly by an overwrite without a version that reaches the
  server (`ValidIsReplacedIff`, `BlindOverwriteReplacesValid`). None is made unless a replica
  finds what it has just created expired (`TimelyIsUndisturbed`), and one that does, while the
  Secret is valid, can replace it (`UntimelyReplacesValid`).
* A configuration's first webhook without a path stops the program if it names a service
  (`Configuration.Ensurer.Compute`, `NilPathStops`).
* Replicas that race over the configurations can make each other fail, but only by getting
  further: where no call fails of itself and no other client interferes, three attempts of
  any replica are enough (`WebhookController.Controller.Work`).
* The length test compares counts: a record that is not complete can lose a pod
  (`NoNameIsLostIff`). A complete record is stable while the webhook's lookups succeed. A pod
  whose lookup fails is admitted unpinned and can move the record
  (`FailedLookupMovesThePod`); this can happen exactly if the record holds the pods' names and
  no others (`LookupsMatterIff`), since the length test freezes one that holds more.
* A record's count can go down if a cached read of the record is out of date
  (`StaleReadShrinksTheRecord`), but not for any other reason (`CountNeverDecreasesOverRuns`).
* Pods of different namespaces can share a reservation exactly when one namespace continues
  the other with a dash (`NamespacesCollideIff`).
* Any pod whose name ends in a dash and digits, or in a dash, counts as a StatefulSet's pod
  unless an owner says otherwise (`BelongsTo`).

## Model

| member | source | states |
|---|---|---|
| `Paths.ValidatePath` | internal/webhook/util/writer/atomic/atomic_writer.go:246-276 | accepts exactly the non-empty relative paths within both length limits that have no ".." element and whose raw first element does not begin with ".." |
| `Paths.RejectedIff` | internal/webhook/util/writer/atomic/atomic_writer.go:246-276 | the reasons for which a path is rejected, with the limits of 4096 and 255 bytes |
| `Paths.CleanedKeyIsWellFormed` | internal/webhook/util/writer/atomic/atomic_writer.go:225-276 | cleaning an accepted path gives a relative path of proper elements within both limits, and its elements are exactly the meaningful ones of the raw path |
| `Paths.CleanMergesEqualMeanings` | internal/webhook/util/writer/atomic/atomic_writer.go:225-236 | two accepted keys become one exactly when their non-empty, non-"." elements coincide |
| `Paths.CleanedKeyIsReservedIff` | internal/webhook/util/writer/atomic/atomic_writer.go:228-232 | an accepted path cleans to a reserved name exactly when its first element is "." and the first meaningful one begins with ".." |
| `Paths.DotSlashReachesTheDataLink` | internal/webhook/util/writer/atomic/atomic_writer.go:271-273 | the concrete case: "./..data" is accepted and cleans to the data link |
| `Paths.SubPaths` | internal/webhook/util/writer/atomic/atomic_writer.go:336-344 | the loop that shortens a path ends and has collected exactly the joined non-empty prefixes of its elements |
| `Paths.ParentDropsLast` | internal/webhook/util/writer/atomic/atomic_writer.go:341-342 | one round of that loop takes exactly the last element off |
| `Paths.AncestryIsPrefixes` | internal/webhook/util/writer/atomic/atomic_writer.go:335-346 | a path string is collected for a file exactly when its elements are a prefix of the file's |
| `Paths.LinkNameIsHead` | internal/webhook/util/writer/atomic/atomic_writer.go:419-423 | the name of the visible link is the first element of the cleaned path |
| `Payloads.ValidatePayload` | internal/webhook/util/writer/atomic/atomic_writer.go:225-236 | accepts a payload exactly if every key is accepted, and returns it under its cleaned keys, with one entry kept of those that merge |
| `Payloads.CompareFailsIff` | internal/webhook/util/writer/atomic/atomic_writer.go:295-307 | comparing a file fails exactly when the old version has a directory there or a file above; it finds it equal exactly when the old version has the same contents |
| `Payloads.ScanEqualIff` | internal/webhook/util/writer/atomic/atomic_writer.go:279-292 | in any iteration order the comparison finds nothing to write exactly when every file is equal |
| `Payloads.ScanFailsInNoOrderIff` | internal/webhook/util/writer/atomic/atomic_writer.go:279-292 | no iteration order makes the comparison fail exactly when no single file does |
| `Payloads.SkipIsExact` | internal/webhook/util/writer/atomic/atomic_writer.go:143-160 | the no-update return is taken exactly when the old directory holds the payload's files and their ancestors, with equal contents, and nothing else |
| `Payloads.SkipWhenLost` | internal/webhook/util/writer/atomic/atomic_writer.go:328-333 | with the old directory gone there is nothing to remove and every file differs |
| `Payloads.SkipIsUpToDate` | internal/webhook/util/writer/atomic/atomic_writer.go:143-160 | both cases of the skip test together |
| `Publication.ReadIsLookup` | internal/webhook/util/writer/atomic/atomic_writer.go:105-117 | opening a visible path resolves through its link and the data link to the file in the current timestamped directory, and to nothing else |
| `Publication.ExactShowsIff` | internal/webhook/util/writer/atomic/atomic_writer.go:105-117 | a published version is seen, whole and with nothing else, exactly when each of its names is the writer's link |
| `Publication.ExactShows` | internal/webhook/util/writer/atomic/atomic_writer.go:105-117 | where every name has an entry, that is exactly when no payload name is taken by somebody else |
| `Publication.SameKeepsShows` | internal/webhook/util/writer/atomic/atomic_writer.go:163-219 | a change that leaves the data link, the current directory and the links it needs alone changes nothing a reader sees |
| `Publication.StagedIsSame` | internal/webhook/util/writer/atomic/atomic_writer.go:163-190 | everything written before the rename is such a change |
| `Publication.PrunedIsSame` | internal/webhook/util/writer/atomic/atomic_writer.go:207-219 | everything removed after the rename is such a change |
| `Publication.MissingLinkReveals` | internal/webhook/util/writer/atomic/atomic_writer.go:424-434 | why a name without an entry matters: adding its link, before any rename, changes what a reader sees |
| `AtomicWriter.Writer.Examine` | internal/webhook/util/writer/atomic/atomic_writer.go:143-161 | steps 3 and 4: skips exactly if the old version is the payload already, and fails without a fault only on a file that cannot be compared |
| `AtomicWriter.Writer.WriteOneFile` | internal/webhook/util/writer/atomic/atomic_writer.go:378-401 | one more payload file is in the new directory with its ancestors; failing without a fault means the payload cannot be written at all |
| `AtomicWriter.Writer.WritePayloadToDir` | internal/webhook/util/writer/atomic/atomic_writer.go:376-405 | success leaves the new directory exactly the payload; every intermediate state differs below that directory only |
| `AtomicWriter.PartialIsExact` | internal/webhook/util/writer/atomic/atomic_writer.go:376-405 | once every key is written the directory holds the payload files and their ancestors and nothing else |
| `AtomicWriter.Writer.ShouldWriteFile` | internal/webhook/util/writer/atomic/atomic_writer.go:295-307 | answers as the comparison of the file with the published version says |
| `AtomicWriter.Writer.ShouldWritePayload` | internal/webhook/util/writer/atomic/atomic_writer.go:279-292 | answers as the scan in its iteration order says |
| `AtomicWriter.Writer.PathsToRemove` | internal/webhook/util/writer/atomic/atomic_writer.go:312-352 | returns exactly the paths of the old version that no payload file needs, also when the old directory is gone |
| `AtomicWriter.RemovalIsUnneeded` | internal/webhook/util/writer/atomic/atomic_writer.go:335-346 | the difference of path strings is exactly the old tree minus the payload files and their ancestors |
| `AtomicWriter.GoneNames` | internal/webhook/util/writer/atomic/atomic_writer.go:441-456 | the root names that pruning removes are exactly those of the old version that are not first elements of the payload |
| `AtomicWriter.Writer.LinkVisibleFile` | internal/webhook/util/writer/atomic/atomic_writer.go:419-434 | a missing name gets its link; a taken or unreadable one is passed over without an error |
| `AtomicWriter.Writer.CreateUserVisibleFiles` | internal/webhook/util/writer/atomic/atomic_writer.go:417-437 | only links for payload names are added, and on success a name is missing only if reading it failed |
| `AtomicWriter.Writer.RemoveUserVisiblePaths` | internal/webhook/util/writer/atomic/atomic_writer.go:441-456 | only root entries among the given paths disappear; success means that all of them could be removed and are gone, and without a fault failure means that one could not |
| `AtomicWriter.Writer.FillNewDir` | internal/webhook/util/writer/atomic/atomic_writer.go:163-176 | steps 5 and 6 touch only a directory that did not exist before |
| `AtomicWriter.Writer.SwitchDataLink` | internal/webhook/util/writer/atomic/atomic_writer.go:184-205 | steps 8 and 9: all states before the rename are staged, success changes the data link and nothing else, a temporary link that is already there stays and makes them fail, and a step whose own failure is the only one is undone |
| `AtomicWriter.Writer.Discard` | internal/webhook/util/writer/atomic/atomic_writer.go:187-187 | removes the new directory and touches nothing else |
| `AtomicWriter.Writer.UndoTmp` | internal/webhook/util/writer/atomic/atomic_writer.go:200-202 | removes the temporary link and the new directory, unless one of these calls fails, and touches nothing else |
| `AtomicWriter.DiscardedIsLinked` | internal/webhook/util/writer/atomic/atomic_writer.go:184-190 | a write that a stale temporary link stopped leaves nothing behind but links |
| `AtomicWriter.Writer.Publish` | internal/webhook/util/writer/atomic/atomic_writer.go:163-205 | steps 5 to 9: every state but the last is invisible to readers, and the last one is the committed one |
| `AtomicWriter.CommitIsManaged` | internal/webhook/util/writer/atomic/atomic_writer.go:198-198 | the state the rename makes shows the payload exactly if no name is somebody else's and none was passed over |
| `AtomicWriter.Writer.Prune` | internal/webhook/util/writer/atomic/atomic_writer.go:207-219 | steps 10 and 11 remove only old names and the old directory; success means that they are all gone |
| `AtomicWriter.PruneBlockedIff` | internal/webhook/util/writer/atomic/atomic_writer.go:207-211 | pruning can succeed exactly when, before the write, every name only the old version needs could be removed in one go |
| `AtomicWriter.PrunedSettles` | internal/webhook/util/writer/atomic/atomic_writer.go:163-221 | after a complete write the tree is the new version, its links, and whatever was neither the old version's nor the temporary link |
| `AtomicWriter.ReplaceTrace` | internal/webhook/util/writer/atomic/atomic_writer.go:163-219 | the states of steps 5 to 11 fall into those like the first and those like the committed one |
| `AtomicWriter.Writer.Write` | internal/webhook/util/writer/atomic/atomic_writer.go:119-222 | the whole promise, whatever fails and wherever it stops: one visible change at most, what each result means, when it is skipped, when it must fail, that a name can be passed over only if it had no entry before the write, that a stale temporary link is never promoted, and that a rename which fails leaves nothing behind but links if nothing else fails |
| `Runs.WriteIsAttempt` | internal/webhook/util/writer/atomic/atomic_writer.go:119-222 | a write, with any failures and cut off after any of its system calls, is an attempt of a run |
| `Runs.StateOfAttempt` | internal/webhook/util/writer/atomic/atomic_writer.go:119-222 | every state of an attempt shows what was published before it or, from its rename on, its payload, provided that a name without an entry was not passed over |
| `Runs.AtomicPublication` | internal/webhook/util/writer/atomic/atomic_writer.go:119-222 | over any run of interrupted and failing writes, every state ever shows exactly the payload of the last rename, or what was there before the first; an attempt that finds an entry for each of its names may fail in any way |
| `Runs.SteadyPublication` | internal/webhook/util/writer/atomic/atomic_writer.go:119-222 | the same with nothing assumed about failures or foreign entries, once a version under the same names is seen |
| `Runs.EmptyDirectory` | internal/webhook/util/writer/atomic/atomic_writer.go:127-138 | an empty directory is a start for any such run |
| `Witnesses.WrittenServes` | internal/webhook/util/writer/atomic/atomic_writer.go:105-117 | the tree of a first write, in which every flat payload is served; the directories below come from it |
| `Witnesses.NestedKeysObstruct` | internal/webhook/util/writer/atomic/atomic_writer.go:376-392 | a payload with a file below another file is accepted and cannot be written into any directory |
| `Witnesses.FileBecomesDirectory` | internal/webhook/util/writer/atomic/atomic_writer.go:295-307 | publishing a path below a published file cannot be compared, although nothing obstructs the write |
| `Witnesses.NestedPathExists` | internal/webhook/util/writer/atomic/atomic_writer.go:246-276 | there is a path and a name to take for these |
| `Witnesses.PassedOverStaysMissing` | internal/webhook/util/writer/atomic/atomic_writer.go:419-434 | a first write that passes a name over is done, does not show its payload, and is taken for up to date by the next one |
| `Witnesses.PlainFileHidesName` | internal/webhook/util/writer/fs.go:137-153 | a plain file in the place of a served name leaves the version published and the name out of reach |
| `Witnesses.NilPathStops` | internal/webhook/util/configuration/configuration.go:122-133 | a configuration that stops the program: its first webhook names a service without a path |
| `CertDir.CertDirectory.ClearName` | internal/webhook/util/writer/fs.go:137-153 | a name is removed exactly if it is no link and one removal can take it away |
| `CertDir.CertDirectory.PrepareToWrite` | internal/webhook/util/writer/fs.go:122-155 | without faults exactly those of the six names are removed; whatever fails, in every state only such entries are gone, and the writer's part of the directory stays in order |
| `CertDir.LostOnlyHides` | internal/webhook/util/writer/fs.go:137-153 | clearing can hide a file from a reader and never changes what one sees |
| `CertDir.VacantMeans` | internal/webhook/util/writer/fs.go:137-153 | a name is free, once the way is cleared, exactly if nothing has it, or a file or an empty directory |
| `CertDir.PublishedIsOpen` | internal/webhook/util/writer/fs.go:105-119 | nothing is in the way of publishing where certificates have been published |
| `CertDir.ProjectionIsFlat` | internal/webhook/util/writer/fs.go:201-229 | the projected files are exactly the six cleared names, all of them ordinary |
| `CertDir.CertificatesAreSteady` | internal/webhook/util/writer/fs.go:201-229 | certificates of all times are published under the same six names, so that a write of some leaves no name of the next one without an entry |
| `CertDir.ServingShows` | internal/webhook/util/writer/fs.go:105-119 | published certificates are seen exactly when each of their names is a link of the writer |
| `CertDir.WrittenShows` | internal/webhook/util/writer/atomic/atomic_writer.go:141-221 | after a rename the final state shows the payload exactly if nobody else held one of its names |
| `CertDir.DoneShows` | internal/webhook/util/writer/fs.go:105-119 | after a write that went through, the files are seen exactly if each name was a link already or could be cleared |
| `CertDir.UnchangedShows` | internal/webhook/util/writer/fs.go:105-119 | after a skipped write, exactly if each name was a link already |
| `CertDir.CertDirectory.WriteCertsToDir` | internal/webhook/util/writer/fs.go:105-119 | success publishes the projection; when it is seen is known from the state before, and so is when it must succeed; publishing again what is served writes nothing; whatever fails and wherever it stops, its states are those of clearing and then of one atomic write |
| `CertDir.CertDirectory.EnsureExist` | internal/webhook/util/writer/fs.go:185-199 | reports not-found only if one of the six names is missing, and passes if all can be read |
| `CertDir.CertDirectory.ReadCerts` | internal/webhook/util/writer/fs.go:157-183 | returns what a reader finds under the four names |
| `CertDir.DirectoryRoundTrip` | internal/webhook/util/writer/fs.go:157-229 | what is served is read back under each of the six names, and complete certificates come back as they were |
| `CertRuns.WriteIsPublishing` | internal/webhook/util/writer/fs.go:105-119 | a publication of certificates, with any failures and cut off after any of its system calls, is one of a run |
| `CertRuns.AttemptIsPublishing` | internal/webhook/util/writer/atomic/atomic_writer.go:119-222 | so is a bare write of any payload |
| `CertRuns.StateOfPublishing` | internal/webhook/util/writer/fs.go:105-155 | in every state of a publication, clearing included, what is behind the data link is within the version renamed last |
| `CertRuns.PublicationsNeverMix` | internal/webhook/util/writer/fs.go:105-155 | over any run, with any failures, foreign entries and missing names, every path reads as nothing or as its contents in the one version that was renamed last |
| `CertRuns.CertificatesStaySeen` | internal/webhook/util/writer/fs.go:105-155 | once certificates are seen, they are replaced atomically over any run in which clearing removes nothing |
| `CertProtocol.SecretRoundTrip` | internal/webhook/util/writer/secret.go:153-185 | what is put into a Secret is read back, and it is under the six names that others know |
| `CertProtocol.StepKeepsOk` | internal/webhook/util/writer/certwriter.go:52-94 | the protocol's invariant: a remembered version still present means its remembered content, a renewal carries the version of a content judged invalid, and a made certificate keeps a CA that may sign |
| `CertProtocol.ValidIsNeverReplaced` | internal/webhook/util/writer/secret.go:115-130 | each overwrite that commits replaces content that is invalid then, unless it carries no version; and such a one follows the expiry of what its replica made itself |
| `CertProtocol.ValidIsReplacedIff` | internal/webhook/util/writer/secret.go:115-130 | a step of a replica replaces a valid certificate exactly if it is an overwrite without a version that is not lost |
| `CertProtocol.TimelyIsUndisturbed` | internal/webhook/util/writer/certwriter.go:60-75 | over a run in which no replica finds what it has just created expired, no overwrite lacks a version |
| `CertProtocol.UntimelyReplacesValid` | internal/webhook/util/writer/certwriter.go:60-75 | a replica that finds so while the Secret is valid can replace it in its next steps |
| `CertProtocol.NoBlindOverwrite` | internal/webhook/util/writer/certwriter.go:52-76 | while nothing expires, no overwrite without a version is reachable |
| `CertProtocol.BlindOverwriteReplacesValid` | internal/webhook/util/writer/certwriter.go:60-75 | the run in which such an overwrite replaces a valid certificate |
| `CertProtocol.ValidStaysStored` | internal/webhook/util/writer/secret.go:103-151 | over any undisturbed run, what is stored stays stored while it is valid |
| `CertProtocol.StepAgrees` | internal/webhook/util/writer/certwriter.go:60-75 | every step keeps valid certificates that a replica holds equal to the stored ones |
| `CertProtocol.Agreement` | internal/webhook/util/writer/certwriter.go:60-75 | in every run from any Secret, without expiry and foreign edits, whatever any two calls return, at any two moments, is the same and is stored from the first of them on |
| `CertProtocol.AgreementWhileValid` | internal/webhook/util/writer/certwriter.go:60-75 | with expiry, over any undisturbed run: whatever any two calls return is the same if both are valid at the later moment, and it is what is stored then |
| `CertProtocol.AgreementInTime` | internal/webhook/util/writer/certwriter.go:60-75 | the same for the replicas alone, if none finds what it has just created expired |
| `CertProtocol.ReturnedStaysStored` | internal/webhook/util/writer/certwriter.go:60-75 | what one call returned stays stored for as long as it is valid |
| `CertProtocol.StepKeepsCa` | internal/webhook/util/writer/secret.go:145-149 | an overwrite keeps the stored CA if that may still sign when the new certificates are made |
| `CertProtocol.CaContinuity` | internal/webhook/util/writer/secret.go:115-151 | along any chain of overwrites the CA stays the same as long as that holds each time |
| `CertWriter.SelfSignedCertGenerator.SetCA` | internal/webhook/util/generator/selfsigned.go:56-59 | the generator's CA is replaced |
| `CertWriter.SelfSignedCertGenerator.Generate` | internal/webhook/util/generator/selfsigned.go:66-140 | a result is complete and valid, and signed by the given CA while that may sign |
| `CertWriter.SecretCertWriter.Read` | internal/webhook/util/writer/secret.go:132-151 | returns the present content and version and hands a CA in it to the generator; a missing Secret is reported as such |
| `CertWriter.SecretCertWriter.BuildSecret` | internal/webhook/util/writer/secret.go:94-101 | generates for what is to be written, with the generator's CA |
| `CertWriter.SecretCertWriter.Write` | internal/webhook/util/writer/secret.go:103-113 | creates the Secret if it is absent, and tells whether somebody was first |
| `CertWriter.SecretCertWriter.Overwrite` | internal/webhook/util/writer/secret.go:115-130 | updates under the given version, returns certificates only if the update was accepted, and is refused only if somebody else was first |
| `CertWriter.SecretCertWriter.CreateIfNotExists` | internal/webhook/util/writer/certwriter.go:78-94 | read, create, read again; a Secret that is valid all along is returned as unchanged |
| `CertWriter.SecretCertWriter.HandleCommon` | internal/webhook/util/writer/certwriter.go:52-76 | certificates are judged and renewed under the version they were read at |
| `CertWriter.SecretCertWriter.EnsureCert` | internal/webhook/util/writer/secret.go:86-90 | what is returned was valid during the call, and is the stored content while it is valid; a Secret that is valid all along is returned and not written; if nothing fails of itself, the call succeeds where that is so or nobody else changes the Secret, and there it says whether it changed it |
| `WebhookConfig.RenderInOrder` | internal/webhook/util/configuration/configuration.go:61-82 | a rendered list holds exactly the served webhooks, each at its place in the template's order |
| `WebhookConfig.RenderedMeans` | internal/webhook/util/configuration/configuration.go:62-80 | a rendered webhook keeps its name, rules and path, has the present CA and goes to the present service, or by URL to the present host |
| `WebhookConfig.RewriteDelivers` | internal/webhook/util/configuration/configuration.go:61-105 | what a rewrite stores: in order, exactly the webhooks whose path has a handler, each with its name and rules, the CA, and the service or the URL it is to be called by |
| `WebhookConfig.RenderableIff` | internal/webhook/util/configuration/configuration.go:122-133 | a list can be rendered exactly if every webhook has a path, of its service or of its URL |
| `WebhookConfig.RewriteAgain` | internal/webhook/util/configuration/configuration.go:40-117 | a second rewrite gives what it would have given alone, and the same one again nothing new |
| `WebhookConfig.StepKeepsOk` | internal/webhook/util/configuration/configuration.go:40-120 | whatever replicas do, each configuration is as it was or a rendering of its first list, and what a replica has read is that or older |
| `WebhookConfig.TemplateIntegrity` | internal/webhook/util/configuration/configuration.go:141-179 | over any run of racing replicas the source of each configuration is its first list, and an annotation that is there never changes |
| `WebhookConfig.StepKeepsUniform` | internal/webhook/util/configuration/configuration.go:40-120 | the invariant of replicas that use the same parameters: a configuration that needed no update when it was read needs none now, and whoever is past the first one left it as wanted |
| `WebhookConfig.RacingReplicasConverge` | internal/webhook/util/configuration/configuration.go:107-120 | from any moment on from which racing replicas use the same parameters, once one of them has finished, both configurations deliver their sources under these parameters in every later state and no replica changes them any more |
| `WebhookConfig.CarriedIsRendering` | internal/webhook/util/configuration/configuration.go:61-117 | after any run of anybody, a configuration that is as wanted is the rendering of the list it had at the start |
| `Configuration.ConfigObject.ParseTemplate` | internal/webhook/util/configuration/configuration.go:141-159 | the template's list, or the present list, which is first written into the annotation and then handed out as the configuration's own array |
| `Configuration.ConvertClientConfig` | internal/webhook/util/configuration/configuration.go:135-139 | the service is replaced by a URL at the host under the service's path |
| `Configuration.EditInPlace` | internal/webhook/util/configuration/configuration.go:62-80 | one element of the array is edited as the webhook is to be delivered, if its path has a handler, and no other one is touched |
| `Configuration.RenderInPlace` | internal/webhook/util/configuration/configuration.go:61-82 | the loop over the array returns exactly what is to be delivered, or ends as the first webhook without a path makes it: stopping the program if that names a service, with an error if not |
| `Configuration.Ensurer.Fetch` | internal/webhook/util/configuration/configuration.go:41-48 | both configurations, or a failure |
| `Configuration.Ensurer.Compute` | internal/webhook/util/configuration/configuration.go:52-105 | both rewrites, before any update, despite the shared arrays; when it fails and when the program stops |
| `Configuration.Ensurer.UpdateMutating` | internal/webhook/util/configuration/configuration.go:107-111 | no call if nothing changed, else one update under the version that was read; if that is refused, another replica has made the configuration what is wanted |
| `Configuration.Ensurer.UpdateValidating` | internal/webhook/util/configuration/configuration.go:113-117 | the same for the second configuration |
| `Configuration.Ensurer.Ensure` | internal/webhook/util/configuration/configuration.go:40-120 | with others racing: success leaves both as wanted, a failure without a fault means that another replica got one further, and where both are as wanted nothing can make it fail; alone: it succeeds exactly if both can be rewritten, and has rewritten both, or some or none; either way a success delivers both lists with the given CA; in any case: the sources stay, and a program that stops has written nothing |
| `Configuration.HistoryIndependence` | internal/webhook/util/configuration/configuration.go:61-117 | after any calls, however far each of them got, one that succeeds leaves both configurations a rendering of the first list with its own parameters |
| `Configuration.RepeatWritesNothing` | internal/webhook/util/configuration/configuration.go:107-117 | repeating a call updates nothing |
| `Configuration.StoppedRunIsRepaired` | internal/webhook/util/configuration/configuration.go:107-117 | any runs that stopped midway leave no trace after the next success: it ends as without them |
| `WebhookController.FsCertWriter.DoWrite` | internal/webhook/util/writer/fs.go:93-103 | new certificates are made and published |
| `WebhookController.FsCertWriter.EnsureCert` | internal/webhook/util/writer/fs.go:78-103 | what is returned was valid when it was judged or renewed; valid certificates that are served are returned and nothing is written, missing ones are made, and ones that cannot be read are left alone |
| `WebhookController.Controller.FromSecret` | internal/webhook/util/controller/webhook_controller.go:189-202 | a new writer for the Secret leaves it alone while it is valid, and returns what it holds unless a call fails of itself |
| `WebhookController.Controller.FromFiles` | internal/webhook/util/controller/webhook_controller.go:184-202 | a new writer for the directory returns the certificates it serves while they are valid and writes nothing; if nothing fails of itself it succeeds on an empty directory too |
| `WebhookController.Controller.Provide` | internal/webhook/util/controller/webhook_controller.go:180-202 | the certificates from either store, valid at some moment of the call, and those that are stored while they are valid |
| `WebhookController.DnsNameMeans` | internal/webhook/util/generator/selfsigned.go:42-44 | the name that certificates are for: the host, or the service, its namespace and "svc" |
| `WebhookController.Controller.Publish` | internal/webhook/util/controller/webhook_controller.go:203-209 | with other replicas doing the same: success publishes the certificates and has both configurations deliver their lists with the certificates' CA certificate; where all follows already nothing is written and nothing but a fault can make it fail |
| `WebhookController.Controller.Sync` | internal/webhook/util/controller/webhook_controller.go:170-215 | with either store and other replicas syncing: a success publishes valid certificates and every webhook of both configurations carries their CA certificate; where certificates are stored and valid, everything follows them; without faults it fails only if another replica got further, and alone it succeeds from the first time on; readiness is signalled by the first success and only once |
| `WebhookController.Controller.LaterSyncs` | internal/webhook/util/controller/webhook_controller.go:170-215 | after that no sync writes anything while the certificates are valid, and without faults all succeed, whatever the other replicas do |
| `WebhookController.Controller.Work` | internal/webhook/util/controller/webhook_controller.go:150-168 | a sync that fails is tried again; three attempts are enough, however the replicas race, if nothing fails of itself and nothing stands in the way |
| `WebhookController.FleetConverges` | internal/webhook/util/controller/webhook_controller.go:170-215 | any number of replicas racing over the Secret and then over the configurations: once one has finished, every webhook of both configurations carries the CA certificate of the one stored certificate for good |
| `PodStates.ReservationsOfOneNamespace` | internal/controller/apps/persistentpodstate_statefulset.go:150-150 | within a namespace the names of reservations are different for different pods |
| `PodStates.NamespacesCollideIff` | internal/controller/apps/persistentpodstate_statefulset.go:150-150 | two namespaces can share one exactly when one continues the other with a dash |
| `PodStates.CidrIsOneAddress` | internal/controller/apps/persistentpodstate_statefulset.go:153-155 | a reservation reads back as the one address it is for |
| `PodStates.Reconciler.CreateOrUpdateIPReservation` | internal/controller/apps/persistentpodstate_statefulset.go:142-187 | success leaves exactly the pod's address, as a block of one, in the reservation named after it and no other one changed |
| `PodStates.Reconciler.RecordPods` | internal/controller/apps/persistentpodstate_statefulset.go:63-83 | every recorded pod runs, and its address is in its reservation; every other reservation that is not a listed pod's is untouched, without faults exactly the usable pods are recorded, and each round of the loop is a visit to the next pod of the list |
| `PodStates.Reconciler.SaveRecord` | internal/controller/apps/persistentpodstate_statefulset.go:91-138 | the record is created without status, kept, or replaced, as the tests decide |
| `PodStates.Reconciler.UpdateRetrying` | internal/controller/apps/persistentpodstate_statefulset.go:121-132 | four attempts at most, and not fewer if it gives up on a conflict, each under the version just read; only the status changes, and to nothing but the given one |
| `PodStates.Reconciler.StatefulSetAutoGeneratePersistentPodState` | internal/controller/apps/persistentpodstate_statefulset.go:21-139 | without faults one reconcile is exactly the transition `Reconciled`; with faults only part of it happens |
| `PodStates.ReconciledMeans` | internal/controller/apps/persistentpodstate_statefulset.go:21-139 | what that transition means: the address of each pod that runs is reserved, and a record that does not hold more pods comes to hold exactly those that run, with their nodes and addresses; a missing one is made without any |
| `PodStates.SettlesWithRecord` | internal/controller/apps/persistentpodstate_statefulset.go:111-132 | where a record exists, a second reconcile of resting pods writes nothing |
| `PodStates.SettlesInTwo` | internal/controller/apps/persistentpodstate_statefulset.go:91-132 | two reconciles always suffice, and reach the usable pods unless the record had more |
| `PodStates.NoNameIsLostIff` | internal/controller/apps/persistentpodstate_statefulset.go:116-118 | over a set of pod names a record cannot lose a name exactly when it is empty, larger than the set, or holds exactly the set |
| `PodStates.CountNeverDecreases` | internal/controller/apps/persistentpodstate_statefulset.go:116-132 | whatever fails, a reconcile leaves no fewer recorded pods |
| `Identity.NoFewerIsAll` | internal/controller/apps/persistentpodstate_statefulset.go:116-118 | the pigeonhole: states that agree with the record and are no fewer are the record |
| `Identity.NextAgrees` | internal/controller/apps/persistentpodstate_statefulset.go:63-128 | every step of pods, webhook and reconciler keeps a complete record and everything's agreement with it |
| `Identity.StableIdentity` | internal/controller/apps/persistentpodstate_statefulset.go:63-128 | along every behaviour a complete record never changes, the reservations hold the recorded addresses, and every pod that gets a node and an address gets the recorded ones |
| `Identity.ReconcileIsBehaviour` | internal/controller/apps/persistentpodstate_statefulset.go:21-139 | one reconcile with any failures is a sequence of these steps |
| `Identity.ReconcilerRefines` | internal/controller/apps/persistentpodstate_statefulset.go:21-139 | what the reconciler's contract says of a cluster that has a record is such a sequence, with the same outcome |
| `Identity.TwoReconcilesFixIdentity` | internal/controller/apps/persistentpodstate_statefulset.go:91-132 | once all pods run, two undisturbed reconciles reach such a state |
| `Identity.FailedLookupMovesThePod` | internal/webhook/pod/mutating/mutating_handler.go:288-295 | for every complete record of exactly the pods' names, every pod and every other place: the behaviour in which one failed lookup moves it there and the record with it |
| `Identity.LargerRecordIsFrozen` | internal/controller/apps/persistentpodstate_statefulset.go:116-118 | a record with more names than there are pods never changes, whatever fails |
| `Identity.LookupsMatterIff` | internal/webhook/pod/mutating/mutating_handler.go:288-295 | a failed lookup can change a complete record exactly if it holds the pods' names and no others |
| `Identity.NextKeepsCount` | internal/controller/apps/persistentpodstate_statefulset.go:111-132 | every step, fine-grained, leaves no fewer recorded pods if the record is read as it is; lists of pods may be out of date and lookups may fail |
| `Identity.CountNeverDecreasesOverRuns` | internal/controller/apps/persistentpodstate_statefulset.go:111-132 | so over any behaviour the count never decreases |
| `Identity.StaleReadShrinksTheRecord` | internal/controller/apps/persistentpodstate_statefulset.go:91-118 | whatever pods run and whatever larger record there is: the behaviour in which an outdated read of an empty record makes it shrink to those pods |
| `PodWebhook.GetStatefulSetNameFromPod` | internal/webhook/pod/mutating/mutating_handler.go:338-366 | the first StatefulSet owner, else the stem of a name that ends in a dash and digits, else nothing |
| `PodWebhook.BelongsToOne` | internal/webhook/pod/mutating/mutating_handler.go:338-366 | that determines one name |
| `PodWebhook.UnownedNameMeans` | internal/webhook/pod/mutating/mutating_handler.go:346-362 | without an owner a pod belongs to the names its own is made from by a dash and digits |
| `PodWebhook.OwnerDecides` | internal/webhook/pod/mutating/mutating_handler.go:339-344 | the first owner that is a StatefulSet decides, whatever the pod's name |
| `PodWebhook.PodNameRoundTrip` | internal/webhook/pod/mutating/mutating_handler.go:346-362 | for every StatefulSet name and every ordinal the pod's name leads back to the StatefulSet |
| `PodWebhook.PodMutatingHandler.PinAffinity` | internal/webhook/pod/mutating/mutating_handler.go:305-325 | missing parts of the affinity are made and the required terms are replaced |
| `PodWebhook.PinMeans` | internal/webhook/pod/mutating/mutating_handler.go:297-327 | a pinned pod fits the recorded node alone and asks for the recorded address alone, in the words of the scheduler and the network plugin; everything else of it stays |
| `PodWebhook.PinTwice` | internal/webhook/pod/mutating/mutating_handler.go:297-327 | pinning again changes nothing |
| `PodWebhook.PodMutatingHandler.HandlePodCreate` | internal/webhook/pod/mutating/mutating_handler.go:265-330 | the pod is pinned by the record of its StatefulSet in its namespace, if that is found |
| `PodWebhook.PodMutatingHandler.HandleVMICreate` | internal/webhook/pod/mutating/mutating_handler.go:206-258 | a virtual machine is pinned by the record of its own name |
| `PodWebhook.PodMutatingHandler.HandlePod` | internal/webhook/pod/mutating/mutating_handler.go:136-204 | allowed exactly if nothing changed, otherwise a patch that never changes the pod's own namespace; the lookup uses the request's namespace where the pod has none, and finds the record if there is one and no call fails |
| `PodWebhook.RecordedPodIsPinned` | internal/webhook/pod/mutating/mutating_handler.go:281-327 | the reconciler's key is the webhook's key: a recorded pod is admitted for its recorded node and address |
| `PodWebhook.AdmittedForItsRecord` | internal/webhook/pod/mutating/mutating_handler.go:136-204 | a recorded pod is patched into one that fits its recorded node and asks for its recorded address alone and is the same otherwise, or is allowed as it is if it has this pin already |
| `PodWebhook.OthersAreLetPass` | internal/webhook/pod/mutating/mutating_handler.go:136-204 | any other pod is let pass as it is, but for an empty set of annotations |
| `RequestNames.RoundTripIff` | internal/controller/apps/persistentpodstate_controller.go:75-114 | a printed request is read back with its kind and name exactly when the name has no "#" |
| `RequestNames.FormatSplits` | internal/controller/apps/persistentpodstate_statefulset_handler.go:50-59 | the printed name splits into the prefix, the kind and the pieces of the name |
| `RequestNames.NeverCrossed` | internal/controller/apps/persistentpodstate_event_handler.go:51-60 | a request is never taken for the other kind, and different workloads have different requests |
| `RequestNames.ObjectNameIsBare` | internal/controller/apps/persistentpodstate_controller.go:116-131 | the name of an object is never taken for a printed request |
| `RequestNames.Reconcile` | internal/controller/apps/persistentpodstate_controller.go:73-132 | which workload is reconciled; a bare name means a virtual machine first |

## Left out

- Runs.AtomicPublication: assumes that the hidden entries are the writer's own, that no cleaned key
  is reserved, that no payload name is somebody else's, and that an attempt which finds a name
  without an entry does not fail to read it; `Trace` states what happens to a single write
  otherwise, `SteadyPublication` assumes none of the last two, and `PublicationsNeverMix` says
  what holds of any run without them.
- AtomicWriter.Writer.Write: where the data link is a link, assumes that what it points to is as the
  writer makes it (`Tidy`): one timestamped name, which may be lost, with files and directories of
  proper names below it and no links; and that no accepted key cleans to a reserved name.
- CertDir.CertDirectory.WriteCertsToDir: the directory exists already, and its hidden entries are as
  the writer makes them; making the directory is left out.
- CertDir.CertDirectory.PrepareToWrite: with a fault, a link that cannot be read is removed like a
  file, so that the contract says only which entries may be gone.
- CertWriter.SecretCertWriter.EnsureCert: for one fixed DNS name; how soon it succeeds when replicas
  race to renew an invalid Secret is left out.
- WebhookController.Controller.Sync: whether certificates are kept in the Secret or in the directory
  is a parameter, and does not change between two calls. Convergence is for as long as all
  replicas use the same parameters, which is so while the stored certificates are valid and all
  run with the same handlers, namespace, service, host and port.
- WebhookConfig.TemplateIntegrity: other clients may rewrite a configuration's metadata, not its
  template or its webhooks, and a configuration is not deleted.
- PodStates.Reconciler.UpdateRetrying: the backoff's delays are left out.
- Identity.StableIdentity: a fixed set of pod names, one worker, no virtual machine of the
  StatefulSet's name, and a scheduler and a network plugin that obey the pin; the webhook's lookups
  succeed (`LookupsMatterIff` says when that matters).
- The branch for Windows in the rename step, which is not atomic.
- File modes, owners and the umask; the skip test does not look at them.
- Cryptography and encodings: certificates, PEM and JSON are abstract; unmarshalling undoes
  marshalling, and a missing list equals an empty one.
- The reconcile of a virtual machine, which overwrites its one-entry record with where the machine is now.
- Informers, queues but for the retry, event filters on annotations, rate limits, leader election, health checks and HTTP serving.
- Feature flags and environment variables, which are parameters.
