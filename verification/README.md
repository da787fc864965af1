# Verified models of a Triton control plane

This project models the parts of the system whose guarantees must hold across failures, cancellation and other
clients, and proves them with Dafny 4.11. `dafny verify dfyconfig.toml` checks everything.

| files | what they model |
|---|---|
| `ObjectStore`, `Profiles`, `Selection`, `Planning`, `Transfers`, `TransferOutcomes` | copying and moving S3 objects: selection, paging, conditional copies, re-checked deletions |
| `FileHandles` | S3 files opened, written and closed in the editor: optimistic concurrency over the same store |
| `Exposure`, `AccessUpdate` | credential rotation for a deployment's Ingress over three Kubernetes object kinds |
| `Hostname` | when two Ingress host rules overlap, and the scan that keeps routes disjoint |
| `Lifecycle`, `LifecycleRuns`, `Accounts`, `RateLimit` | local accounts: invitations, resets, logins, credential epochs and recovery limits |
| `JsonValues`, `Tracking`, `CreatorFields` | the MLflow gateway that stamps and protects creators |
| `FolderSplice`, `UploadPlan` | workspace folders as one minimal splice; planning an upload over a file tree |
| `Digits`, `Text`, `Codec`, `XmlText`, `S3Url` | percent and XML codecs, and the S3 URL printer with its two parsers |

How the models are built:

- **The S3 service** keeps a log of events. Every request is one step; before it other clients may have done anything,
  and it may fail, committed or not. Safety is a property of the log, so it covers every interleaving. ETags are strong
  validators: equal tags mean equal content, and the server may or may not repeat a tag for the same content. What goes
  wrong is in the log as well, so that a failure without a trouble before it has a stated reason. Objects
  are at a server, and which server the text of an endpoint reaches is any function; the program compares the texts.
- **Kubernetes** calls end committed, definitively rejected, or open. `Exposure` is the state machine of any number of
  concurrent updates; `AccessUpdate` is the program text, with others acting between its calls, proved to be one run of it.
- **Account requests** are atomic. `Lifecycle` says what each does to the tables, `Accounts` does it row by row,
  `LifecycleRuns` proves what every sequence of requests keeps.
- **The MLflow server** is a relation that allows any behaviour consistent with its routes; on paths outside the REST
  interface it may do anything.

## Where the code falls short of what it promises

Each is proved with the exact condition under which it happens, most also with a concrete case:

- A move can be made onto itself, in three cases (`SelfOverwrite`): a file whose key ends in a slash, into the folder of
  that prefix (`MarkerPassesCheck`; the editor's own listings show no such file); an item whose profile named another
  store when the self-copy check read it (`StaleCheckPasses`); and an item whose endpoint is spelled differently from the
  target's but reaches the same server, as `https://h` and `https://h:443` do (`RespelledEndpointPasses`,
  `SpellingsOfOneOrigin`). The object is then lost where the service gives the same bytes the same ETag again
  (`SelfMoveLosesExactly`).
- A copy or move can write one object over the source of a later one, whose content is then lost (`CopyArrivesExactly`,
  `MoveArrivesExactly`, `ChainedMoveLoses`); over the source of an earlier one, a move does not end well
  (`OverwrittenSourceStops`). The condition on nodes and target is `DestinationCanBeSourceExactly`, the case for both
  orders `DestinationCanBeSource`.
- An object selected through two profiles of one bucket is planned twice, and a move then fails at the second deletion
  (`PlannedOnceExactly`, `TwoProfilesPlanTwice`, `SecondRemovalRefused`).
- A file opened for writing while the service leaves out its ETag is treated as absent: when someone else deletes it, the
  upload replaces an absence that its open never saw (`CommitReplacesWhatOpenSaw`, `UnprotectedCommit`).
- A selected node is dropped when another of the same profile and key but another bucket follows it (`SelectionCovers`,
  `StaleBucketIsDropped`).
- A successful update strands the Secret that an nginx annotation names beside the system's own annotation
  (`OrphansGrowOnlyWhenStranded`, `StrandedSecretIsLeft`).
- Deleting an account and creating it again lets an access token of the old account be honoured again
  (`HonouredExactly`, `RecreatedAccountHonoursOldToken`).
- A file can be planned twice when a selection lies below a symbolic link (`UploadedOnceExactly`,
  `LinkedSelectionUploadsTwice`).
- An XML reference spelled `&AMP;` decodes to the text "undefined" (`NamesAreCaseSensitive`).
- A repository prefix with an empty part, or with a character that a URL reads as query, fragment or parameter, is not
  recovered from the printed URL (`PrintThenParse`).

## Model

| member | source | states |
|---|---|---|
| `ObjectStore.Remote.Stat` | code-server-extensions/triton-deploy/s3-client.js:207-221 | A HEAD request sees exactly the version stored at that moment; it fails, or lacks the ETag, only where something goes wrong. |
| `ObjectStore.Remote.Download` | code-server-extensions/triton-deploy/s3-client.js:222-253 | With If-Match, a successful GET returns the bytes of exactly that version, at most 5 GiB; unless something goes wrong it fails only where that version is not there or is larger; it changes nothing. |
| `ObjectStore.Remote.DownloadAny` | code-server-extensions/triton-deploy/s3-client.js:222-253 | Without an ETag, a successful GET returns the bytes of the version stored then. |
| `ObjectStore.Remote.Upload` | code-server-extensions/triton-deploy/s3-client.js:254-280 | A PUT is conditional on the version (If-Match) or absence (If-None-Match) it was given; a failed PUT may have been committed once, and unless something goes wrong fails only on that condition; more than 5 GiB sends nothing. |
| `ObjectStore.Remote.Remove` | code-server-extensions/triton-deploy/s3-client.js:281-284 | A DELETE with a tag removes only that version; a failed one may have been committed once, and unless something goes wrong fails only because that version is not there; an empty key sends nothing. |
| `ObjectStore.Remote.Interfere` | code-server-extensions/triton-deploy/s3-client.js:98-148 | Before each request other clients may have written or deleted any object any number of times. |
| `ObjectStore.UntouchedKeeps` | code-server-extensions/triton-deploy/s3-client.js:254-284 | In a legal history an object nobody wrote between two points is the same at both. |
| `ObjectStore.LegalAt` | code-server-extensions/triton-deploy/s3-client.js:254-284 | Every event of a legal history was permitted by the objects stored just before it. |
| `Profiles.Bind` | code-server-extensions/triton-deploy/s3-transfers.js:10-27 | A node is bound exactly when it is a file or folder, in the profile's bucket and below the folder of its prefix; the binding holds the profile's endpoint, bucket, folder and addressing, and the server that the endpoint reaches. |
| `Profiles.Current` | code-server-extensions/triton-deploy/s3-transfers.js:17-27 | A later use of the binding succeeds exactly while the profile can be read, still validates and points to the bound endpoint, bucket, root prefix and path style; so it names the same store. |
| `Profiles.SamePlaceExactly` | code-server-extensions/triton-deploy/s3-transfers.js:8-9 | Two readings of a profile point to one place if and only if endpoint, bucket, addressing and the folder of the prefix are the same. |
| `Profiles.RootPrefixIs` | code-server-extensions/triton-deploy/s3-transfers.js:8 | The folder of a profile is its prefix without slashes at the ends and with one behind it, or everything. |
| `Text.TrimmedExactly` | code-server-extensions/triton-deploy/s3-transfers.js:8 | Trimming takes all slashes from both ends, and nothing else. |
| `Profiles.SpellingsOfOneOrigin` | code-server-extensions/triton-deploy/s3-client.js:28-86 | Endpoints that differ in the case of the host, or in naming port 443 after https, send requests to one origin, while the program compares their texts and takes them for two stores. |
| `Selection.UniqueIsLast` | code-server-extensions/triton-deploy/s3-transfers.js:28-29 | The deduplicating map keeps exactly the last node of every identity. |
| `Selection.SelectionIsAntichain` | code-server-extensions/triton-deploy/s3-transfers.js:28-36 | The reduced selection has no duplicates, consists of input nodes none of which is below another, and no node lies at or below two of them. |
| `Selection.HasTopmost` | code-server-extensions/triton-deploy/s3-transfers.js:34-35 | Every deduplicated node lies at or below some topmost one. |
| `Selection.SelectionCovers` | code-server-extensions/triton-deploy/s3-transfers.js:28-36 | Every input node lies at or below a selected one if and only if each lies at or below the last node of some identity (the map key leaves out the bucket). |
| `Selection.OneBucketIsRepresented` | code-server-extensions/triton-deploy/s3-transfers.js:28-36 | That condition holds whenever the nodes of one profile name one bucket. |
| `Selection.StaleBucketIsDropped` | code-server-extensions/triton-deploy/s3-transfers.js:29 | Otherwise it can fail: of two nodes with one profile and key but different buckets the first is dropped. |
| `Selection.RefusedExactly` | code-server-extensions/triton-deploy/s3-transfers.js:30-33 | A selection is refused if and only if a node that the map keeps is a profile root, has no path, or is neither file nor folder. |
| `Planning.ChainIsUnique` | code-server-extensions/triton-deploy/s3-transfers.js:59-68 | A listing whose pages name their successors can be read in one order only. |
| `Planning.AddAll` | code-server-extensions/triton-deploy/s3-transfers.js:45-51 | A page is accepted if and only if every key is in the selection, no object is over 5 GiB and there are at most 10,000 entries in all; then the entries are exactly its keys. |
| `Planning.AddFolder` | code-server-extensions/triton-deploy/s3-transfers.js:57-69 | Whatever each page request answers, and however the store changes between them: reading terminates on every finite listing, follows the continuation tokens to the end, uses no token twice, and collects exactly the listed keys, all of them under the prefix; it fails only where a request or the profile does, or no listing that could be accepted was answered. |
| `Planning.FolderIsExact` | code-server-extensions/triton-deploy/s3-transfers.js:57-69 | If the pages are a faithful listing, in any paging, the entries of a folder are exactly the objects below its prefix. |
| `Planning.PlanNode` | code-server-extensions/triton-deploy/s3-transfers.js:39-70 | One selected node, never the root of its profile, yields entries that lie under it and, without interference, are exactly the stored objects under it; undisturbed, it fails only where the file is not there or too large or the folder has no acceptable listing. |
| `Planning.CheckRelatives` | code-server-extensions/triton-deploy/s3-transfers.js:71-75 | The check passes if and only if all relative names are distinct. |
| `Planning.Plan` | code-server-extensions/triton-deploy/s3-transfers.js:37-77 | A successful plan has distinct relative names and each key of a binding once, binds each selected node in its own bucket, only reads, and without interference holds exactly the objects under every selected node; undisturbed, it fails only for a refused selection, a node that cannot be planned behind the others, or two equal names. |
| `Planning.PlannedOnceExactly` | code-server-extensions/triton-deploy/s3-transfers.js:28-77 | Each stored object is planned once if and only if no binding that has objects is inside another binding that reaches the same bucket of the same server, however the endpoints are spelled. |
| `Planning.SeparateBindingsPlanOnce` | code-server-extensions/triton-deploy/s3-transfers.js:37-77 | Whatever happens meanwhile, bindings none of which is inside another at the same server and bucket plan no object twice. |
| `Planning.OnlyProfilesOverlap` | code-server-extensions/triton-deploy/s3-transfers.js:28-36 | One binding is inside another only for nodes of two different profiles. |
| `Planning.TwoProfilesPlanTwice` | code-server-extensions/triton-deploy/s3-transfers.js:28-77 | That happens for any two endpoints, alike or not, that reach one server: two folders of two profiles on one bucket pass the selection and the name check, and plan one object twice. |
| `Transfers.Decide` | code-server-extensions/triton-deploy/s3-transfers.js:132-137 | The destination is looked at and, if an object with an ETag is there, the user is asked about that version: a replacement is confirmed by a question that followed this very HEAD request, with nothing but other clients in between. |
| `Transfers.Read` | code-server-extensions/triton-deploy/s3-transfers.js:138-142 | The bytes are those of exactly the source version whose ETag the HEAD request returned; undisturbed, every object up to 5 GiB is read. |
| `Transfers.Prepare` | code-server-extensions/triton-deploy/s3-transfers.js:127-142 | Before an upload both profiles are unchanged, the decision and the read are made for the same entry, nothing is written, and the version to replace is the one the question followed; undisturbed, it ends early only when the user cancels or the source cannot be read. |
| `Transfers.Send` | code-server-extensions/triton-deploy/s3-transfers.js:143-149 | The upload happens only while both profiles, read again, are unchanged; its write is justified and its commit is backed by a read and a store in the history. |
| `Transfers.CopyEntry` | code-server-extensions/triton-deploy/s3-transfers.js:126-150 | One iteration of the copy loop settles its entry (copied or skipped), deletes nothing, and replaces nothing but the version the question followed; undisturbed, it is aborted only when the user cancels or the source cannot be read. |
| `Transfers.CopyPhase` | code-server-extensions/triton-deploy/s3-transfers.js:126-150 | After the copy loop every entry is copied or skipped; in the history there are as many stores as copies and as many skip answers as skips (one store more, if its answer was lost); without skips and interference the contents are those of copying entry after entry. |
| `Transfers.StillCopied` | code-server-extensions/triton-deploy/s3-transfers.js:153-156 | The check before a deletion passes only if the profile of the destination is unchanged and the destination holds the uploaded version at that moment; undisturbed, it then does pass. |
| `Transfers.RemoveSource` | code-server-extensions/triton-deploy/s3-transfers.js:152-159 | One deletion removes only the version that was copied, right after its copy was seen in place, while both profiles are unchanged. |
| `Transfers.RemovalIsJustified` | code-server-extensions/triton-deploy/s3-transfers.js:152-158 | A deletion right after the check is justified: every entry settled, the deleted version copied, its copy just seen. |
| `Transfers.DeletePhase` | code-server-extensions/triton-deploy/s3-transfers.js:151-160 | Every deletion of the delete loop is justified, nothing is stored, and without interference the store loses exactly the sources; the loop does not end well when a source it deleted is the source or the destination of a later entry. |
| `Transfers.Execute` | code-server-extensions/triton-deploy/s3-transfers.js:122-164 | Copy and delete phases together are safe; the history holds exactly the copied, deleted and skipped of the report, after an error perhaps one store or one deletion more, whose answer was lost; undisturbed and not cancelled, entries that can be read and are not copied over each other all go through. |
| `Transfers.Transfer` | code-server-extensions/triton-deploy/s3-transfers.js:107-165 | The whole operation, under any interference, failure and cancellation: no source is deleted before every entry is settled, or in another version than the copied one, or without its copy just seen; no destination is replaced other than in the version asked about; the three counts of the report, of a success or an error, are those of the stores, deletions and skip answers in the history (but for one write whose answer was lost); deleted = copied for a move; without skips and interference the resulting contents are exactly the expected ones, each source was there when read, and no deleted source is that or the destination of a later entry; and undisturbed it fails only for the stated refusals. |
| `TransferOutcomes.CopyEqualsDeleted` | code-server-extensions/triton-deploy/s3-transfers.js:138-158 | In a legal history the deleted bytes equal the bytes that the copy held at the last check. |
| `TransferOutcomes.DeletedContentSurvives` | code-server-extensions/triton-deploy/s3-transfers.js:151-158 | For every justified deletion the deleted content is at the destination, and still there afterwards unless someone else wrote to it in between. |
| `TransferOutcomes.DisjointCopy` | code-server-extensions/triton-deploy/s3-transfers.js:126-160 | When no destination is a source, a copy puts each source at its destination and changes nothing else; a move does the same and has no source left. |
| `TransferOutcomes.MoveArrivesExactly` | code-server-extensions/triton-deploy/s3-transfers.js:126-160 | A quiet move that ends well copies no entry over an earlier source, and has every source's content at its destination if and only if it copies none over its own or a later one. |
| `TransferOutcomes.CopyArrivesExactly` | code-server-extensions/triton-deploy/s3-transfers.js:126-150 | A quiet copy that ends well has every source's content at its destination if and only if no entry is copied over a later source that held something else. |
| `TransferOutcomes.ChainedMoveLoses` | code-server-extensions/triton-deploy/s3-transfers.js:126-160 | For any two entries, the first copied over the later one's source: a history of the thirteen requests that is always legal, meets every safety condition, is the expected outcome, and leaves the content of the first object only. |
| `TransferOutcomes.OverwrittenSourceStops` | code-server-extensions/triton-deploy/s3-transfers.js:151-158 | In the other order the deletion of the overwritten source succeeds only where the service repeats its ETag for the copy, and then the check before the later deletion misses the copy unless someone else stores an object there. |
| `TransferOutcomes.SeparateTransferArrives` | code-server-extensions/triton-deploy/s3-transfers.js:107-165 | The whole operation, quiet, without skips and ended well, on nodes whose regions are separate: each source was there and its content is at its destination, the sources are gone exactly for a move, and everything else is as it was. |
| `TransferOutcomes.DestBelowRoot` | code-server-extensions/triton-deploy/s3-transfers.js:43-49 | A destination is the destination root of the node, then what follows the node's path in the source key. |
| `TransferOutcomes.DestinationCanBeSourceExactly` | code-server-extensions/triton-deploy/s3-transfers.js:107-136 | An object of one node can have an object of another as its destination if and only if the regions of their keys meet at one server, which nodes, target and the servers they reach tell before the call. |
| `TransferOutcomes.SeparateRegionsAreDisjoint` | code-server-extensions/triton-deploy/s3-transfers.js:107-136 | Where no regions meet, every transfer is a disjoint one, whatever is stored. |
| `TransferOutcomes.CopyAllAt` | code-server-extensions/triton-deploy/s3-transfers.js:126-150 | With distinct destinations, none a source, each source arrives. |
| `TransferOutcomes.PlannedDestsDistinct` | code-server-extensions/triton-deploy/s3-transfers.js:71-75 | Planned entries have distinct destinations under their own names, and under a new name when they come from one node. |
| `TransferOutcomes.SelfOverwrite` | code-server-extensions/triton-deploy/s3-transfers.js:112-120 | What passed the self-copy check is written onto its own source if and only if it is a slash-ended file copied under its own name into the folder of that prefix, or the destination name is its own and either its profile named another store when it was checked than when it was bound, or its endpoint and the target's are spelled differently and reach one server. |
| `TransferOutcomes.MarkerPassesCheck` | code-server-extensions/triton-deploy/s3-transfers.js:112-120 | The first case: the object a/ moved into the folder a/, which a caller other than the editor's listings can ask for. |
| `TransferOutcomes.StaleCheckPasses` | code-server-extensions/triton-deploy/s3-transfers.js:112-121 | The second case: the file a/x moved into its own folder while its profile named another store. |
| `TransferOutcomes.RespelledEndpointPasses` | code-server-extensions/triton-deploy/s3-transfers.js:112-120 | The third case: the file a/x moved into its own folder, for any two endpoints of different text that reach one server. |
| `TransferOutcomes.MoveOntoItselfLoses` | code-server-extensions/triton-deploy/s3-transfers.js:112-160 | A move of one object onto itself leaves the store without it; onto any other key it leaves its content there. |
| `TransferOutcomes.SelfMoveLosesExactly` | code-server-extensions/triton-deploy/s3-transfers.js:126-160 | The seven requests of a move onto itself meet every safety condition and end with the object gone; the service permits them if and only if it gives the same bytes the same ETag again, and otherwise refuses the deletion. |
| `TransferOutcomes.SecondRemovalRefused` | code-server-extensions/triton-deploy/s3-transfers.js:152-159 | An object planned twice is deleted once: the second conditional deletion is refused unless someone stored it again. |
| `TransferOutcomes.DestinationCanBeSource` | code-server-extensions/triton-deploy/s3-transfers.js:112-120 | The self-copy check does not rule that out: moving q/q/ to the root passes it; q/q/q/z is then copied over q/q/z before that is copied to q/z, and q/q/q/a over q/q/a after that was copied to q/a. |
| `Transfers.CheckSelfCopies` | code-server-extensions/triton-deploy/s3-transfers.js:112-120 | The check passes only if no selected item would be copied onto itself or below itself, and unless a profile cannot be read it refuses only such an item. |
| `TransferOutcomes.SelfCopyExactly` | code-server-extensions/triton-deploy/s3-transfers.js:112-120 | What the check compares is, at one address, that the destination root of the item is its own key, or that the target lies in the folder. |
| `FileHandles.FileSystem.Look` | code-server-extensions/triton-deploy/s3-filesystem.js:145-150 | The first part of open: a key strictly below the folder of the prefix, an object that is there unless one is to be created, and at most 5 GiB, is all it needs; whether there was an object, its ETag if the answer had one, and its metadata are remembered with the handle to be. |
| `FileHandles.FileSystem.Fetch` | code-server-extensions/triton-deploy/s3-filesystem.js:153 | The second part of opening for reading: with an ETag the bytes of exactly the version seen, without one those stored at the request. |
| `FileHandles.FileSystem.Register` | code-server-extensions/triton-deploy/s3-filesystem.js:154-158 | The last part of open: a number never given out before. |
| `FileHandles.FileSystem.Open` | code-server-extensions/triton-deploy/s3-filesystem.js:145-160 | With any parts of other calls and writes of other clients in between: the new handle has a number nobody ever had and is bound to what its own HEAD request answered (no object, or one with or without its ETag); opened for reading with an ETag it holds that version's bytes. |
| `FileHandles.FileSystem.Write` | code-server-extensions/triton-deploy/s3-filesystem.js:166-175 | A write changes the local copy of that handle only: the bytes are at the position, all others are where they were, a gap is zero; one that fails or goes beyond 5 GiB spoils the handle for good. |
| `FileHandles.FileSystem.Abort` | code-server-extensions/triton-deploy/s3-filesystem.js:176-182 | An aborted handle leaves the table and never uploads; aborting again does nothing. |
| `FileHandles.FileSystem.Leave` | code-server-extensions/triton-deploy/s3-filesystem.js:183-186 | The first part of close: the handle leaves the table; only a writable one without a failed write goes on to upload. |
| `FileHandles.FileSystem.Finish` | code-server-extensions/triton-deploy/s3-filesystem.js:187-195 | The second part of close uploads the bytes on the condition of what the handle's open saw; if the profile, read again, no longer points to the place it was opened at, no request is sent. |
| `FileHandles.FileSystem.Others` | code-server-extensions/triton-deploy/s3-filesystem.js:11-196 | Any number of parts of other calls, in any order, keep the invariant of the handle table and leave this caller's own call undisturbed. |
| `FileHandles.FileSystem.Close` | code-server-extensions/triton-deploy/s3-filesystem.js:183-196 | With any parts of other calls in between: closing removes the handle for good and uploads at most once, exactly its bytes, and only for a writable handle without a failed write; it fails only where something goes wrong or the object is not what open saw any more; closing again does nothing. |
| `FileHandles.UploadStep` | code-server-extensions/triton-deploy/s3-filesystem.js:183-196 | An upload keeps the invariant of the handle table: every upload is the only one of its handle, unspoiled, and conditional on its own sight. |
| `FileHandles.ChainLink` | code-server-extensions/triton-deploy/s3-filesystem.js:183-196 | In a legal history an upload is conditional on exactly what the last write to its key left, so the writes to a key form a chain. |
| `FileHandles.CommitReplacesWhatOpenSaw` | code-server-extensions/triton-deploy/s3-filesystem.js:145-196 | An upload of a handle replaces exactly what its own open saw, the version or the absence, if and only if the HEAD request of open answered with an ETag or a 404. |
| `FileHandles.UnprotectedCommitFollowsDeletion` | code-server-extensions/triton-deploy/s3-filesystem.js:145-196 | Otherwise an upload reaches the store only where someone else deleted, after open, the object that open had seen. |
| `FileHandles.UnprotectedCommit` | code-server-extensions/triton-deploy/s3-filesystem.js:145-196 | That happens: a legal history of such an upload, for every pair of blobs with the same metadata. |
| `FileHandles.CommitStoresSeenMetadata` | code-server-extensions/triton-deploy/s3-filesystem.js:158-193 | An upload stores the metadata that its own open saw. |
| `FileHandles.CommitFollowsLastWrite` | code-server-extensions/triton-deploy/s3-filesystem.js:183-196 | The ETag that open saw is that of the last write before the upload. |
| `FileHandles.NoLostUpdate` | code-server-extensions/triton-deploy/s3-filesystem.js:145-196 | When a handle uploads over an upload made after it was opened, the bytes replaced are the very bytes it saw when opened. |
| `Exposure.DropSecretSound` | triton-backend/app/services/deployment/access.py:120-129 | Deleting a Secret takes away the Middlewares it owns and no others. |
| `Exposure.ClusterKeeps` | triton-backend/app/services/deployment/access.py:132-257 | Every API call of an update keeps the live Ingress on an existing Secret with its Middleware. |
| `Exposure.OtherKeeps` | triton-backend/app/services/deployment/access.py:132-257 | What one update knows of the cluster stays true under the steps of another. |
| `Exposure.StepKeeps` | triton-backend/app/services/deployment/access.py:132-257 | Every step of any of any number of concurrent updates keeps the global invariant. |
| `Exposure.CredentialSafety` | triton-backend/app/services/deployment/access.py:132-257 | For any number of concurrent updates, in any order, with any call committed, rejected or left open: the live Ingress, if it names an auth Secret, names one that exists with its Middleware. |
| `Exposure.UndoRestores` | triton-backend/app/services/deployment/access.py:192-194 | Deleting the new Secret after a rejected write restores Secrets, Middlewares and Ingress. |
| `Exposure.RollbackAndOrphans` | triton-backend/app/services/deployment/access.py:155-225 | An update alone: refused or definitively rejected with clean-up answered, it changed nothing; successful, the Ingress is as requested (host, and no, new or the retained credentials, which were this deployment's, filled and behind an intact Middleware), an intact Middleware is in front of it, and the unreferenced owned Secrets are those there were, plus one an nginx annotation named beside the system's own one. |
| `Exposure.WrittenIsEnforced` | triton-backend/app/services/deployment/access.py:181-217 | Over every interleaving, whatever the Middlewares were at the start: an Ingress written by any of the updates names no Secret but one that exists with an intact Middleware. |
| `Exposure.SucceedsExactly` | triton-backend/app/services/deployment/access.py:132-257 | An update whose checks are granted and whose calls are answered succeeds if and only if it keeps no credentials, or keeps owned, filled ones behind an intact Middleware. |
| `Exposure.RefusedLeavesNoSecret` | triton-backend/app/services/deployment/access.py:168-217 | Whatever any number of other updates do meanwhile: one that ends refused has left no Secret of its own, and the Ingress does not name it. |
| `Exposure.OrphansGrowOnlyWhenStranded` | triton-backend/app/services/deployment/access.py:138-141 | In a successful update the number of unreferenced owned Secrets grows if and only if the Ingress had such a second annotation. |
| `Exposure.StrandedSecretIsLeft` | triton-backend/app/services/deployment/access.py:138-225 | For every cluster with such an annotation there is a successful update, withdrawing the Ingress, that leaves that Secret behind. |
| `Exposure.StrandedClusterExists` | triton-backend/app/services/deployment/access.py:138-141 | Such clusters exist, and are safe. |
| `AccessUpdate.Namespace.ReadIngress` | triton-backend/app/services/deployment/access.py:228-250 | The Ingress is read after the policy checks; a failed check ends the update before any write. |
| `AccessUpdate.Namespace.Prepare` | triton-backend/app/services/deployment/access.py:132-165 | Credentials are retained only if owned and filled, new ones get a fresh name, and all validation ends before any write. |
| `AccessUpdate.Namespace.CreateSecret` | triton-backend/app/services/deployment/access.py:168-180 | The new Secret is created before the route uses it; an error ends the update. |
| `AccessUpdate.Namespace.CreateMiddleware` | triton-backend/app/services/deployment/access.py:181-188 | The Middleware of a new Secret; an API error leads to the deletion of that Secret. |
| `AccessUpdate.Namespace.ValidateMiddleware` | triton-backend/app/services/deployment/access.py:189-190 | Retained credentials pass only with a Middleware that exists and is intact at that moment. |
| `AccessUpdate.Namespace.WriteIngress` | triton-backend/app/services/deployment/access.py:191-217 | The Ingress is replaced by its resourceVersion or created; only a definitive rejection leads to the deletion of the new Secret. |
| `AccessUpdate.Namespace.DeleteIngress` | triton-backend/app/services/deployment/access.py:218-223 | An Ingress that is no longer wanted is deleted by its resourceVersion. |
| `AccessUpdate.Namespace.DeleteSecret` | triton-backend/app/services/deployment/access.py:120-129 | A Secret is deleted only if it bears this deployment's label; a missing one is no error. |
| `AccessUpdate.Namespace.UpdateAccess` | triton-backend/app/services/deployment/access.py:228-257 | The call sequence of the program is one run of the state machine whatever others do between its calls, so it is safe and what was written is behind an intact Middleware; alone, a success puts the requested Ingress in place and it has the rollback and orphan properties. |
| `Hostname.OverlapIsExact` | triton-backend/app/services/deployment/hostname.py:27-42 | Two rules overlap if and only if some concrete host is routed by both (empty rule: every host; wildcard: one non-empty label; ASCII letters compare without case). |
| `Hostname.OverlapIsSymmetric` | triton-backend/app/services/deployment/hostname.py:27-42 | The test is symmetric. |
| `Hostname.CommonHostOverlaps` | triton-backend/app/services/deployment/hostname.py:27-42 | Rules with a common host overlap. |
| `Hostname.OverlapHasHost` | triton-backend/app/services/deployment/hostname.py:27-42 | Overlapping rules have a common host that is a name, not a rule, and it is given. |
| `Hostname.WildcardsDiffer` | triton-backend/app/services/deployment/hostname.py:35-41 | One wildcard rule covers another only if they are the same rule. |
| `Hostname.CaseAndDots` | triton-backend/app/services/deployment/hostname.py:28 | Case and a trailing dot do not matter to a rule. |
| `Hostname.ValidateHostnameAvailable` | triton-backend/app/services/deployment/hostname.py:45-77 | The scan with its class cache gives the verdict of the cache-free definition: a conflict at the first blocking route unless a class lookup failed before it. |
| `Hostname.SpecClassDecides` | triton-backend/app/services/deployment/hostname.py:62-73 | The class of the spec decides about a route, whatever its annotation says; the annotation does where the spec names none. |
| `Hostname.UnclassifiedBlocks` | triton-backend/app/services/deployment/hostname.py:62-73 | An overlapping route without a class blocks. |
| `Hostname.ChangeKeepsDisjoint` | triton-backend/app/services/deployment/hostname.py:45-77 | Every accepted write, also one that takes over an Ingress of its own name, keeps the managed hosts of a class pairwise non-overlapping. |
| `Hostname.HostsStayDisjoint` | triton-backend/app/services/deployment/access.py:155-158 | Over every sequence of accepted writes, deletions and foreign changes no host is routed by two managed Ingresses. |
| `Lifecycle.RevokedKeeps` | triton-backend/app/services/auth/account_lifecycle.py:66-70 | Revocation closes every open token it concerns and keeps consumed and revoked exclusive. |
| `Lifecycle.IssuedKeeps` | triton-backend/app/services/auth/account_lifecycle.py:73-90 | Issuing leaves at most one open token per user and purpose. |
| `Lifecycle.IssueSupersedes` | triton-backend/app/services/auth/account_lifecycle.py:73-90 | A new token is usable exactly until its lifetime ends, no other token of its user and purpose is usable any more, all others are as they were. |
| `Lifecycle.CompletedKeeps` | triton-backend/app/services/auth/account_lifecycle.py:295-301 | A completion leaves the user no open token of any purpose. |
| `Lifecycle.DeleteKeeps` | triton-backend/app/repositories/users.py:74-88 | Deleting a user leaves every token with an existing user and creator. |
| `Lifecycle.HandleKeeps` | triton-backend/app/services/auth/account_lifecycle.py:187-396 | Each of eleven requests keeps the tables valid: one open token per user and purpose, consumed and revoked exclusive, every token of an existing user. |
| `LifecycleRuns.RunKeeps` | triton-backend/app/services/auth/account_lifecycle.py:187-396 | So does every sequence of requests. |
| `LifecycleRuns.RunSettles` | triton-backend/app/services/auth/account_lifecycle.py:66-116 | Over every run consumed and revoked are final and deleted tokens do not return. |
| `LifecycleRuns.CompletionNeeds` | triton-backend/app/services/auth/account_lifecycle.py:93-116 | A completion needs an open, unexpired token of the right purpose, for an inactive (invitation) or active (reset) local account, and spends it. |
| `LifecycleRuns.CompletionCloses` | triton-backend/app/services/auth/account_lifecycle.py:287-303 | It closes all tokens of its user and changes only that user's row: new password, active, next epoch. |
| `LifecycleRuns.CompletesAtMostOnce` | triton-backend/app/services/auth/account_lifecycle.py:373-396 | Over every run each token completes at most one operation. |
| `LifecycleRuns.EpochCounts` | triton-backend/app/services/auth/account_lifecycle.py:295-298 | The credential version of a row counts exactly its activations, completed resets and claiming self-registrations; its address never changes and deleted ids do not return. |
| `LifecycleRuns.RunKeepsRow` | triton-backend/app/services/auth/account_lifecycle.py:187-396 | A row that is not rekeyed and not deleted is as it was. |
| `LifecycleRuns.LogsInExactly` | triton-backend/app/services/auth/local_auth.py:110-123 | In a system with accounts a login succeeds if and only if it is allowed and the address has a local row with this password that is active or pending. |
| `LifecycleRuns.SelfRegisteredWaits` | triton-backend/app/services/auth/local_auth.py:110-168 | Whoever registers an unknown address cannot log in, with any password, until a step of the run activates the account. |
| `LifecycleRuns.OldLoginsAreRejected` | triton-backend/app/core/security.py:60-65 | While the row that logged in exists, its access token is honoured if and only if there was no rekeying since. |
| `LifecycleRuns.HonouredExactly` | triton-backend/app/core/security.py:56-65 | In general a later row at the same address honours the token if and only if it was rekeyed as often as the token's epoch says. |
| `LifecycleRuns.RecreatedAccountHonoursOldToken` | triton-backend/app/services/auth/local_auth.py:90-135 | So deleting and re-creating an account revives its old tokens: a concrete run. |
| `Accounts.Tables.Revoke` | triton-backend/app/services/auth/account_lifecycle.py:66-70 | The loop over the rows revokes exactly those. |
| `Accounts.Tables.Issue` | triton-backend/app/services/auth/account_lifecycle.py:73-90 | Revocation, then the new token. |
| `Accounts.Tables.ValidToken` | triton-backend/app/services/auth/account_lifecycle.py:93-116 | A token is found if and only if it has the purpose, is open, unexpired, and its user exists. |
| `Accounts.Tables.Complete` | triton-backend/app/services/auth/account_lifecycle.py:295-301 | Row, token and revocations, step by step, are the completion of the specification. |
| `Accounts.Tables.Invite` | triton-backend/app/services/auth/account_lifecycle.py:187-227 | While delivery works an unknown address gets one new inactive account without a password, found under its address, and its invitation, with the right lifetime and issuer, as its one token; in every other case nothing changes. |
| `Accounts.Tables.Reissue` | triton-backend/app/services/auth/account_lifecycle.py:230-254 | For an inactive local account the new invitation is its one open invitation, with the right lifetime and issuer, exactly the earlier open ones are revoked, and other tokens and all rows are as they were, even when delivery then finds that it is disabled; for any other account nothing changes. |
| `Accounts.Tables.RevokeInvitation` | triton-backend/app/services/auth/account_lifecycle.py:257-271 | Exactly the open invitations of an existing user are revoked; other tokens, and all rows, are as they were. |
| `Accounts.Tables.AdminReset` | triton-backend/app/services/auth/account_lifecycle.py:306-337 | For an active local account, and while delivery works, the new reset token is its one open reset token, exactly the earlier open ones are revoked; otherwise nothing changes. |
| `Accounts.Tables.Forgot` | triton-backend/app/services/auth/account_lifecycle.py:351-370 | The answer is the same for every address; an active local account with a password has one open reset token, the new one, and otherwise nothing changes. |
| `Accounts.Tables.Activate` | triton-backend/app/services/auth/account_lifecycle.py:287-303 | It succeeds if and only if the password is strong and the token is an open, unexpired invitation of an inactive local account; then it sets the password, activates the account in the next epoch, consumes the token and revokes exactly the other open ones of the account; a failure changes nothing. |
| `Accounts.Tables.CompleteReset` | triton-backend/app/services/auth/account_lifecycle.py:373-396 | It succeeds if and only if the password is strong and the token is an open, unexpired reset token of an active local account; then it sets the password in the next epoch, consumes the token and revokes exactly the other open ones of the account; a failure changes nothing. |
| `Accounts.Tables.Login` | triton-backend/app/services/auth/local_auth.py:90-135 | In a system with accounts exactly the password of a local row that is active or pending logs in, to claims that are honoured; only the first login of an empty system writes anything, its administrator. |
| `Accounts.Tables.SelfRegister` | triton-backend/app/services/auth/local_auth.py:138-168 | It succeeds if and only if it is allowed and the address is unknown, or known as a local account without a password while delivery is disabled; the latter is claimed in the next epoch, the former becomes an inactive account; tokens, and after a refusal everything, are as they were. |
| `Accounts.Tables.Register` | triton-backend/app/services/auth/local_auth.py:171-201 | A known address is refused and nothing changes; otherwise one account without a password is added, active if it is an OIDC one. |
| `Accounts.Tables.Delete` | triton-backend/app/repositories/users.py:74-88 | Exactly the tokens of the user and the row go; those the user created for others lose that note, and every other row and token is as it was. |
| `Accounts.Tables.Serve` | triton-backend/app/services/auth/account_lifecycle.py:187-396 | Every request has exactly the specified effect and answer, and keeps the tables valid. |
| `Accounts.Tables.ResolveLocal` | triton-backend/app/core/security.py:49-91 | A local token resolves if and only if it is honoured and the account has the needed access; another epoch clears the cookie, a bearer token of a local account puts its own claims there, and otherwise the cookie is as it was. |
| `RateLimit.Limiter.Increment` | triton-backend/app/repositories/account_lifecycle.py:86-100 | A new row starts with one, an existing one grows by one. |
| `RateLimit.Limiter.RateLimited` | triton-backend/app/services/auth/account_lifecycle.py:340-348 | Both buckets count every attempt; it passes if and only if the address was below max(1, limit) and the client below five times that in this hour. |
| `RateLimit.HourBound` | triton-backend/app/services/auth/account_lifecycle.py:340-348 | In an hour-aligned window an address passes at most max(1, limit), and a client five times that, less what was counted before. |
| `RateLimit.SpanBound` | triton-backend/app/services/auth/account_lifecycle.py:340-348 | In any sixty minutes it passes at most twice that. |
| `RateLimit.TwiceTheQuotaCanPass` | triton-backend/app/services/auth/account_lifecycle.py:340-348 | Twice the limit is reached for an address, for every limit. |
| `RateLimit.TenfoldCanPassForAClient` | triton-backend/app/services/auth/account_lifecycle.py:340-348 | Ten times the limit is reached for a client that tries many addresses, for every limit. |
| `Tracking.StampedOnce` | triton-backend/app/services/mlflow/tracking.py:136-143 | From a stamped creation the server reads exactly one creator, the caller, however many the payload claimed. |
| `Tracking.PassedPayload` | triton-backend/app/services/mlflow/tracking.py:145-149 | A payload that passes to a tag-changing action does not name the creator tag. |
| `Tracking.PassedCreation` | triton-backend/app/services/mlflow/tracking.py:135-144 | An entity created through the gateway has exactly the caller as creator; the others are untouched. |
| `Tracking.PassedChange` | triton-backend/app/services/mlflow/tracking.py:121-149 | A tag change that passes leaves every creator tag alone, also when the key is in the path. |
| `Tracking.StepAttributes` | triton-backend/app/services/mlflow/tracking.py:74-149 | Every request, on any path and by anyone, keeps each entity at exactly one creator tag, the address of who created it. |
| `Tracking.CreatorsAreImmutable` | triton-backend/app/services/mlflow/tracking.py:74-149 | Over every sequence of requests that never changes while the entity exists. |
| `Tracking.ForwardedFaithfully` | triton-backend/app/services/mlflow/tracking.py:135-149 | A forwarded body is the caller's own but for the creator tag and the legacy field of a creation; the other tags keep their order and the gateway would forward the result unchanged. |
| `Tracking.ForwardsTheBody` | triton-backend/app/services/mlflow/tracking.py:74-149 | Whatever the path, method, body and caller: what is forwarded is the caller's own body, but for the creator tag and the legacy field of a creation, which names the caller. |
| `Tracking.OtherRequestsPass` | triton-backend/app/services/mlflow/tracking.py:88-127 | On an unambiguous path reading, artifacts, and every action that neither creates nor changes tags pass as they are. |
| `Tracking.OtherWritesAreRefused` | triton-backend/app/services/mlflow/tracking.py:90-114 | A write passes only to the REST interface or the artifacts, or as a read of traces or a query without mutations. |
| `Tracking.PathsAreChecked` | triton-backend/app/services/mlflow/tracking.py:80-89 | Reading passes, and anything else passes only, on a path without escapes, backslashes, and empty or climbing parts. |
| `Tracking.RoutesAre` | triton-backend/app/services/mlflow/tracking.py:90-115 | Which paths are the REST interface, artifacts, GraphQL and reads of traces, in literal terms. |
| `Tracking.BrowserEndpoints` | triton-backend/app/services/mlflow/tracking.py:80-82 | The browser's endpoints are taken for those of the REST interface, whatever slashes surround them. |
| `Tracking.CreationsPassExactly` | triton-backend/app/services/mlflow/tracking.py:128-144 | A creation passes if and only if it is a JSON object whose tags are a list of objects, from a caller with an address. |
| `Tracking.StampedFaithfully` | triton-backend/app/services/mlflow/tracking.py:136-144 | Stamping keeps the rest of the payload and is idempotent. |
| `Tracking.RefusedExactly` | triton-backend/app/services/mlflow/tracking.py:145-149 | Of the well-formed tag changes exactly those that name the creator tag are refused. |
| `CreatorFields.CreditedExactly` | triton-backend/app/services/mlflow/tracking.py:173-190 | The rewritten response is exactly the tree that shows every creator and is otherwise the same. |
| `CreatorFields.LabelledExactly` | triton-backend/app/services/mlflow/tracking.py:176-187 | An object is labelled if and only if it has a name and a version and the first of its tags that names a creator has a value. |
| `CreatorFields.CreditedTwice` | triton-backend/app/services/mlflow/tracking.py:173-190 | Rewriting twice is rewriting once, which the shared subtree of a creator that is an object needs. |
| `CreatorFields.UnlabelledUnchanged` | triton-backend/app/services/mlflow/tracking.py:191-192 | A response left alone is one that the rewrite would not change. |
| `CreatorFields.Visit` | triton-backend/app/services/mlflow/tracking.py:173-190 | The visitor computes the rewrite and reports a change if and only if a labelled object is in the tree. |
| `CreatorFields.ExposeCreator` | triton-backend/app/services/mlflow/tracking.py:156-195 | Model and version listings without an error status are rewritten; everything else passes. |
| `CreatorFields.ListedModels` | triton-backend/app/services/mlflow/tracking.py:156-165 | The listings of model versions and registered models are rewritten under both prefixes. |
| `FolderSplice.FolderChange` | code-server-extensions/triton-deploy/s3-browser.js:544-550 | The splice yields the desired folders, and no other single splice that does removes or inserts fewer. |
| `FolderSplice.MountChange` | code-server-extensions/triton-deploy/s3-browser.js:626-650 | Mounting loses and reorders no local folder, puts exactly the remote ones behind them, and never touches a leading run of local folders. |
| `UploadPlan.WithinIsPrefix` | code-server-extensions/triton-deploy/s3-files.js:4-12 | The test on the relative text holds if and only if the file is the root or below it. |
| `UploadPlan.Planner.Walk` | code-server-extensions/triton-deploy/s3-files.js:17-44 | Unless stopped, the walk succeeds if and only if the tree holds only regular files up to 5 GiB and folders, lies in a root, and repeats no key nor exceeds 10,000 files; then it adds exactly the files. |
| `UploadPlan.PlanUpload` | code-server-extensions/triton-deploy/s3-files.js:13-52 | Unless stopped, planning succeeds if and only if the kept selection is uploadable, with exactly its files. |
| `UploadPlan.FilesComplete` | code-server-extensions/triton-deploy/s3-files.js:17-44 | Every regular file of a tree is planned, under its key. |
| `UploadPlan.FilesSound` | code-server-extensions/triton-deploy/s3-files.js:17-44 | Nothing else is: each planned file has the key prefix + base name + path below it. |
| `UploadPlan.TreeOnce` | code-server-extensions/triton-deploy/s3-files.js:17-44 | Each file of a tree is planned once. |
| `UploadPlan.KeptAreSeparate` | code-server-extensions/triton-deploy/s3-files.js:45-49 | No kept selection is inside another. |
| `UploadPlan.KeptCover` | code-server-extensions/triton-deploy/s3-files.js:45-49 | Every selection is at or below a kept one. |
| `UploadPlan.SelectedFilesAreUploaded` | code-server-extensions/triton-deploy/s3-files.js:13-52 | Every regular file at or below any selection, nested or repeated, is uploaded. |
| `UploadPlan.UploadedOnceExactly` | code-server-extensions/triton-deploy/s3-files.js:45-49 | Each file is uploaded once if and only if no kept selection with files is really inside another one. |
| `UploadPlan.RealSelectionsUploadOnce` | code-server-extensions/triton-deploy/s3-files.js:45-49 | Without links above the selections that is always so. |
| `UploadPlan.LinkedSelectionUploadsTwice` | code-server-extensions/triton-deploy/s3-files.js:45-49 | With such a link a file can be uploaded twice. |
| `UploadPlan.UploadsStayInside` | code-server-extensions/triton-deploy/s3-files.js:24-26 | Every uploaded file lies in a workspace root. |
| `Codec.PointOfUtf8` | code-server-extensions/triton-deploy/s3-client.js:9-13 | The UTF-8 bytes of every character are read back as that character. |
| `Codec.DecodesEverySpelling` | code-server-extensions/triton-deploy/s3-client.js:179-182 | However a server URL-encodes a key (plus for space, either case, more or fewer triples), the key is decoded. |
| `Codec.EncodeRoundTrip` | code-server-extensions/triton-deploy/s3-client.js:9-13 | Decoding undoes encoding on every well-formed string. |
| `Codec.EncodeIsCanonical` | code-server-extensions/triton-deploy/s3-client.js:9-13 | The encoding holds only unreserved characters and triples with upper-case digits (sections 2.1 and 2.3 of RFC 3986). |
| `XmlText.DecodesEveryRendering` | code-server-extensions/triton-deploy/s3-client.js:164-173 | However a server renders text (itself, by name, by decimal or hexadecimal number), the text is decoded. |
| `XmlText.EscapeRoundTrip` | code-server-extensions/triton-deploy/s3-client.js:320 | Decoding undoes escaping on every string. |
| `XmlText.EscapeHasNoMarkup` | code-server-extensions/triton-deploy/s3-client.js:320 | Escaped text holds no bracket or quote, and every ampersand starts a reference. |
| `XmlText.NamesAreCaseSensitive` | code-server-extensions/triton-deploy/s3-client.js:164-173 | A named reference stands for its character if and only if it is in lower case; otherwise it becomes the text "undefined". |
| `XmlText.ListedKeysAreExact` | code-server-extensions/triton-deploy/s3-client.js:178-193 | A listed key comes back exactly, through the XML decoding and, where the listing says that its keys are URL-encoded, the key decoding. |
| `S3Url.ParsersAgree` | triton-backend/app/services/deployment/kubernetes.py:706-713 | On every text the two parsers fail together, name the same endpoint and find the same bucket and prefix parts. |
| `S3Url.BucketAndPrefix` | triton-backend/app/services/deployment/records.py:150-171 | A text without an endpoint names its bucket and prefix for both parsers, with or without the scheme, and no https. |
| `S3Url.SchemeByPort` | triton-backend/app/services/deployment/records.py:155-157 | http on port 443 is https, on any other port or none it stays, a port out of range is refused; https stays https. |
| `S3Url.BracketsPair` | triton-backend/app/services/deployment/records.py:154 | A URL with a bracket but not its partner is refused. |
| `S3Url.PrintedExactly` | triton-backend/app/services/deployment/profile_request.py:36-67 | A URL is printed if and only if the endpoint is an HTTP one and no part of the prefix climbs. |
| `S3Url.PrintThenParse` | triton-backend/app/services/deployment/records.py:150-170 | A printed URL parses to its endpoint, http on 443 read as https; bucket and prefix are recovered if and only if the path is plain and the prefix has no empty part. |
| `S3Url.PrintThenSource` | triton-backend/app/services/deployment/profile_request.py:62-67 | The second parser finds the same endpoint, and bucket and prefix as one path. |
| `S3Url.RecoversExactly` | triton-backend/app/services/deployment/records.py:157-163 | Bucket and prefix survive if and only if no character of the path is taken for a query, fragment or parameter, none is dropped, and no part is empty. |

## Left out

- ObjectStore.Remote.Upload: the metadata headers are one map from names to values; SigV4 signing, TLS, sockets, redirects and hashing are not modelled.
- Profiles.Bind: the text of an endpoint reaches one server for the whole run, and both addressing styles name the same bucket of it. `Origin` covers plain host names; user information, paths, IP literals and international names are not part of it.
- Planning.Plan: the answers to the page requests of a folder are a finite map from request number and continuation token to pages, arbitrary otherwise; a server that invents new tokens for ever is not modelled.
- Transfers.Transfer: the temporary file and directory, progress reports and the error text are not modelled, only the counts it carries.
- FileHandles.FileSystem.Close: a call gives way to others only where it waits for the store, not where it waits for its local file. `delete`, `createDirectory`, directory reading and the endpoint form of addresses are left out.
- Exposure.CredentialSafety: generated Secret names never repeat (the program draws eight hexadecimal digits at random), and the deployment itself is not deleted meanwhile. TLS Secrets, issuer annotations and preserved annotations are not modelled.
- Exposure.RollbackAndOrphans: is about an update nobody interferes with, and about runs whose clean-up calls were answered; under interference RefusedLeavesNoSecret holds.
- AccessUpdate.Namespace.Prepare: policy, controller, hostname and TLS checks are one outcome chosen by the environment; the hostname check is modelled on its own in Hostname.
- Hostname.OverlapIsExact: case folding is ASCII only, as DNS names are.
- Hostname.HostsStayDisjoint: scan and write are one atomic step, and the controllers of classes do not change.
- Lifecycle.HandleKeeps: requests are atomic, raw tokens never repeat and row ids are never reused; `update_user_role` and OIDC logins are left out, and audit events, e-mail delivery and its failures do not touch these tables.
- Accounts.Tables.ResolveLocal: of the claims only address and epoch are kept, of the cookie the same two.
- RateLimit.HourBound: the configured limit does not change during a trace.
- Tracking.CreatorsAreImmutable: requests that are neither creations nor tag changes may delete entities and change any tags but the creator's. The server parses JSON as the gateway does (a later duplicate field wins), GraphQL documents come with the list of their operations already parsed, and HTTP methods are the seven standard ones.
- CreatorFields.Visit: the tree is rewritten as a value; that a creator object shared by two places is visited twice in place is covered by CreditedTwice.
- UploadPlan.PlanUpload: a path comes with its real path and the tree found there; resolving links is not modelled.
- Codec.DecodesEverySpelling: strings are well-formed; lone surrogates, on which the program throws, are not representable.
- XmlText.DecodesEveryRendering: elements are given as their text; finding tags by regular expression is not modelled.
- S3Url.PrintThenParse: urlparse is modelled for http and https, with bracket matching but without validation of IP literals and Unicode forms.
- `stage` and `saveStage`, `mountProfiles` beyond its splice, the editor's views and commands, the S3 sync sidecar, Kubernetes YAML text, proxies, OIDC flows, SMTP, routers and migrations: plumbing or presentation.
- The hostname choice in `policy.py` and the response mapping in `access.py`: easy members.
