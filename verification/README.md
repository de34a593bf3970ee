# A verified model of Kubemate

Kubemate runs small Kubernetes clusters on devices such as a Raspberry Pi. This project models the
parts of it that have a state and a protocol, and proves in Dafny what they promise.

Each component comes in two layers. A specification module describes it as functions on values: a
transition system whose runs are all interleavings, or the operations of a store. An imperative module
follows the program text statement by statement - classes whose methods update fields, loops with
invariants - and is proved against the specification. The main results are statements over all runs.

- `NodeDrain`, `NodeDrainProgress`, `NodeUncordon`, `NodeAnnotations`, `NodeReconciler`: draining, shutting
  down, restarting and uncordoning a node. Two devices coordinate through five annotations of a Node; reads may be stale,
  updates are compare-and-swap and may lose their acknowledgement, managers restart.
- `Resources`, `StoreSpec`, `InMemoryStore`, `Rest`: the versioned resource store with optimistic locking
  and the REST handlers over it.
- `PubSub`: the event bus with bounded channels, slow consumers and asynchronous `Stop`.
- `FileStoreSpec`, `FileStore`: the mirror of a store in a directory, with every intermediate directory
  state a crash can leave, and loading it again.
- `Sync`, `LineStream`: the client that lists, watches and applies events, and its splitting of the
  streamed response into lines.
- `Command`, `Runner`, `Wifi`: the process supervisor with its cooldown, the text by which it compares
  commands, and the wifi mode machine on top of three supervisors.
- `AppFinalizer`, `AppReconciler`: the finalizer protocol between an App and its Kustomization.
- `OpenApiGen`, `PasswordGen`, `ScanIw`: the closure over the type graph, the password generator, and the
  parser of wifi scans. `Strings`, `Sets` and `Sorting` hold what these share.

`dafny verify dfyconfig.toml` checks the whole project.

## What the proofs brought to light

Some properties one would expect do not hold of the code. The code is modelled as it is: lemmas exhibit
these cases and say, as an if-and-only-if or exactly, what holds instead.

- A server device that is served a Node older than one it has seen can uncordon a node while that node
  shuts down (`StaleReadUncordons`). In every run, a call of Uncordon is safe if and only if the newest
  version of the Node does not carry the termination mark of the current epoch (`UncordonExact`); with
  reads that never go backwards it never does (`UncordonSafety`).
- `Watch` compares the version with a counter that `Delete` does not advance, so a client can be accepted
  with a list that a deletion has outdated (`UnnoticedDeletion`), and is if and only if something was
  deleted in between (`AcceptedWatchIsCurrent`).
- `filestore.Update` writes the file before the version is checked, so a refused update can already be on
  disk (`ConflictLosesMirror`). An operation loses the mirror if and only if its callback changes the
  version and the stripped object and the write succeeds (`MirrorKept`). A reloaded store mirrors its
  directory if and only if the objects in it are named after their files and dated (`ReloadMirrors`).
- One App read that goes backwards is enough to leave a Kustomization without its App
  (`StaleReadOrphans`). A run is free of orphans if and only if no Kustomization is created for an App
  that, at that moment, is gone or without the finalizer (`OrphanFree`); with reads that never go
  backwards none is (`NoOrphan`).
- An App that is being deleted loses its finalizer if and only if it still specifies a Kustomization
  (`DeletionCompletes`).
- `CommandSpec.String` gives some commands one text (`SpacedTextIsShared`). A command is told apart from
  all others if and only if no part of it holds a space and no consecutive parts spell a quoted one
  (`TextIdentifies`).
- `oapiTypeName` gives different types one name (`SharedNames`), and then a reachable type can be missing
  from the generated definitions (`SharedNameHides`). These are exactly the reachable types if and only
  if no two of them share a name (`ClosureIsExact`).
- `weightedRandInt` selects the first index once too often and the last once too rarely (`DrawCounts`).
- The scan parser drops networks whose name has one character (`ScanPrinted`, `NamedNetworksComeBack`).
- After the wifi interface was a station, disabling it leaves the recorded mode at station, although
  nothing runs (`ReconcileDisabled`).
- A comment in `node_reconciler.go:92` speaks of a drain annotation that is not empty; the code, and the
  model, ask for the value `true`.

## Model

| member | source | states |
|---|---|---|
| NodeDrain.NextInv | pkg/reconciler/device/node_reconciler.go:64-163 | every step of either device, of users and of other writers keeps the protocol's invariant: the annotations of every version are consistent, each pending shutdown is paid for by a DrainNode call, the termination mark is the newest recorded one |
| NodeDrain.DrainSafety | pkg/reconciler/device/node_reconciler.go:95-160 | over every interleaving: shutdown or termination marked implies uncordon requested and not restarted, and conversely that pair implies drain, shutdown or termination; no two Shutdown calls, failing ones included, in one epoch; never more of them than successful DrainNode calls |
| NodeDrainProgress.RunProgress | pkg/reconciler/device/node_reconciler.go:91-160 | without a new drain request no step adds work and every change of the marks removes some, so there are at most 11 changes in any run |
| NodeDrainProgress.TurnProgress | pkg/reconciler/device/node_reconciler.go:91-160 | from every reachable state whose termination mark is not the current epoch's, finishing what is under way and one reconcile of each device remove work while any is left |
| NodeDrainProgress.StartProgress | pkg/reconciler/device/node_reconciler.go:138-159 | from every other state a start of the node removes work |
| NodeDrainProgress.FairRunSettles | pkg/reconciler/device/node_reconciler.go:91-160 | every fair run - arbitrary steps, then a turn of each device, or a start of the node only where it is marked as terminated in its current epoch, and so on - clears drain, shutdown, termination and uncordon marks within as many rounds as there is work |
| NodeDrainProgress.FairRunStarts | pkg/reconciler/device/node_reconciler.go:138-159 | in such a run a start of the node is due at most three times |
| NodeDrainProgress.RequestTakesOneStart | pkg/reconciler/device/node_reconciler.go:91-160 | a request on a node without pending marks is worked off in six rounds with at most one start of the node |
| NodeUncordon.UncordonExact | pkg/reconciler/device/node_reconciler.go:120-134 | over every run, stale reads included, an Uncordon call, made or about to be made, comes after the node entered a new epoch since its last termination mark if and only if the newest version of the Node does not carry the mark of the current epoch |
| NodeUncordon.UncordonSafety | pkg/reconciler/device/node_reconciler.go:120-134 | if the server device's reads never go backwards, no termination mark is left at any Uncordon call, and so every call comes after a new epoch |
| NodeUncordon.StaleReadUncordons | pkg/reconciler/device/node_reconciler.go:120-134 | for every unused node there is a run, with one read that goes backwards, in which Uncordon is called while the node is marked terminated in its current epoch |
| NodeAnnotations.StepKeeps | pkg/reconciler/device/node_reconciler.go:102-157 | no step but an annotation under that very name changes a foreign annotation, or whether there is one |
| NodeAnnotations.ForeignKept | pkg/reconciler/device/node_reconciler.go:76-157 | over every run, whatever versions were served, a foreign annotation is what others last made of it |
| NodeReconcile.OthersStep | pkg/reconciler/device/node_reconciler.go:64-163 | what anyone else does leaves a device where it stands in its reconcile, or stops it, and only appends versions |
| NodeReconcile.WriteIsAct | pkg/reconciler/device/node_reconciler.go:102-157 | an update of the annotations that the branch at hand computes is the transition system's action, with the same commit, conflict and lost acknowledgement |
| NodeReconcile.CallIsAct | pkg/reconciler/device/node_reconciler.go:109-149 | a DrainNode, Uncordon or Shutdown call is the transition system's action and writes nothing |
| NodeReconcile.NodeReconciler.SetupWithManager | pkg/reconciler/device/node_reconciler.go:51-62 | starting a manager takes one restart step and, on the node itself, a reboot ID never used before |
| NodeReconcile.NodeReconciler.ReconcileDrain | pkg/reconciler/device/node_reconciler.go:95-118 | the drain branch is a sequence of the server device's own actions that ends idle; an error exactly when a call failed |
| NodeReconcile.NodeReconciler.ReconcileUncordon | pkg/reconciler/device/node_reconciler.go:121-134 | the same for the uncordon branch |
| NodeReconcile.NodeReconciler.ReconcileLocal | pkg/reconciler/device/node_reconciler.go:138-162 | the same for the branches of the node itself |
| NodeReconcile.NodeReconciler.Reconcile | pkg/reconciler/device/node_reconciler.go:64-163 | every reconcile, whatever interferes, is one read followed by own actions of a run of the transition system, and returns an error exactly when a call failed; a Node that is not found is none |
| StoreSpec.ApplyInv | pkg/storage/inmemorystore.go:84-150 | every operation keeps: the items are the replay of the published events, each event announces what it did, versions rise along the log |
| StoreSpec.CreateStores | pkg/storage/inmemorystore.go:84-98 | a created object is named by its key, numbered, dated unless it was, and otherwise as given; an existing key and all other items stay as they are |
| StoreSpec.UpdateStores | pkg/storage/inmemorystore.go:120-145 | an update under the stored version stores what the callback made, under a new number, and any other changes nothing at all |
| StoreSpec.DeleteRemoves | pkg/storage/inmemorystore.go:100-118 | an accepted deletion removes that item alone and uses no number; any other changes nothing |
| StoreSpec.RunInv | pkg/storage/inmemorystore.go:84-150 | so does every sequence of operations; the log and the counter only grow |
| StoreSpec.NumbersNeverReused | pkg/storage/inmemorystore.go:147-150 | of two committed writes in a store's history, also of a key deleted and created again, the later has the greater number, and none exceeds the counter |
| StoreSpec.VersionsDistinct | pkg/storage/inmemorystore.go:147-150 | two items never carry the same version, and none exceeds the counter |
| StoreSpec.NoLostUpdate | pkg/storage/inmemorystore.go:120-145 | an update accepted with the version a client once read finds exactly the object it read; nobody changed, or deleted and created it again, in between |
| StoreSpec.UntouchedUpdateAccepted | pkg/storage/inmemorystore.go:120-145 | conversely it is accepted if nobody touched the item, whatever else happened |
| InMemoryStore.InMemoryStore.Watch | pkg/storage/inmemorystore.go:36-41 | accepted without a version or with the current counter, refused as gone otherwise; the new watcher gets every event from now on |
| InMemoryStore.InMemoryStore.List | pkg/storage/inmemorystore.go:43-72 | every item exactly once, in the order of their keys, with the current counter as version |
| Sorting.Sort | pkg/storage/inmemorystore.go:65 | the strings in lexicographic order, each as often as before |
| Sorting.LeDecided | pkg/storage/inmemorystore.go:65 | a string comes before its extensions, and otherwise the first difference decides |
| InMemoryStore.InMemoryStore.Create | pkg/storage/inmemorystore.go:84-98 | outcome and new state, published event included, are those of the abstract operation; the caller gets what was stored |
| InMemoryStore.InMemoryStore.Delete | pkg/storage/inmemorystore.go:100-118 | the same for a deletion, which the validation can reject |
| InMemoryStore.InMemoryStore.Update | pkg/storage/inmemorystore.go:120-145 | the same for an update: not found, rejected by the callback, conflict, or stored under a new number |
| Rest.REST.Create | pkg/rest/rest.go:94-118 | validation, generated and missing names as errors that change nothing; otherwise the store's create under the chosen name, and on success the stored item is returned |
| Rest.REST.Update | pkg/rest/rest.go:120-140 | outcome and state of the store's update with the client's object as callback; on success the stored object is returned |
| Rest.REST.Delete | pkg/rest/rest.go:142-151 | outcome and state of the store's delete; on success the deleted object is returned |
| Rest.AcceptedUpdateIsCurrent | pkg/rest/rest.go:120-140 | an accepted update with version v replaced exactly the object stored as v by the object sent, under a new number, all other items untouched |
| Rest.VersionRequired | pkg/rest/rest.go:120-140 | an object sent without a version is never accepted |
| Rest.InvalidUpdateRefused | pkg/rest/rest.go:123-135 | an update is rejected exactly if the client's object cannot be made or is not valid beside the stored one, and what is stored otherwise is that object |
| PubSub.EmptySelectorTakesAll | pkg/pubsub/pubsub.go:92-106 | the empty selector, which Watch uses, lets every event through |
| PubSub.SelectorExact | pkg/pubsub/pubsub.go:92-106 | an event passes exactly if it is an error or every field the selector sets is the object's |
| PubSub.MatchingCounts | pkg/pubsub/pubsub.go:77-90 | each matching event is owed as often as it was published, and no other |
| PubSub.DeliveredEntitled | pkg/pubsub/pubsub.go:117-142 | a consumer that takes events keeps the watcher's entitlement: handed out plus channel contents are the matching events since Subscribe |
| PubSub.PublishedEntitled | pkg/pubsub/pubsub.go:77-115 | after a publication every watcher that never timed out has exactly what it is owed by the longer log, in order |
| PubSub.PubSub.Subscribe | pkg/pubsub/pubsub.go:53-75 | a new watcher with an empty channel, entitled to the events from now on; nobody else changes |
| PubSub.PubSub.SendEvent | pkg/pubsub/pubsub.go:108-115 | the event is appended to the channel, which is not closed, or the watcher times out, which takes a full channel |
| PubSub.PubSub.Publish | pkg/pubsub/pubsub.go:77-90 | exactly the registered watchers whose selector matches are offered the event, and every entitlement holds for the longer log |
| PubSub.PubSub.Detach | pkg/pubsub/pubsub.go:127-131 | one caller takes the channel, and with it the duty to close it; from then on nothing more is sent |
| PubSub.PubSub.Close | pkg/pubsub/pubsub.go:132-137 | a taken channel is closed while it is open, and drained; a part of what was owed has been received |
| PubSub.PubSub.Stop | pkg/pubsub/pubsub.go:126-138 | the watcher is gone and its channel closed; a second Stop changes nothing, so no channel is closed twice |
| FileStoreSpec.TempIsNotYaml | pkg/storage/filestore.go:65-168 | a temporary file is never taken for an item |
| FileStoreSpec.StripTells | pkg/storage/filestore.go:189-200 | what is written says everything of an object but its version and, where the kind has one, its status |
| FileStoreSpec.MirroredIsContents | pkg/storage/filestore.go:52-84 | a directory that mirrors a map is readable and holds exactly that map |
| FileStoreSpec.ReadBackPlain | pkg/storage/filestore.go:52-200 | what is read back from a mirror of named and dated objects differs from them in version and status only |
| FileStoreSpec.WriteCrashSafe | pkg/storage/filestore.go:158-187 | after every single effect of writeFile the directory mirrors the map before or after the write |
| FileStoreSpec.CrashSafe | pkg/storage/filestore.go:86-187 | a crash inside any operation leaves the state before or after it, other keys untouched; with the write or removal completed it is the state after |
| FileStoreSpec.MirrorKept | pkg/storage/filestore.go:86-187 | an operation keeps the mirror exact unless, and only unless, the callback of an update yields an object of another version that differs in the file and its write succeeds |
| FileStoreSpec.MirrorRun | pkg/storage/filestore.go:86-187 | over every run whose callbacks leave versions alone, failing writes included, the files are the stripped items, so they hold every item with all but version and status, and the next operation is crash safe |
| FileStoreSpec.CrashReload | pkg/storage/filestore.go:52-187 | the directory after a crash anywhere in such a run is readable and holds the stripped state before or after the interrupted operation, field by field |
| FileStoreSpec.ReloadMirrors | pkg/storage/filestore.go:52-84 | a store loaded from a directory mirrors into it again if and only if the objects in it are named after their files and dated |
| FileStoreSpec.LifeMirrors | pkg/storage/filestore.go:52-187 | over a life with any number of crashes inside operations and restarts, each load brings back the stripped state before or after the interrupted operation, and the files mirror the items again |
| FileStoreSpec.ConflictLosesMirror | pkg/storage/filestore.go:127-150 | a callback that drops the version is refused with a conflict and has already replaced the file |
| FileStoreSpec.UnchangedNotWritten | pkg/storage/filestore.go:143-148 | an update that changes nothing touches no file, and no failing write refuses it |
| FileStoreSpec.RefusedKeeps | pkg/storage/filestore.go:86-151 | a refused operation leaves items and events; a creation that fails to write has used up a number |
| FileStore.LoadFromFiles | pkg/storage/filestore.go:52-84 | succeeds exactly if every .yaml file is complete, and then the store holds exactly their contents under their names |
| FileStore.FileStore.WriteFile | pkg/storage/filestore.go:158-187 | the directory goes through the listed states, the outcome is that of the rename, and the file then says all but version and status of the object |
| FileStore.FileStore.Create | pkg/storage/filestore.go:86-102 | error, items, counter and directory history are those of the abstract operation |
| FileStore.FileStore.Delete | pkg/storage/filestore.go:104-118 | the same: the file is removed before the item |
| FileStore.FileStore.Update | pkg/storage/filestore.go:120-151 | the same: the file is written inside the callback, before the version check |
| Sync.Replica.Handle | ui/src/stores/sync.ts:27-70 | the list after ADDED, MODIFIED, DELETED and BOOKMARK is that of the specification |
| Sync.Replica.HandleAll | ui/src/stores/sync.ts:27-70 | the same for a stretch of events |
| Sync.UnknownIgnored | ui/src/stores/sync.ts:34-69 | bookmarks, errors, and modifications and deletions of unknown objects leave the list as it is |
| Sync.FollowsLog | ui/src/stores/sync.ts:27-70 | whoever agrees with a store at one point of its log and applies the events from there agrees with it after each of them |
| Sync.ListingAgrees | ui/src/stores/sync.ts:22-25 | a listing has unique names and is, by name, the store |
| Sync.CounterNoticesWrites | pkg/storage/inmemorystore.go:36-41 | the counter is unchanged exactly if nothing but deletions was committed |
| Sync.AcceptedWatchIsCurrent | pkg/storage/inmemorystore.go:36-41 | a watch accepted with a list's version starts from what was listed if and only if nothing was deleted in between |
| Sync.ReplicaAgreement | ui/src/stores/sync.ts:22-70 | list, then an accepted watch with no deletion in between: after every prefix of the delivered events the client's list has unique names and equals the store at that point of its log |
| Sync.UnnoticedDeletion | pkg/storage/inmemorystore.go:100-118 | a deletion leaves the counter, so the watch is accepted and the client keeps an object that is gone |
| LineStream.LinesAppend | ui/src/k8sclient/watch.ts:96-107 | lines and rest of a text come out the same whether a chunk is added to the text or to its rest |
| LineStream.Stream.Push | ui/src/k8sclient/watch.ts:88-107 | after every chunk the enqueued events are those of the trimmed nonblank lines so far, up to the first that does not parse, and the buffer is the rest without a newline |
| LineStream.PushAll | ui/src/k8sclient/watch.ts:84-107 | so for every way of cutting a text into chunks |
| LineStream.PrintedEventsComeBack | ui/src/k8sclient/watch.ts:96-107 | events printed one per line are recovered, with nothing left over |
| LineStream.PaddedLine | ui/src/k8sclient/watch.ts:102-105 | white space around a line and blank lines make no difference |
| Strings.TrimPadded | ui/src/k8sclient/watch.ts:102 | trimming removes the white space around a text and nothing else of it |
| OpenApiGen.OapiTypeName | cmd/openapigen/main.go:99-109 | the loop computes the dotted name with the host turned around |
| OpenApiGen.NameOfPath | cmd/openapigen/main.go:100-108 | the name of host/path is the name of the host, a dot and the path with every slash a dot |
| OpenApiGen.NameOfHost | cmd/openapigen/main.go:101-106 | the first segment of a host comes last in its name |
| OpenApiGen.NameOfSegment | cmd/openapigen/main.go:99-109 | a single segment is its own name |
| OpenApiGen.AddType | cmd/openapigen/main.go:75-91 | ends on every graph, cyclic or not; defines the type, loses nothing, adds only reachable types and, on success, resolves every reference; fails only if an unknown type is reachable |
| OpenApiGen.WriteOpenAPI | cmd/openapigen/main.go:62-67 | the same for all roots together |
| OpenApiGen.ClosureIsExact | cmd/openapigen/main.go:62-91 | if all root calls succeed, the definitions are exactly the reachable types if and only if no two reachable types share a name; and without shared names they succeed exactly if every reachable type is known |
| OpenApiGen.SharedNameHides | cmd/openapigen/main.go:81-83 | two types of one name: generation succeeds although a reachable type is not defined, even unknown |
| OpenApiGen.SharedNames | cmd/openapigen/main.go:99-109 | x/y and y.x have the same name |
| Command.String | pkg/runner/process.go:21-31 | the loop yields the parts, quoted where they hold a space, joined by spaces |
| Command.QuotePrintable | pkg/runner/process.go:26-28 | printable text without double quote and backslash is put between quotes if it holds a space and otherwise left alone |
| Command.TextReadsBack | pkg/runner/process.go:21-31 | a decoder recovers the parts from the text if no space-free part begins with a double quote |
| Command.TextIdentifies | pkg/runner/process.go:21-31 | a command is the only one with its text if and only if no part holds a space and no consecutive parts, joined, are the quotation of a part with a space |
| Command.PlainTexts | pkg/runner/process.go:21-31 | two commands whose space-free parts do not begin with a double quote have the same text exactly if they are the same; and such a command is the only one at all with its text exactly if no part holds a space |
| Command.SpacedTextIsShared | pkg/runner/process.go:21-31 | every command with a space in a part shares its text with another command |
| Runner.Runner.Elapse | pkg/runner/process.go:107-118 | while time passes processes only exit, and the stamp only moves when the end of a watched process is noted |
| Runner.Runner.StopProc | pkg/runner/process.go:145-163 | afterwards no process is alive |
| Runner.Runner.Stop | pkg/runner/runner.go:61-68 | afterwards no process is alive and none is remembered |
| Runner.Runner.Launch | pkg/runner/runner.go:102-130 | one more launch, at least a cooldown after the last, and the new process is the only one that can be alive |
| Runner.Runner.Start | pkg/runner/runner.go:83-132 | skipped exactly if a process of the same text runs, which is that of the same command wherever texts tell the two apart; otherwise that one is stopped first and the start is refused with the time left or done; at most one process is alive, launches stay a cooldown apart from each other and from the last stamp of an end or a start, and a refusal needs a stamp within the cooldown |
| Runner.LaunchRate | pkg/runner/runner.go:94-101 | no period sees more launches than one, and one for each full cooldown in it |
| Runner.SameText | pkg/runner/runner.go:86-90 | the comparison of texts is one of commands if one of the two is identified by its text, or if neither has a space-free part that begins with a double quote |
| Runner.StartRequeued | pkg/reconciler/device/device_reconciler.go:307-315 | retrying after the delay of the cooldown error ends: a retry is refused only if the end of an earlier process was stamped meanwhile, at most once for each outstanding one |
| Wifi.Wifi.RestartWifiInterface | pkg/wifi/wifi.go:134-150 | link down, flush, link up and scan are run in this order, up to the first that fails; the interface counts as started once it is up, and no process is affected |
| Wifi.Wifi.StartWifiInterface | pkg/wifi/wifi.go:152-157 | nothing is run on a started interface; otherwise the restart, and on success the interface is started |
| Wifi.Wifi.StopWifiInterface | pkg/wifi/wifi.go:159-171 | successful exactly if the interface is stopped afterwards |
| Wifi.Wifi.StartAccessPoint | pkg/wifi/ap.go:11-40 | with the station down, whatever fails keeps each process in its own mode; on success the mode is access point and hostapd runs or was started with this configuration; a failure leaves the mode; coming from another mode the interface was restarted and given its address before |
| Wifi.Wifi.StopAccessPoint | pkg/wifi/ap.go:42-52 | hostapd is down, and the mode is no longer access point even if the interface restart, which only that mode asks for, fails |
| Wifi.Wifi.StartStation | pkg/wifi/station.go:18-41 | the same for wpa_supplicant and dhcpcd, with the access point down; coming from another mode the interface was restarted before, and after a restart of the interface wpa_supplicant is a new process |
| Wifi.Wifi.StopStation | pkg/wifi/station.go:55-63 | wpa_supplicant and dhcpcd are down; the mode is left as it is |
| Wifi.ConfigurationTold | pkg/wifi/station.go:32 | the compared texts tell two configuration files apart, so that a changed one starts the process anew |
| Wifi.Wifi.Close | pkg/wifi/wifi.go:87-92 | no process is left |
| Wifi.Wifi.ReconcileAccessPoint | pkg/reconciler/device/networkinterface_reconciler.go:136-158 | the station is down whatever happens; on success the access point runs on a started interface |
| Wifi.Wifi.ReconcileStation | pkg/reconciler/device/networkinterface_reconciler.go:159-185 | hostapd is down whatever happens; on success the station runs; without a network name it fails |
| Wifi.Wifi.ReconcileDisabled | pkg/reconciler/device/networkinterface_reconciler.go:186-193 | nothing runs whatever happens; an error exactly if the interface is still started |
| Wifi.Wifi.ReconcileWifi | pkg/reconciler/device/networkinterface_reconciler.go:134-195 | hostapd alive implies mode access point, wpa_supplicant or dhcpcd alive implies mode station, through every failing command; no process of another mode is left |
| Wifi.ReconcileAll | pkg/reconciler/device/networkinterface_reconciler.go:134-195 | over every sequence of reconciles, with processes exiting in between, the access point and the station are never up together |
| AppFinalizer.NextInv | pkg/reconciler/app/app_reconciler.go:94-125 | every step keeps: if any version the reconciler may still be served calls for a Kustomization, the App is there and carries the finalizer |
| AppFinalizer.StepOrphans | pkg/reconciler/app/app_reconciler.go:94-125 | a step leaves a Kustomization without an App that carries the finalizer if and only if it creates one for an App that has lost the finalizer, or is gone, since it was read |
| AppFinalizer.OrphanFree | pkg/reconciler/app/app_reconciler.go:94-125 | a run with whatever reads is free of orphans in all its states if and only if no step of it is of that kind |
| AppFinalizer.NoOrphan | pkg/reconciler/app/app_reconciler.go:94-125 | over every interleaving of user edits, deletions and re-creations, external removals and reconciles, with App reads that do not go backwards, no step is, and a Kustomization exists only while its App exists and carries the finalizer |
| AppFinalizer.StaleReadOrphans | pkg/reconciler/app/app_reconciler.go:94-125 | for every App that is to be installed there is a run with one read that goes backwards, in which the reconciler adds and removes the finalizer, that leaves a Kustomization without an App |
| AppReconcile.AppReconciler.DeleteKustomization | pkg/reconciler/app/app_reconciler.go:383-397 | reports deletion only once the Kustomization is gone |
| AppReconcile.AppReconciler.ReconcileKustomization | pkg/reconciler/app/app_reconciler.go:319-381 | is a run of the protocol; undisturbed it creates, keeps or deletes the Kustomization as the App asks |
| AppReconcile.AppReconciler.Reconcile | pkg/reconciler/app/app_reconciler.go:94-211 | every execution, with calls failing and anyone interfering, is a run of the protocol; undisturbed it does what the specification says, and fails only when the server refuses the finalizer |
| AppReconcile.DeletionCompletes | pkg/reconciler/app/app_reconciler.go:105-125 | an App being deleted loses the finalizer within two undisturbed rounds, its Kustomization gone first, exactly if it still specifies a Kustomization; otherwise in no number of rounds |
| AppReconcile.InstallationConverges | pkg/reconciler/app/app_reconciler.go:319-381 | an App that is not being deleted carries the finalizer after one undisturbed round, and from the third on, from the second if it had it, its Kustomization is there exactly if it is enabled |
| AppReconcile.Unmanaged | pkg/reconciler/app/app_reconciler.go:105-115 | an App without a Kustomization, or kept by others after it lost the finalizer, is left alone in every round |
| PasswordGen.WeightedRandInt | pkg/passwordgen/passwordgen.go:138-152 | for positive weights the panic is unreachable and the index is the first whose running sum reaches the draw |
| PasswordGen.DrawCounts | pkg/passwordgen/passwordgen.go:138-152 | the number of draws that select an index is its weight, one more for the first and one fewer for the last |
| PasswordGen.GenerateWord | pkg/passwordgen/passwordgen.go:96-130 | a word has the requested length, starts with a listed bigram, each pair in it is mapped and each further character is a listed successor; a length below two is an error |
| PasswordGen.PairIgnoresCase | pkg/passwordgen/passwordgen.go:108-121 | case makes no difference to the pair under which successors are found |
| PasswordGen.WordLengths | pkg/passwordgen/passwordgen.go:47-62 | every word length is at least two and they sum to the length of the phrase; there are at least a seventh as many words |
| PasswordGen.Shuffle | pkg/passwordgen/passwordgen.go:63-68 | swapping keeps the lengths as a multiset, and so their sum |
| PasswordGen.JoinWords | pkg/passwordgen/passwordgen.go:69-78 | the phrase is the words joined, one for each length |
| PasswordGen.ModifyRandChar | pkg/passwordgen/passwordgen.go:174-187 | exactly one position is replaced, by its substitute inside the word or its upper case |
| PasswordGen.GenerateMemorablePassword | pkg/passwordgen/passwordgen.go:25-89 | from seven characters on the password has exactly the requested length: four digits before or after a phrase that is the joined words with one character modified |
| ScanIw.ParseIwNetworkScanResult | pkg/wifi/scaniw.go:27-72 | the loop computes the specification, and whenever entry is set i is the last valid index |
| ScanIw.ScanPrinted | pkg/wifi/scaniw.go:27-72 | printing networks, with text after address and country, any lines about other things in between and any lines after one that is not indented, the last of all not ending in white space, and parsing gives back in order exactly those whose name has at least two characters |
| ScanIw.NamedNetworksComeBack | pkg/wifi/scaniw.go:50-52 | all named networks come back exactly if no name has a single character |

## Left out

- NodeDrain.DrainSafety: starts from a node on which the protocol was not used yet, and nobody but the two devices and drain requests writes the five annotations.
- NodeDrainProgress.FairRunSettles: does not say whether pods were evicted or the node is schedulable, because `cordonOrUncordon` ignores its argument; DrainNode, Uncordon and Shutdown are logged calls.
- Node and device changes around the drain protocol: a Node that is deleted for good, a device that changes its mode, several server devices.
- FileStore.FileStore.Create: does not model that the store keeps the caller's own object, so callers are taken not to touch it afterwards.
- Unlocked reads of counters and flags by other goroutines are atomic steps.
- The 64-bit limits of the version counters, the kinds set on objects, and the JSON and YAML encodings, which are taken to be lossless.
- FileStore.LoadFromFiles: takes file names and keys to be plain names in one directory, and reads of the directory not to fail.
- PubSub.PubSub.Publish: models one publication at a time, as both stores hold their lock while they publish; the lock also keeps a watcher from being removed in the middle of one, and the closing of a channel removed earlier is placed before or after it.
- PubSub.PubSub.Stop: models the cancellation of the context and the removal after a timeout as calls of Stop that may come at any later time.
- The retry loop, the loading flag and the callbacks of the client's synchronisation; the client that does retry lists again, which is the situation of `Sync.ReplicaAgreement`.
- LineStream.Stream.Push: takes chunks to be cut at character boundaries, and does not model that an error discards events enqueued but not read.
- Command.String: writes characters beyond ASCII as they are, which differs from Go for unprintable ones and invalid encodings.
- Runner.Runner.Start: does not model a failed spawn, whose report would dereference a missing process, nor SignalReload and status reports.
- Wifi.Wifi.StartAccessPoint: reduces configuration files, address and route commands to steps that take time and may fail; the path of the generated configuration is a parameter. The same holds for the other methods of the module.
- The list of wifi networks, country detection and password lookup inside a wifi reconcile, beyond the fact that each may fail.
- AppReconcile.AppReconciler.Reconcile: does not model the App's status, the Secrets, or what is in a Kustomization beyond its existence.
- OpenApiGen.WriteOpenAPI: takes the type definitions and the roots as parameters and leaves out writing the file.
- PasswordGen.GenerateWord: bounds the number of draws by a parameter, because the loop of the code ends only with probability one; with a table in which every successor leads on, the bound is shown to suffice.
- PasswordGen.ModifyRandChar: changes case for ASCII letters only; the tables themselves are a parameter that is well formed.
- HTTP serving, TLS, authentication, ingress routing, mDNS, the command line and the user interface: plumbing without a protocol of its own.
