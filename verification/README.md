# Verification of container-hotplug

container-hotplug gives a running container access to the USB devices below chosen root devices, and takes
it away again when they are unplugged. This project models the parts that decide who may use what and
when, and proves what they promise.

## What is modelled

* **The pipeline** (`Monitor`, `Controller`, `ContainerState`, `DeviceFilter`, `Mounts`, `Uevent`). A host
  history of udev events feeds the device monitor (enumerated queue, `seen` map, socket queue); its events
  drive the controller, which edits the permission map, the files under `/dev`, the sysfs mounts and the
  messages sent into the container. The objects of the source are classes here (`DeviceMonitor`, `HotPlug`,
  `Container`, `DeviceAccessController`, `UdevSender`, `EventLoop`); each method is proved equal to a step
  function on values, and the laws are proved about those functions.
* **All runs** (`Pipeline`, `Guarantees`, `Ordering`, `SysfsRuns`). Host events and turns of the controller's stream
  interleave arbitrarily. `Effects`, `Footprints` and `Sysfs` hold what one event preserves, `Progress` when an
  event, and a turn, succeeds.
* **The supervisor** (`Supervisor`, `CgroupEvents`). The loop over the two merged streams, the byte written
  to the caller, the watcher of the cgroup and the lifetime of the filter's pin, again over every
  interleaving and every exit.
* **Parsers and encoders** (`IdMap`, `Escape`, `DeviceReference`, `Uevent`, on top of `Text`).

`Read`, `Poll`, `Permit`, `Process`, `Advance`, `Moved` and the like are the step functions; `Tracks`,
`Attaches`, `Grants`, `PresentExactly`, `Arranged`, `PinSafe` and `Telling` are the invariants.

## What is assumed, and where

Every assumption is a precondition of the lemmas that need it; none is built into the model.

* The host only adds absent and only removes present devices (`Lawful`, `Possible`), and enumeration lists
  each device of the host once (`Lists`). All results about runs start from this.
* Device numbers are not shared by devices present below the roots at the same time, nor by devices present
  at any time between opening the socket and enumerating (`Assumes(..., DistinctNumbers)`). The second half
  is needed: `Counterexamples.OverlapRevokes`. Without the assumption, `RunInStepIff` says exactly when the
  permission map stays right.
* The same for node and symlink paths, where a device's files are meant to be in place
  (`Assumes(..., Apart(...))`); whatever was at these paths before is replaced. That they were free at the start
  (`TidyPaths`) is assumed only where every other path is said to be as at the start. `RunLastWriter`,
  `RunLastGrant`, `UsableIff` and `RunConserves` do without any of this and give the exact conditions, and so
  do the statements about which devices are attached (`RunAttaches`, `RunWaits`, `AttachedBeforeEntrypoint`).
* No attached node is numbered (0, 0): not assumed, but shown to be exactly the condition for the access
  policy (`PolicyHoldsIff`, `RunDecides`; for any host, `RunDecidesIff` and `RunDecidesSimply`).
* For writable sysfs over whole runs there is an exact condition with almost no assumption: the original
  mounts are read-only and have none of their own below the roots (`RunExactIff`). If binds come parents
  first (`ParentsFirst`), the condition is one on each removal alone (`RunAlwaysExactIff`); that binds come
  parents first is needed: `Counterexamples.LateBindRemains`. A host guarantees the condition, on any original
  mounts, if it adds parents first and removes children first itself (`OrderedHost`), is enumerated in that
  order (`Tiered`) and removes nothing below the roots between listening and enumerating (`CalmWindow`). The
  last is needed: `Counterexamples.OverlapUnmounts`.
* Only the controller changes the mounts of the container. In fact the kernel detaches a mount by itself when
  the directory below it vanishes with its device (`src/runc/container.rs:405-407`). So the statements about
  writable paths are about a device directory that has not been recreated while its removal was still
  unprocessed.
* Maps of a user namespace obey the rules of user_namespaces(7) (`KernelMap`), in the lemmas that say so.

## Where the documentation and the code differ

The model follows the code.

* `src/hotplug/mod.rs:13` says that each step is undone in reverse. The code undoes the sysfs directory first,
  then the permission, the node, the symlinks in the order of creation, and sends the message last. What is
  true is that everything it made is undone; a file that was replaced is not brought back (`RunConserves`).
* `src/dev/monitor.rs:20-21` says that a device produces at most one `Add` and one `Remove`. A syspath that
  comes back produces them again; what is true is that they alternate (`RunAlternates`).
* `src/cli/mod.rs:3-4` says that both annotation types can be printed. `Symlink` cannot, so the round trip
  is stated for `DeviceRef` alone.
* `src/hotplug/mod.rs:84-86` says that devices present at start-up are attached before `Initialized`. A
  device removed in the meantime is not attached any more (`StartupDevicesReady`).

## Model

| member | source | states |
|---|---|---|
| `Monitor.DeviceMonitor.constructor` | `src/dev/monitor.rs:56-79` | The queue is the enumerated devices at or below a root in their order, `seen` indexes them by syspath, and events that arrived since the socket was opened are still pending. |
| `Monitor.DeviceMonitor.TryRead` | `src/dev/monitor.rs:86-122` | Enumerated devices first; then socket events up to and including the first that adds an unseen device below a root or removes a seen one; new state and result are those of `Read`, whose meaning `ReadTracks` states. |
| `Monitor.DeviceMonitor.PollNext` | `src/dev/monitor.rs:128-149` | New state and result, an event, pending or the end of the stream, are those of `Poll`, whose meaning `PollTracks` states; readiness is cleared only when nothing is left to read. |
| `Monitor.DeviceMonitor.Deliver` | `src/dev/monitor.rs:57-58` | The kernel queues an event on the socket, which becomes readable. |
| `Monitor.FilteredIndices` | `src/dev/monitor.rs:61-66` | The queue holds the devices of the scan at exactly the indices whose syspath has one of the roots as a component prefix, in their order. |
| `Monitor.ReadDrains` | `src/dev/monitor.rs:83-94` | A read with nothing to report has emptied both the enumerated queue and the socket. |
| `Monitor.HostExact` | `src/dev/monitor.rs:16-19` | The host of the model: a device is present exactly when it was added and neither replaced nor removed since. |
| `Monitor.ScanIsRestriction` | `src/dev/monitor.rs:60-71` | The index of a duplicate-free listing of the host, filtered by the roots, is exactly the host restricted to the roots. |
| `Monitor.OverlapConsistent` | `src/dev/monitor.rs:57-66` | While the events of the overlap between listening and enumerating are replayed, at each syspath the map is what enumeration found or agrees with the host of that moment. |
| `Monitor.OverlapIsNeutral` | `src/dev/monitor.rs:57-66` | Once all events of the overlap are replayed, no key and no snapshot differs from what enumeration found. |
| `Monitor.ReplayFollowsHost` | `src/dev/monitor.rs:91-121` | After the overlap the replayed map equals the host restricted to the roots, after every single event. |
| `Monitor.Convergence` | `src/dev/monitor.rs:56-122` | For every alternating host history, every moment of listening, of enumerating and of reading: replaying the unread events over `seen` gives exactly the present devices below the roots with their present snapshots. |
| `Monitor.StartTracks` | `src/dev/monitor.rs:56-79` | The start establishes the invariant of the monitor, with nothing delivered yet and `seen` equal to the restricted host. |
| `Monitor.PushTracks` | `src/dev/monitor.rs:57-58` | A host event keeps the invariant and delivers nothing by itself. |
| `Monitor.ReadTracks` | `src/dev/monitor.rs:86-122` | A read keeps the invariant; what it reports fits the delivered devices (an addition of an absent one, or a removal with the delivered snapshot) and changes them by exactly that; reporting nothing leaves them alone. |
| `Monitor.PollTracks` | `src/dev/monitor.rs:128-149` | Polling keeps the invariant, and no wake-up is lost: it is pending only when the delivered devices are exactly the present ones below the roots. |
| `Monitor.PollNeverFinishes` | `src/dev/monitor.rs:132-148` | Polling never ends the stream, from any state whatever. |
| `Monitor.DrainedIsExact` | `src/dev/monitor.rs:81-94` | With both queues empty, `seen`, the delivered devices and the restricted host coincide. |
| `Monitor.DeliveredExactly` | `src/dev/monitor.rs:56-122` | With both queues empty a device is delivered if and only if it is present on the host and one of the roots is a component prefix of its syspath, and then with the snapshot of the host. |
| `Monitor.DeliveredBelow` | `src/dev/monitor.rs:97-102` | What is delivered at any time has one of the roots as a component prefix. |
| `Monitor.SeenPairwise` | `src/dev/monitor.rs:86-122` | Any relation that holds between devices present at the same time (or both within the overlap) holds between all devices in `seen`, also while `seen` matches no state of the host. |
| `Monitor.FittingAlternates` | `src/dev/monitor.rs:20-21` | A sequence of fitting events is, for each syspath, Add, Remove, Add, Remove and so on, each Remove with the snapshot of the Add before it. |
| `DeviceFilter.DeviceAccessController.constructor` | `src/cgroup.rs:92-94` | No device starts out accessible, and the program is pinned. |
| `DeviceFilter.DeviceAccessController.SetPermission` | `src/cgroup.rs:155-173` | Revoking removes an entry and fails if there is none; granting overwrites or inserts, and fails if 256 other entries are present; nothing else changes. |
| `DeviceFilter.DeviceAccessController.Drop` | `src/cgroup.rs:75-79` | Dropping removes the pin and leaves the map alone. |
| `DeviceFilter.PackUnpack` | `cgroup_device_filter/src/main.rs:102-107` | The two masks recover type and access from the request word, for all 16-bit halves. |
| `DeviceFilter.EmptyMapDecides` | `cgroup_device_filter/src/main.rs:36-127` | With an empty map exactly these requests are allowed, in numbers: type 1 or 2 with access 1, and type 2 with major and minor 1:3, 1:5, 1:7, 1:8, 1:9, 5:0, 5:1, 5:2 or major 136. |
| `DeviceFilter.DecisionExact` | `cgroup_device_filter/src/main.rs:98-147` | If the map grants exactly the given nodes and none is numbered (0, 0), every request is decided as intended: node creation, a default device, or an attached device with known access bits only. |
| `DeviceFilter.FallbackOpens` | `cgroup_device_filter/src/main.rs:132-142` | A node numbered (0, 0) opens every device number of its type for all known access bits. |
| `DeviceFilter.PolicyHoldsIff` | `cgroup_device_filter/src/main.rs:98-147` | The intended policy is met on all requests if and only if no granted node is numbered (0, 0). |
| `DeviceFilter.DecidesIff` | `cgroup_device_filter/src/main.rs:98-147` | For any map of full entries for some of the given nodes: all requests are decided as intended if and only if each node is open, by default, by its entry or by the fallback, and a fallback entry opens nothing else. |
| `DeviceFilter.DecidesSimply` | `cgroup_device_filter/src/main.rs:98-147` | While some number of each type is not taken: if and only if no node is numbered (0, 0) and each is a default one or has its entry. |
| `Mounts.BindWritable` | `src/runc/container.rs:329-337` | Binding a directory makes exactly the paths at or below it writable and changes no other path, on any tree of mounts. |
| `Mounts.DetachUndoesBind` | `src/runc/container.rs:403-410` | Detaching right after binding gives the original tree of mounts back. |
| `Mounts.DetachTakes` | `src/runc/container.rs:403-410` | Detaching takes along what was mounted further down in between. |
| `Mounts.DetachBindCommute` | `src/runc/container.rs:338-410` | Binds and detaches of unrelated directories commute. |
| `Mounts.BindAllWritable` | `src/runc/container.rs:329-337` | After any sequence of binds a path is writable exactly when it was before or a bound directory is a component prefix of it. |
| `Mounts.DetachFromAll` | `src/runc/container.rs:404-410` | Detaching after any list of binds, in any order, gives the mounts of the list without the topmost bind of the directory and the later ones below it, or changes nothing if a later bind further up hides it or none is left. |
| `Mounts.SortedDropped` | `src/runc/container.rs:404-410` | If no directory was bound after one below it, every listed directory is the topmost mount, and detaching it takes along exactly the listed ones at or below it. |
| `Mounts.WalkIsLookup` | `src/runc/container.rs:329-335` | The lookup agrees with a walk that takes the path component by component and crosses every mount it meets, on any tree whose mounts are attached at or below their parent. |
| `IdMap.Parse` | `src/util/namespace.rs:112-122` | The loop computes the list that `ParseMap` describes, and gives up at the first malformed line. |
| `IdMap.ParseAccepts` | `src/util/namespace.rs:111-122` | A map file is accepted if and only if every line starts with three decimal numbers below 2^32. |
| `IdMap.PrintParse` | `src/util/namespace.rs:111-122` | Printing any list of triples, with any spaces and tabs, one per line, and parsing it returns exactly the list when all numbers fit in 32 bits, and fails otherwise. |
| `Text.WordsExact` | `src/util/namespace.rs:115` | The words of a line are the runs between tabs, newlines, form feeds, carriage returns and spaces, for any words and any such white space. |
| `Text.FirstLine` | `src/util/namespace.rs:114` | A line ends at the first newline. |
| `Text.FirstLineReturn` | `src/util/namespace.rs:114` | One carriage return before the newline that ends a line is not part of it, and a second one is. |
| `Text.DecimalAccepts` | `src/util/namespace.rs:116-118` | A number is an optional plus sign and at least one decimal digit whose value fits. |
| `IdMap.TranslateExact` | `src/util/namespace.rs:127-134` | For any map at all: the exact condition under which an ID has a counterpart, with the checked additions, and which counterpart. |
| `IdMap.KernelTranslate` | `src/util/namespace.rs:127-134` | In a map the kernel accepts, the range containing an ID translates it; no overflow exit is taken on a mapped ID. |
| `IdMap.TranslateDefined` | `src/util/namespace.rs:127-134` | In such a map translation is defined exactly on the union of the inside ranges. |
| `IdMap.TranslateInjective` | `src/util/namespace.rs:127-134` | In such a map different IDs have different counterparts. |
| `IdMap.TranslateUnordered` | `src/util/namespace.rs:127-134` | In such a map the order of the lines does not matter. |
| `IdMap.OwnerExact` | `src/runc/container.rs:324` | The owner of a node exists exactly when user and group are mapped, and is the user translated by the user map and the group by the group map. |
| `IdMap.OutsideIff` | `src/util/namespace.rs:169-171` | A process is outside a user namespace exactly when both maps are the one line 0 0 4294967295. |
| `IdMap.OutsideIsIdentity` | `src/util/namespace.rs:169-183` | Outside a user namespace both translations are the identity below the largest 32-bit ID, which has no counterpart. |
| `Uevent.UdevSender.constructor` | `src/hotplug/kobject_uevent.rs:58-72` | Numbering starts at 0 with nothing sent. |
| `Uevent.UdevSender.Send` | `src/hotplug/kobject_uevent.rs:78-130` | The sequence number goes up by one (wrapping at 64 bits) and, if the socket accepts it, exactly one message is sent: header and properties built byte by byte. |
| `Uevent.HeaderReadsBack` | `src/hotplug/kobject_uevent.rs:14-33` | The fixed part of every message reads back at the offsets of the header struct: prefix, magic in network order, header size, the two hashes, and a bloom filter of ones. |
| `Uevent.WordBytes` | `src/hotplug/kobject_uevent.rs:22-32` | A header word is stored with the least significant of its four bytes first. |
| `Uevent.PayloadExact` | `src/hotplug/kobject_uevent.rs:93-98` | The offset and length in the header delimit exactly the properties, cut to a 32-bit length. |
| `Uevent.DecodeEncode` | `src/hotplug/kobject_uevent.rs:83-92` | Decoding NUL-terminated name=value pairs returns the properties that were encoded, in order. |
| `Uevent.MessageRoundTrip` | `src/hotplug/kobject_uevent.rs:78-130` | Slicing a message by its header and decoding it gives the action, the number and the other properties of the device in their order. |
| `Uevent.ForwardedIndices` | `src/hotplug/kobject_uevent.rs:83-92` | Forwarded are the properties at exactly the indices whose name is neither ACTION nor SEQNUM, in their order. |
| `Uevent.ClientReads` | `src/hotplug/kobject_uevent.rs:78-130` | A client decodes ACTION, SEQNUM and then the properties of the device at exactly those indices, each once and in order. |
| `Uevent.SuppliedOnce` | `src/hotplug/kobject_uevent.rs:82-87` | ACTION and SEQNUM occur once each, whatever the device itself reports under these names. |
| `Uevent.NumberReadsBack` | `src/hotplug/kobject_uevent.rs:79-82` | The number decodes to the number sent. |
| `ContainerState.Container.Device` | `src/runc/container.rs:442-453` | Changes one entry of the permission map, as `SetPermission` does. |
| `ContainerState.Container.Mknod` | `src/runc/container.rs:301-327` | Parents are made, what is at the path is replaced, then ownership is translated; on each error the files are as the code leaves them. |
| `ContainerState.Container.Symlink` | `src/runc/container.rs:415-425` | The same for a symlink, without ownership. |
| `ContainerState.Container.Rm` | `src/runc/container.rs:432-436` | Whatever file is at the path is gone; a missing file is not an error. |
| `ContainerState.Container.BindSysfs` | `src/runc/container.rs:338-401` | On success the directory is mounted writable on top of what is there; on failure no mount changes. |
| `ContainerState.Container.UnbindSysfs` | `src/runc/container.rs:404-410` | The topmost mount at the directory is detached, if there is one; a refusal is ignored. |
| `ContainerState.MakeDirsExact` | `src/runc/container.rs:309-311` | All missing directories below the nearest existing ancestor are made if that is a directory, and none otherwise; nothing else changes. |
| `ContainerState.MakesTheWay` | `src/runc/container.rs:309-311` | If only directories are on the way, all of the way consists of directories afterwards and every other path is unchanged. |
| `ContainerState.PlaceSucceedsIff` | `src/runc/container.rs:415-425` | A symlink is placed if and only if no call fails, the path is neither the root nor a directory, and its nearest existing ancestor is a directory. |
| `ContainerState.PlaceNodeSucceedsIff` | `src/runc/container.rs:301-327` | A node is placed under the same condition, if the container user exists on the host as well. |
| `ContainerState.PlaceKeepsPlaceable` | `src/runc/container.rs:308-321` | Placing one file decides nothing about places neither above nor below it. |
| `ContainerState.PlaceFiles` | `src/runc/container.rs:415-425` | After a successful placement the path holds the entry and, directories aside, every other path is as before. |
| `ContainerState.PlaceNodeFiles` | `src/runc/container.rs:301-327` | After a successful mknod the path holds the node with its translated owner and every other path is as before. |
| `ContainerState.DeleteFiles` | `src/runc/container.rs:432-436` | After a removal the path holds no file and every other path is as before. |
| `ContainerState.PlaceFails` | `src/runc/container.rs:415-425` | A placement that fails inside the container has removed the file that was there and touched no other; one that never got inside has changed nothing. |
| `ContainerState.PlaceNodeFails` | `src/runc/container.rs:301-327` | The same for a node; when its owner has no host counterpart the node stays, with the owner it was made with. |
| `Controller.HotPlug.constructor` | `src/hotplug/mod.rs:58-80` | A new controller has no attached and no bound devices and has not initialised. |
| `Controller.MatchesExactly` | `src/cli/symlink.rs:116-131` | A rule matches exactly when the first properties named ID_VENDOR_ID, ID_MODEL_ID and ID_USB_INTERFACE_NUM have its values. |
| `Controller.LinkIndices` | `src/hotplug/mod.rs:120-124` | The symlinks are the paths of exactly the rules that match, one for each, in their order. |
| `Controller.HotPlug.CollectLinks` | `src/hotplug/mod.rs:120-124` | The paths of the matching rules, in the order of the rules. |
| `Controller.HotPlug.PlaceLinks` | `src/hotplug/mod.rs:132-134` | Symlinks are made one after another until one fails. |
| `Controller.HotPlug.RemoveLinks` | `src/hotplug/mod.rs:170-172` | Symlinks are removed one after another until one fails. |
| `Controller.HotPlug.ProcessAdd` | `src/hotplug/mod.rs:115-155` | New state and result of an addition, with every exit: permission, node, symlinks, optional sysfs directory, message, record, in this order. |
| `Controller.HotPlug.ProcessRemove` | `src/hotplug/mod.rs:156-178` | New state and result of a removal, with every exit: record, sysfs directory, permission, node, symlinks, message, in this order. |
| `Controller.HotPlug.Process` | `src/hotplug/mod.rs:113-179` | Both kinds of events; an error ends the stream. |
| `Controller.HotPlug.Turn` | `src/hotplug/mod.rs:91-107` | One turn of the loop that is running: draining, then `Initialized` once, then following. |
| `Controller.HotPlug.Resume` | `src/hotplug/mod.rs:91-107` | Resuming the stream takes turns up to the first that yields, waits or fails, skipping events without effect. |
| `Effects.Ignored` | `src/hotplug/mod.rs:111-112` | Events for devices without a node, or never attached, change nothing and report nothing. |
| `Effects.AttachesStep` | `src/hotplug/mod.rs:113-179` | After every successful event the attached devices are exactly the delivered devices with a node, with the symlinks of the matching rules; and the event reported is the one for that device. |
| `Effects.GrantsStep` | `src/hotplug/mod.rs:126-168` | With distinct numbers every successful event keeps the permission map at exactly one full entry per attached device. |
| `Effects.GrantsExactlyIff` | `src/hotplug/mod.rs:126-168` | Without that assumption: an addition always keeps the map in step, a removal does if and only if no other attached device has the number. |
| `Effects.NoSpuriousAbort` | `src/hotplug/mod.rs:156-168` | With distinct numbers no event fails for a missing entry or an absent node, and a full map refuses an addition only when 256 devices are attached. |
| `Progress.AddSucceedsIff` | `src/hotplug/mod.rs:115-155` | If no path of the device lies above another one: it is attached if and only if its number has an entry or fewer than 256 have, the container user exists on the host, each of its paths can be taken, and no call fails; whether sysfs can be made writable does not matter. |
| `Progress.RemoveSucceedsIff` | `src/hotplug/mod.rs:156-178` | An attached device is detached if and only if its number has an entry, the container can be entered for each call, and the message is accepted. |
| `Progress.TurnFailsIff` | `src/hotplug/mod.rs:91-107` | With unshared numbers and no failing call, a turn of any run fails if and only if it adds a device while 256 are attached, for a user without a host counterpart, or at a path that cannot be taken. |
| `Footprints.FilesStep` | `src/hotplug/mod.rs:120-172` | A successful event rewrites the paths of its own footprint and no other. |
| `Footprints.OwnStep` | `src/hotplug/mod.rs:120-172` | With unshared paths every successful event leaves every attached device its node and its symlinks, whatever was at the paths before. |
| `Footprints.PresentStep` | `src/hotplug/mod.rs:120-172` | If these paths were free at the start as well, every other path stays as it was then. |
| `Footprints.ContentElsewhere` | `src/hotplug/mod.rs:120-172` | For any alternating log: a path of no attached device holds what it held at the start, or nothing if some event was about it. |
| `Sysfs.SysfsExact` | `src/hotplug/mod.rs:138-163` | Arranged mounts make exactly the bound directories writable, and without any the original mounts are back. |
| `Sysfs.SysfsStep` | `src/hotplug/mod.rs:138-163` | An event with no attached device below keeps the mounts arranged, whether its bind works or not. |
| `Sysfs.EventChanges` | `src/hotplug/mod.rs:138-163` | Every successful event binds or detaches the directory of its own device, or none. |
| `Sysfs.AdditionExact` | `src/hotplug/mod.rs:138-147` | A bind keeps writability exact from any state, and keeps the mounts backed by the bound directories if none of them lies at or below the new one. |
| `Sysfs.DetachExactIff` | `src/hotplug/mod.rs:161-163` | On any original mounts, unless they have one of their own at the directory that no bind covers, from any exact state, those left by earlier removals included: detaching keeps writability exact if and only if its bind was already gone, a mounted directory lies strictly above it, or no path of the other bound directories below it loses anything. |
| `Sysfs.RemovalExactIff` | `src/hotplug/mod.rs:161-163` | Where the original mounts are read-only, from any exact state: a removal keeps writability exact if and only if a bound directory lies strictly above it or no other one below it. |
| `Pipeline.RunOnTrack` | `src/dev/monitor.rs:86-149` | Every interleaving of host events and turns keeps the invariant of the monitor and the log of events in agreement with the delivered devices. |
| `Pipeline.RunAlternates` | `src/dev/monitor.rs:20-21` | In every run from the start, each syspath sees Add, Remove, Add, Remove and so on with matching snapshots, also during the overlap and up to the event whose processing fails. |
| `Pipeline.EmittedUnderRoot` | `src/dev/monitor.rs:97-102` | Every event ever emitted, in any run, is about a device that has one of the roots as a component prefix. |
| `Pipeline.TakenRelated` | `src/dev/monitor.rs:86-122` | Uniqueness on the host (within the overlap and afterwards) carries over to the event a turn takes and all delivered devices. |
| `Pipeline.RunRefines` | `src/hotplug/mod.rs:113-179` | In every run that has not failed the attached devices are exactly the delivered ones with a node. |
| `Pipeline.RunPermits` | `src/hotplug/mod.rs:126-168` | In every run that has not failed the permission map has exactly one full entry per attached device, given distinct numbers on the host. |
| `Pipeline.RunInStepIff` | `src/hotplug/mod.rs:126-168` | For every host whatever: the map was in step with the attached devices throughout a run if and only if no device was removed while another attached device had its number. |
| `Guarantees.RunDecides` | `cgroup_device_filter/src/main.rs:98-147` | In every such run the program decides all requests as intended for the devices attached at that moment, if and only if none of them is numbered (0, 0). |
| `Guarantees.RunNeverMisses` | `src/hotplug/mod.rs:156-168` | No turn of such a run fails for a missing entry or an absent node; a full map means 256 attached devices. |
| `Guarantees.RunDecidesIff` | `cgroup_device_filter/src/main.rs:98-147` | The same for every run that has not failed, whatever the host did: all requests are decided as intended if and only if each attached device is a default one, or its number or the fallback number of its type was last added, and a fallback number last added opens no number but those of attached devices. |
| `Guarantees.RunDecidesSimply` | `cgroup_device_filter/src/main.rs:98-147` | With fewer than about four billion nodes attached: if and only if none is numbered (0, 0) and each is a default one or its number was last added. |
| `Guarantees.RunLastGrant` | `src/hotplug/mod.rs:126-168` | In every run that has not failed, with no assumption on the host, a device number has an entry, a full one, if and only if the last processed event for it was an addition. |
| `Guarantees.MissingKeyIff` | `src/cgroup.rs:167-168` | A turn fails for a missing entry if and only if it removes a device with a node whose number was last processed in a removal, and gets past its sysfs directory. |
| `Guarantees.RunLastWriter` | `src/hotplug/mod.rs:120-172` | In every run that has not failed, with no assumption on the host, the last processed event touching a path decides its content. |
| `Guarantees.RunOwns` | `src/hotplug/mod.rs:120-172` | With unshared paths, whatever was at them before, in every run that has not failed each attached device has its node and all its symlinks. |
| `Guarantees.RunElsewhere` | `src/hotplug/mod.rs:120-172` | In every run that has not failed, with no assumption on the host, a path of no attached device is as at the start, or holds nothing if some processed event was about it. |
| `Guarantees.RunPresents` | `src/hotplug/mod.rs:120-172` | If the paths of the devices are not shared and were free at the start, in every run that has not failed each attached device has its node and all its symlinks and every other path is as at the start. |
| `Guarantees.RunConserves` | `src/hotplug/mod.rs:13` | A run that has not failed and has detached everything again, whatever the host did: no permission is left, and nodes and symlinks are as at the start if and only if nothing was at any path that a processed event was about. |
| `Guarantees.RunRestores` | `src/hotplug/mod.rs:13` | In particular everything is as at the start if paths are not shared and were free. |
| `Guarantees.RunIsExact` | `src/hotplug/mod.rs:113-179` | All layers at once, with unshared numbers and unshared free paths: attached devices, permission map and files agree with the delivered devices and with the log. |
| `Guarantees.UsableIff` | `src/hotplug/mod.rs:120-168` | Exactly when an attached device is usable, with no assumption on the host: its number was last added, and each of its paths was last written with its own node or symlink. |
| `Guarantees.DetachIsLocal` | `src/hotplug/mod.rs:156-178` | Detaching one device leaves the permission and the files of every other attached device in place, whatever was in `/dev` at the start. |
| `Guarantees.InitializedIsExact` | `src/hotplug/mod.rs:91-99` | When `Initialized` is yielded both queues are empty and the attached devices are exactly the present devices below the roots that have a node. |
| `Guarantees.WaitingIsExact` | `src/hotplug/mod.rs:101-105` | Whenever the stream waits, the attached devices are exactly the present devices below the roots that have a node. |
| `Guarantees.RunWaits` | `src/hotplug/mod.rs:101-105` | The same for every run from the start. |
| `Guarantees.RunAccounted` | `src/dev/monitor.rs:60-122` | In every run that has not failed each device found by enumeration is still in `seen` or its removal has been processed. |
| `Guarantees.StartupDevicesAttached` | `src/hotplug/mod.rs:84-99` | When `Initialized` is yielded every start-up device with a node is attached, unless its removal was processed. |
| `Guarantees.StartupDevicesReady` | `src/hotplug/mod.rs:84-99` | With unshared numbers and paths it has its permission and its files as well, whatever was in `/dev` before. |
| `Guarantees.RunAttaches` | `src/hotplug/mod.rs:84-99` | For every run from the start, whatever the host does: when `Initialized` is yielded the enumerated queue is empty, the attached devices are the present ones, and each start-up device with a node is attached or was removed. |
| `Guarantees.RunInitializes` | `src/hotplug/mod.rs:84-99` | With unshared numbers and paths, for every run from the start: each such device is usable or was removed, whatever was in `/dev` before. |
| `Guarantees.RunGrammatical` | `src/hotplug/mod.rs:91-107` | Every run yields device events, at most one `Initialized`, and device events again, never `Stopped`. |
| `Guarantees.StreamNeverEnds` | `src/hotplug/mod.rs:101-105` | The stream never ends but by an error, in any state. |
| `Guarantees.RunAnnounces` | `src/hotplug/mod.rs:149-176` | In every run the messages sent are, in order, those of the devices attached and detached, each with its action and device, numbered 1, 2, 3 and so on without gaps, modulo 2^64. |
| `Guarantees.AnnouncedWhenUsable` | `src/hotplug/mod.rs:126-149` | When the message of an addition is about to be sent, accepted or not, permission, node and symlinks are there. |
| `Ordering.RunMounted` | `src/hotplug/mod.rs:138-163` | In every run whose events come parents first and go children first the mounts stay arranged, whichever binds failed. |
| `Ordering.RunSysfsFollows` | `src/hotplug/mod.rs:138-163` | In every such run from the start writability is exact, and the original mounts are back when nothing is bound. |
| `Ordering.CalmReplay` | `src/dev/monitor.rs:57-66` | If nothing below the roots is removed between listening and enumerating, the overlap repeats only what enumeration told. |
| `Ordering.TakenIsLeaf` | `src/dev/monitor.rs:86-122` | For an ordered host and a calm window every event taken is at a leaf of the delivered devices. |
| `Ordering.RunSysfsExact` | `src/hotplug/mod.rs:138-163` | For such a host every run from the start has exact writability. |
| `SysfsRuns.RunListed` | `src/hotplug/mod.rs:138-163` | In every run that has not failed, whatever the host does and whichever binds fail, the mounts are the original ones with a list of binds on top that each event extends or shortens as stated. |
| `SysfsRuns.RunBinds` | `src/hotplug/mod.rs:138-163` | In every run that has not failed the bound devices are exactly the attached ones for which the option was set and the bind worked when they were added last. |
| `SysfsRuns.RunLeavesSysfs` | `src/hotplug/mod.rs:41-42` | Without the option no run, failed or not, binds a device or changes a mount. |
| `SysfsRuns.RunExactIff` | `src/hotplug/mod.rs:138-163` | At the end of every such run writability is exact if and only if the list and the bound directories cover each other. |
| `SysfsRuns.RunAlwaysExactIff` | `src/hotplug/mod.rs:138-163` | In every run that binds parents first, over read-only original mounts: writability was exact after every step if and only if at each removal of a bound device a bound directory lay strictly above it or no other one below it; and then nothing is left mounted once nothing is bound. |
| `Counterexamples.OverlapRevokes` | `src/dev/monitor.rs:57-66` | A run in which a number moves between devices within the overlap: the map is not in step any more, the new owner stays attached but is denied, and its removal fails, although present devices never shared a number. |
| `Counterexamples.OverlapUnmounts` | `src/dev/monitor.rs:57-66` | A run of an ordered host in which a hub is plugged in again within the overlap: writability is not exact, as the directory of the port below is bound but not writable. |
| `Counterexamples.LateBindRemains` | `src/hotplug/mod.rs:138-163` | A run in which a hub is bound after the port below it: every removal is safe, yet the port stays mounted writable after all devices are gone. |
| `Escape.Unescape` | `src/util/escape.rs:14-40` | The loop computes `Decoded`, with all three error exits. |
| `Escape.EscapeAccepts` | `src/util/escape.rs:29-34` | An escape is two hexadecimal digits, or a plus sign and one. |
| `Escape.TwoCharsSkipped` | `src/util/escape.rs:29-36` | The two-byte slice that is parsed always consists of the two characters skipped afterwards, neither a backslash. |
| `Escape.LengthAccounted` | `src/util/escape.rs:14-40` | On every success output characters plus three per escape equal input characters. |
| `Escape.SucceedsIff` | `src/util/escape.rs:18-37` | It succeeds if and only if every backslash starts a valid escape. |
| `Escape.DecodeEncode` | `src/util/escape.rs:8-13` | Whichever characters are escaped, in either case of digits, the original is returned. |
| `DeviceReference.FromStr` | `src/cli/device.rs:65-144` | The loop strips all `parent-of:` prefixes and the rest is parsed as `ParseKind` describes, with all error exits. |
| `DeviceReference.Display` | `src/cli/device.rs:147-177` | The loops print what `Print` describes. |
| `DeviceReference.ParseAccepts` | `src/cli/device.rs:65-144` | A text is accepted if and only if it is any number of `parent-of:` and then `usb:` with one to three well-formed parts, or an absolute path with first name `sys`, or one with first name `dev` that does not end in a slash. |
| `DeviceReference.StripExact` | `src/cli/device.rs:66-70` | All leading `parent-of:` prefixes are counted and nothing else is lost. |
| `DeviceReference.ReparseLevels` | `src/cli/device.rs:62-177` | Every well-formed reference, with any number of prefixes, is accepted in its printed form and reads back unchanged. |
| `DeviceReference.UsbText` | `src/cli/device.rs:109-113` | The printed USB reference is the text with its two IDs in lower case and its serial number unchanged. |
| `DeviceReference.ParsePrintParse` | `src/cli/mod.rs:3-5` | What is parsed prints back as the text with only the IDs in lower case, and parses again to the same reference, for any number of prefixes and any paths. |
| `DeviceReference.Resolve` | `src/cli/device.rs:226-234` | Walks up as many parents as there are prefixes and fails beyond the top. |
| `DeviceReference.ChainResolves` | `src/cli/device.rs:226-234` | Along a chain of devices, each the parent of the one before, the last one is reached. |
| `DeviceReference.ResolvedByChain` | `src/cli/device.rs:226-234` | What is reached is reached along such a chain only. |
| `DeviceReference.ParentOfResolves` | `src/cli/device.rs:14-21` | One more `parent-of:` resolves to the parent of what the reference resolves to. |
| `CgroupEvents.Observe` | `src/runc/container.rs:44-60` | The first `populated` line decides; an unreadable file counts as unpopulated; a file without the field is an error. |
| `CgroupEvents.PopulatedIsWritten` | `src/runc/container.rs:49-57` | The answer is "populated" if and only if the first `populated` line ends in 1. |
| `CgroupEvents.UnreadableIff` | `src/runc/container.rs:44-60` | It is an error exactly when the whole file can be read and no line starts with the field. |
| `CgroupEvents.SightExact` | `src/runc/container.rs:44-78` | After a change the answer is "populated" exactly when the file can be read and its first such line ends in 1, and an error exactly when the wait failed or the whole file has no such line; otherwise the cgroup counts as unpopulated. |
| `CgroupEvents.Wait` | `src/runc/container.rs:63-78` | Waiting ends at the first reading that is not "populated" or the first error of a wait for a change, successfully if and only if that reading says unpopulated, and the watcher of the daemon takes the same steps. |
| `Supervisor.EventLoop.constructor` | `src/main.rs:200-206` | The loop starts with the pipe unused and no event taken. |
| `Supervisor.EventLoop.Run` | `src/main.rs:206-226` | State and exit of the loop over the items that have arrived are those of `Loop`. |
| `Supervisor.ReactsExactly` | `src/main.rs:209-225` | The loop kills the container exactly when the syspath of a detached device equals one of the roots, and is left without a kill exactly at `Stopped`. |
| `Supervisor.LoopGoesOn` | `src/main.rs:206-226` | While the stream holds, no root itself is detached and `Stopped` does not come, every event offered is taken and the loop keeps running. |
| `Supervisor.LoopStopsAtTerminal` | `src/main.rs:206-226` | The loop takes a prefix of what it is offered, nothing after the first `Stopped` or first removal of a root device, and ends normally only at one of them. |
| `Supervisor.DaemonIsLoop` | `src/main.rs:206-226` | In every run of the daemon its moves do to the loop, up to the exit, what the loop does over the items that came, a failed stream being a broken item. |
| `Supervisor.SharedContainer.constructor` | `src/main.rs:178` | The container starts with one handle. |
| `Supervisor.SharedContainer.Clone` | `src/main.rs:180-193` | One handle more, nothing else changes. |
| `Supervisor.SharedContainer.Release` | `src/main.rs:228` | The release of the last handle, and of no other, drops the container and with it the pin; the step of the daemon is the same function. |
| `Supervisor.PinOutlives` | `src/main.rs:178-228` | In every run, through every exit, the pin is removed only if the cgroup was found unpopulated. |
| `Supervisor.PinAtTheEnd` | `src/main.rs:178-228` | Once all handles are dropped the pin is gone after a normal exit and still there after any other. |
| `Supervisor.SetupExact` | `src/main.rs:184-189` | The loop is reached exactly when all five steps before it work; the first that does not work makes the daemon leave with a failure, with nothing written and no event taken. |
| `Supervisor.EndsWhenEmpty` | `src/main.rs:217-228` | Once the cgroup has been found unpopulated, the next look at that ends the loop or the wait after a kill normally, and with four drops every handle, the container and the pin are gone. |
| `Supervisor.FailsWithPin` | `src/main.rs:179-228` | A failed stream or a failed watch ends the supervisor with a failure; after three drops only the kept handle is left and the filter is still pinned. |
| `Supervisor.TellingMove` | `src/main.rs:210-214` | The pipe is held exactly until initialisation is reported, and written only by the move that reports it. |
| `Supervisor.InitializedOnce` | `src/main.rs:212` | The exit for a second `Initialized` is unreachable. |
| `Supervisor.DaemonRuns` | `src/main.rs:189-226` | What the daemon does to the pipeline under any interleaving is a run of the pipeline, so that every result about runs applies. |
| `Supervisor.AttachedBeforeEntrypoint` | `src/main.rs:206-214` | Under every interleaving and for every host, when the byte is written the enumerated queue is empty, the attached devices are the present ones and every start-up device is attached or was removed; it is written at most once. |
| `Supervisor.DevicesBeforeEntrypoint` | `src/main.rs:206-214` | With unshared numbers and paths: when the byte is written, each start-up device is usable or was removed, whatever was in `/dev` before. |
| `Supervisor.DaemonStops` | `src/main.rs:206-226` | In every run of the daemon no event is taken after the first `Stopped` or the first removal of a root device, and a normal exit comes only after one of them. |

## Left out

* Loading, attaching, pinning and detaching the eBPF program (`src/cgroup.rs:94-146`): calls into the kernel.
  The permission map starts empty and the pin starts present.
* Entering namespaces, capabilities, idmapped mounts and `mount_setattr`: only their effect, or the fault
  they end in, is kept. A failed idmapping changes nothing.
* `Container::remount_dev` and the rest of `Container::new`: mostly one kernel call per directory entry.
* Wakers, readiness internals and the fairness of merging: a readiness flag and arbitrary interleaving
  remain. Errors of the udev socket itself do not occur in the model.
* fork, pipe set-up, exec, signals, command line, JSON configuration and state, logging and the build script.
* The two murmur2 hashes of a message are given numbers of the device, and the machine is little-endian.
* Parsing of `Symlink` annotations, `Device::from_udev` and display names: a device is given as its snapshot
  of node and properties, a rule as its parsed values.
* Looking a device up by USB attributes, syspath or node: the device found is a parameter of `Resolve`.
* udev events other than addition and removal do nothing in the code and in the model; a socket buffer that
  overflows and a container that edits its own `/dev` are not modelled.
* Paths are not resolved through symlinks inside the container, removing a file fails only because it is
  missing or a directory, and giving a node away fails only for an ID without a counterpart.
- Uevent.UdevSender.Send: the sequence number wraps at 64 bits as in a release build, a build with overflow checks would panic there instead.
- Uevent.MessageRoundTrip: is about properties as libudev holds them, C strings without NUL and names without an equals sign.
- Monitor.DeviceMonitor.Deliver: stands for the kernel, so it has no counterpart in the code beyond the socket.
- ContainerState.Container.BindSysfs: all kernel calls on the way are one success flag, as none of them leaves anything behind on failure.
- Ordering.RunSysfsExact: does not model that the kernel detaches a mount when its device directory vanishes, so after an unprocessed replug a bound directory counts as writable although its mount is gone; the same holds for the results of `SysfsRuns`.
- DeviceFilter.DeviceAccessController.constructor: stands for attaching and pinning the program and detaching the others, which are calls into the kernel, without their failures.
- ContainerState.Container.Rm: a removal that the kernel refuses leaves the file in place in the code, without an error; here it fails only for a missing file or a directory.
- ContainerState.DeleteFiles: the same, as it is about `Rm`.
- ContainerState.Container.UnbindSysfs: a detach that the kernel refuses for another reason than that nothing is mounted there is not represented.
- DeviceReference.Resolve: the search for the device that the reference matches is a call into udev, so its result is a parameter.
