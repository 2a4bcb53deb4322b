# Bluetooth live discovery in CommonLinuxApiSystem, modelled in Dafny

This project models the Bluetooth live-discovery bookkeeping of the
EmulationStation frontend's `CommonLinuxApiSystem`, the Linux back end that
talks to BlueZ over D-Bus. It also models the event formatting and snapshot
filtering around that bookkeeping, and the two PackageKit update-check
decisions of the same file.

- **Bus values** (`bluez.dfy`, module `Bluez`): D-Bus variants, property
  maps, the `GetManagedObjects` enumeration and the `Device` record. Every
  typed read `get<T>()` can throw, so it is modelled as a `Result`. A
  wrong-typed or empty variant gives `BusError` (sdbus::Error), and
  `std::map::at` on a missing key gives `OutOfRange` (std::out_of_range).
  `extractDevice` is modelled here.
- **Markup** (`markup.dfy`, module `Markup`): `deviceAddedEvent`,
  `deviceRemovedEvent` and `deviceEvent` as exact string constructions. A
  small attribute parser is their partner: the lemmas read each event back
  as its attributes, in order, whenever no field holds a double quote. A
  collision lemma shows what goes wrong when a field does hold one.
- **Snapshot filter** (`snapshot.dfy`, module `Snapshot`):
  `getBluetoothDevices` is a loop proved against a specification function.
  The two eligibility filters are modelled here too: the snapshot lambda and
  `pairBluetoothFilter`.
- **Session bookkeeping** (`session.dfy`, module `Session`), as values:
  - the notices the tracker hands to the frontend, and the tracked map they
    build up
  - the session invariant: per path, "added" and "removed" alternate, and a
    "removed" repeats the device that was announced
  - the snapshot pass, and the InterfacesAdded decision
- **Tracker** (`tracker.dfy`, module `Tracker`): class `LiveDevices`.
  - Its field `discovered` is `discoveredDevicePaths`.
  - `subscribed` says whether the signal subscriptions are held.
  - `delivered` is every string passed to the frontend callback.
  - `Start`, `InterfacesAdded`, `InterfacesRemoved` and `Stop` update these
    fields in place. `Announce` is one critical section: the test, the map
    update and the callback.
  - `Start` runs the clearing section, then one section per snapshot entry.
  - Each handler runs one section per `org.bluez.Device1` entry it meets.
    For `InterfacesRemoved` that section is `RemoveTracked`.
  - `Stop` takes no lock; it only drops the subscriptions.
  - The ghost `session` log and `Valid()` tie the fields to the session
    invariant.
- **Update checks** (`update_check.dfy`, module `UpdateCheck`):
  `updateSystem` and `canUpdate`, as functions of the lines and exit codes of
  the commands they run.

Behaviour of the code that the model follows deliberately:
- `stopBluetoothLiveDevices` does not clear the tracked map. It is cleared
  by the next `startBluetoothLiveDevices`.
- The snapshot pass does not look at `Connected`: every unpaired device with
  a non-empty name that is not yet tracked is announced. An empty name is
  filtered out by `getBluetoothDevices` itself.
- The frontend callback runs inside the critical section.
- A failing `StartDiscovery` call is not caught: its exception leaves
  `startBluetoothLiveDevices` before anything is subscribed.
- A snapshot filter that meets a device without `Paired` throws
  std::out_of_range. This is not an sdbus::Error, so it escapes the `catch`,
  and the subscriptions are not made.
- `pairBluetoothFilter` takes its map by value and uses `operator[]`. A
  missing `Paired` key therefore reads an empty variant, whose `get<bool>()`
  throws sdbus::Error.

## Model

| member | source | states |
|---|---|---|
| `Bluez.ExtractDevice` | es-app/src/CommonLinuxApiSystem.cpp:166-184 | Succeeds exactly when `Address` and `Name` are each absent or a string. Each present field is copied and each absent one becomes "". A failure is an sdbus::Error, never a missing-key error. |
| `Bluez.ExtractDeviceRoundTrip` | es-app/src/CommonLinuxApiSystem.cpp:166-184 | Address and Name written into any property map are read back unchanged. |
| `Markup.DeviceAddedEvent` | es-app/src/CommonLinuxApiSystem.cpp:186-192 | deviceAddedEvent as the exact string the code writes. Its properties are stated by `Markup.AddedEventShape`, `Markup.ParseAddedEvent`, `Markup.EventsDetermineDevice` and `Markup.QuotedFieldsCollide`. |
| `Markup.AddedEventShape` | es-app/src/CommonLinuxApiSystem.cpp:186-192 | deviceAddedEvent is exactly the `<device … />` element with attributes id, name, status="added", type="device", in that order. |
| `Markup.DeviceRemovedEvent` | es-app/src/CommonLinuxApiSystem.cpp:194-200 | deviceRemovedEvent as the exact string the code writes. Its properties are stated by `Markup.RemovedEventShape`, `Markup.ParseRemovedEvent` and `Markup.EventsDetermineDevice`. |
| `Markup.RemovedEventShape` | es-app/src/CommonLinuxApiSystem.cpp:194-200 | deviceRemovedEvent is the same element with status="removed". |
| `Markup.ParseAddedEvent` | es-app/src/CommonLinuxApiSystem.cpp:186-192 | Reading an added event back gives exactly [id=address, name=name, status=added, type=device] when neither field holds a `"`. |
| `Markup.ParseRemovedEvent` | es-app/src/CommonLinuxApiSystem.cpp:194-200 | Reading a removed event back gives exactly [id=address, name=name, status=removed, type=device] when neither field holds a `"`. |
| `Markup.EventsDetermineDevice` | es-app/src/CommonLinuxApiSystem.cpp:186-200 | For quote-free fields, an added event (and a removed event) determines the device. No added event equals a removed event. |
| `Markup.QuotedFieldsCollide` | es-app/src/CommonLinuxApiSystem.cpp:188-190 | Attribute values are not escaped: moving `" name="` from the end of any address to the front of the name gives a different device with the same added event. |
| `Markup.DeviceEvent` | es-app/src/CommonLinuxApiSystem.cpp:202-230 | Succeeds exactly when extractDevice succeeds and `Connected` and `Class`, when present, are a bool and a uint32. Every failure is an sdbus::Error. |
| `Markup.ParseDeviceEvent` | es-app/src/CommonLinuxApiSystem.cpp:218-227 | The element holds id, name, type and connected, in that order. type is "joystick" exactly when Class is 0x002508 or 0x000508, otherwise "". connected is "yes" exactly when Connected is true. |
| `Markup.DeviceType` | es-app/src/CommonLinuxApiSystem.cpp:218-221 | The class table: "joystick" exactly for class 0x002508 or 0x000508, "" for every other class and for a missing one. `Markup.ParseDeviceEvent` shows where it lands in the element. |
| `Snapshot.UnpairedFilter` | es-app/src/CommonLinuxApiSystem.cpp:251-253 | Accepts exactly when `Paired` is present and false. A missing `Paired` throws std::out_of_range; a non-bool one throws sdbus::Error. |
| `Snapshot.PairBluetoothFilter` | es-app/src/CommonLinuxApiSystem.cpp:232-234 | Accepts exactly when `Paired` is present and false. Every failure, including a missing key, is an sdbus::Error. It agrees with the snapshot filter whenever `Paired` is present. |
| `Snapshot.Keep` | es-app/src/CommonLinuxApiSystem.cpp:42-50 | An object is kept exactly when it has Device1, a non-empty string Name, and the filter accepts it. It throws exactly when Name is present but not a string, or is non-empty and the filter throws. |
| `Snapshot.GetBluetoothDevices` | es-app/src/CommonLinuxApiSystem.cpp:41-54 | The scanning loop, with its early exits on exceptions, computes `Selected`: the kept (path, Device1 properties) pairs, or the first fault. |
| `Snapshot.SelectedFailsAtFirstFault` | es-app/src/CommonLinuxApiSystem.cpp:41-52 | The scan succeeds exactly when no object throws. Otherwise it fails with the fault of the first object that throws. |
| `Snapshot.SelectedExactlyInOrder` | es-app/src/CommonLinuxApiSystem.cpp:41-52 | The result lists exactly the kept objects, each once, in enumeration order, with their Device1 properties. |
| `Session.NoticesAlternate` | es-app/src/CommonLinuxApiSystem.cpp:236-312 | In any legal session, the notices about one path alternate: added, removed, added, …, starting with "added" for an untracked path. The path is tracked at the end exactly when their count flipped its starting state. |
| `Session.TrackedByLastAdded` | es-app/src/CommonLinuxApiSystem.cpp:259-260 | A path that a session tracks is stored with the device of its last notice, which is an "added". |
| `Session.RemovedEchoesAdded` | es-app/src/CommonLinuxApiSystem.cpp:303-306 | A "removed" notice carries the device of the "added" notice that last announced its path. |
| `Session.SnapshotPass` | es-app/src/CommonLinuxApiSystem.cpp:254-267 | A fault that ends the snapshot pass is always an sdbus::Error, which the `catch` absorbs. |
| `Session.SnapshotPassConsistent` | es-app/src/CommonLinuxApiSystem.cpp:254-264 | The pass issues only legal notices, and the tracked map it leaves is their replay. |
| `Session.SnapshotPassOnlyAdds` | es-app/src/CommonLinuxApiSystem.cpp:254-264 | The pass issues only "added" notices and never changes an entry that was already tracked. |
| `Session.SnapshotPassCompletes` | es-app/src/CommonLinuxApiSystem.cpp:254-264 | The pass runs to the end exactly when extractDevice succeeds on every reported device. |
| `Session.SnapshotPassCovers` | es-app/src/CommonLinuxApiSystem.cpp:254-264 | A completed pass tracks every reported path, besides the paths tracked before. |
| `Session.SnapshotPassStops` | es-app/src/CommonLinuxApiSystem.cpp:254-267 | After a fault, nothing more is read, tracked or announced. |
| `Session.SnapshotAnnouncesInOrder` | es-app/src/CommonLinuxApiSystem.cpp:254-264 | A completed pass announces each reported path that is not yet tracked exactly once: at its first occurrence, in list order, with the device extractDevice reads there. Already tracked paths produce nothing. |
| `Session.AddedReaction` | es-app/src/CommonLinuxApiSystem.cpp:279-289 | The handler announces exactly when Device1 is among the interfaces, pairBluetoothFilter accepts it, extractDevice succeeds with a non-empty name, and the path is untracked. The announcement is legal and carries the extracted device. The handler throws exactly when pairBluetoothFilter throws, or when it accepts and extractDevice throws. |
| `Session.AddedAgainOnlyAfterRemoval` | es-app/src/CommonLinuxApiSystem.cpp:279-307 | While a path is tracked, a repeated InterfacesAdded for it is suppressed. After its removal, the same signal announces it again with the same device. |
| `Tracker.Enumerated` | es-app/src/CommonLinuxApiSystem.cpp:32-52 | A failed GetManagedObjects call is an sdbus::Error. Every reported device has a non-empty Name and `Paired` false. std::out_of_range comes only from an object with Device1, a non-empty Name and no `Paired`. |
| `Snapshot.UnpairedSelectedNamed` | es-app/src/CommonLinuxApiSystem.cpp:41-52 | With the snapshot lambda of lines 251-253 as filter, every reported device has a non-empty string Name and `Paired` false. |
| `Snapshot.UnpairedOutOfRange` | es-app/src/CommonLinuxApiSystem.cpp:251-253 | The snapshot throws std::out_of_range only for an object with Device1, a non-empty Name and no `Paired`. |
| `Session.SnapshotPassNamed` | es-app/src/CommonLinuxApiSystem.cpp:254-264 | A pass over devices that all carry a non-empty Name announces only devices with a non-empty name. |
| `Tracker.SnapshotAnnouncesOnlyNamed` | es-app/src/CommonLinuxApiSystem.cpp:250-264 | The snapshot part of startBluetoothLiveDevices never announces a device with an empty name. |
| `Tracker.SnapshotFound` | es-app/src/CommonLinuxApiSystem.cpp:250-267 | std::out_of_range from the snapshot escapes. An sdbus::Error leaves nothing to announce. Otherwise the pass sees exactly what getBluetoothDevices returned. |
| `Tracker.LiveDevices.Announce` | es-app/src/CommonLinuxApiSystem.cpp:259-261 | Inside a critical section: the map is updated by the notice, its markup is delivered, and the session invariant is kept. |
| `Tracker.LiveDevices.AnnounceSnapshot` | es-app/src/CommonLinuxApiSystem.cpp:254-264 | The snapshot loop leaves the map and the notices of `SnapshotPass` on the cleared map, and delivers exactly their markup, in order. |
| `Tracker.LiveDevices.Start` | es-app/src/CommonLinuxApiSystem.cpp:236-312 | The map is cleared first. A failed StartDiscovery or an escaping std::out_of_range leaves it empty, delivers nothing and changes no subscription. Otherwise the snapshot pass is applied and delivered, and the handlers are subscribed. |
| `Tracker.LiveDevices.InterfacesAdded` | es-app/src/CommonLinuxApiSystem.cpp:278-293 | While subscribed, the handler applies `AddedReaction`: it inserts and delivers one added event, leaves everything unchanged, or raises with everything unchanged. Unsubscribed, it does nothing. |
| `Tracker.LiveDevices.InterfacesRemoved` | es-app/src/CommonLinuxApiSystem.cpp:298-311 | A tracked path that lost Device1 is erased, and a removed event with its stored device is delivered once, however often Device1 is listed. Otherwise, and for every other path, nothing changes. |
| `Tracker.LiveDevices.RemoveTracked` | es-app/src/CommonLinuxApiSystem.cpp:301-308 | One locked section of the handler: a tracked path is erased and a removed event with its stored device is delivered. An untracked path changes nothing. |
| `Tracker.LiveDevices.Stop` | es-app/src/CommonLinuxApiSystem.cpp:314-323 | Drops the subscriptions and leaves the tracked map and the delivered events as they are. |
| `UpdateCheck.Contains` | es-app/src/CommonLinuxApiSystem.cpp:105 | `find` succeeds exactly when the pattern occurs at some position of the line. |
| `UpdateCheck.OfflinePrepared` | es-app/src/CommonLinuxApiSystem.cpp:103-108 | The flag stays true exactly when no line says that no offline updates have been prepared. |
| `UpdateCheck.UpdatesAvailable` | es-app/src/CommonLinuxApiSystem.cpp:132-137 | The flag becomes true exactly when some line does not say "no updates available". |
| `UpdateCheck.CanUpdate` | es-app/src/CommonLinuxApiSystem.cpp:97-156 | Updates are reported exactly when all of these hold: the offline check exits 0, 4 or 5; some offline line says no offline updates were prepared; the listing exits 0; and some listing line is not "no updates available". |
| `UpdateCheck.DecimalRoundTrip` | es-app/src/CommonLinuxApiSystem.cpp:87 | The decimal text of an exit code, as std::to_string writes it, reads back as that code. |
| `UpdateCheck.UpdateSystem` | es-app/src/CommonLinuxApiSystem.cpp:72-95 | Exit codes 0 and 5 succeed with code 0 and the last output line. Any other code is returned unchanged, with a message that starts with the failure text and ends with that code in decimal. |

## Left out

- The sdbus-c++ plumbing is not modelled: creating connections and proxies,
  calling `StartDiscovery` and `StopDiscovery`, and registering signals.
  - The `GetManagedObjects` reply is an input, and `None` stands for a
    failed call.
  - Whether `StartDiscovery` returned normally is an input.
  - Signal payloads are arguments.
  - A failure to create the root proxy or to register a signal is not
    modelled.
- Concurrency and `devicesMutex` are not modelled. Each method call on
  `LiveDevices` runs without interruption. The lock-free parts of the source
  run inside the same call: `extractDevice` and the filter before a section,
  and all of `Stop`. Threads, and interleavings between the snapshot loop
  and the handlers, are not modelled.
- The frontend callback `func` is one `delivered` log for all sessions.
  Passing a different callback to a later start is not distinguished.
- A handler invoked while nothing is subscribed does nothing: after
  `rootAdapterProxy.reset()` no signal is delivered.
- What sdbus-c++ does with an exception that leaves a signal handler is not
  part of this model. `InterfacesAdded` returns the fault instead.
- The order of `GetManagedObjects` results is not modelled. In the source
  they come in the sorted order of a `std::map` keyed by path. Here the
  enumeration is a sequence taken in its given order and may repeat a path;
  a repeat is then handled by the "already tracked" test.
- The order in which `InterfacesAdded` visits interface names is not
  modelled. The source's `interfacesAndProperties` is a `std::map`, so it
  visits them in sorted key order. The model's loop picks them in an
  arbitrary order. Only `org.bluez.Device1` acts, and a map holds it at most
  once, so the order does not matter.
- Undefined behaviour in `deviceEvent`: `isConnected` and `devClass` are
  uninitialised when `Connected` or `Class` is missing. The model reads a
  missing `Connected` as false and a missing `Class` as no class, which
  gives type "".
- Variants of other types (arrays, object paths, integers other than
  uint32) are a single `OtherValue`. Reading one as a string, bool or uint32
  throws sdbus::Error, as the source's `get<T>()` does.
- `ApiSystem::executeScript` is not part of this model: how it runs the
  shell and splits output into lines. A command is given as its lines, the
  text returned as last line, and its exit code.
- `UpdateCheck.UpdateSystem`: exit codes are unbounded integers. The
  source's `int` width is not modelled, because `std::to_string` writes any
  32-bit value the same way.
- Logging (`LOG`) is not modelled.
- `CommonLinuxApiSystem.h` is not modelled: it only declares the overrides.
- The shell-command wrappers are not modelled: `bluetoothctl`, `nmcli`,
  `timedatectl`, `systemctl` and `pkcon` invocations. They have no logic of
  their own.
- `getSystemInformations` and `getServices` are not modelled: they rely on
  string helpers that are not part of this model.
- `getTimezones` is not modelled: it only sorts.
