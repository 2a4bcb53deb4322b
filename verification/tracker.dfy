/**
  The live-discovery tracker of CommonLinuxApiSystem: the map of discovered
  device paths that startBluetoothLiveDevices clears and fills, the two
  signal handlers it installs, and stopBluetoothLiveDevices. Each critical
  section runs as one step; the frontend callback is the `delivered` log.
 */
module Tracker {
  import opened Wrappers
  import opened Bluez
  import opened Markup
  import opened Snapshot
  import opened Session

  /** What getBluetoothDevices yields for an enumeration; `None` is a failed GetManagedObjects call. */
  function Enumerated(enumeration: Option<seq<ManagedObject>>): (r: Result<seq<FoundDevice>, Fault>)
    ensures enumeration.None? ==> r == Err(BusError)
    ensures r.Ok? ==> forall k :: 0 <= k < |r.value| ==>
      Named(r.value[k].properties) && "Paired" in r.value[k].properties
      && r.value[k].properties["Paired"] == BoolValue(false)
    ensures r == Err(OutOfRange) ==>
      && enumeration.Some?
      && exists i :: (0 <= i < |enumeration.value| && DeviceInterface in enumeration.value[i].interfaces
           && Named(enumeration.value[i].interfaces[DeviceInterface])
           && "Paired" !in enumeration.value[i].interfaces[DeviceInterface])
  {
    match enumeration
    case None => Err(BusError)
    case Some(objects) =>
      var found := Selected(objects, UnpairedFilter);
      if found.Ok? then
        UnpairedSelectedNamed(objects);
        found
      else if found.error == OutOfRange then
        UnpairedOutOfRange(objects);
        found
      else found
  }

  /**
    The snapshot as startBluetoothLiveDevices sees it: an sdbus::Error is
    caught and leaves nothing to announce; std::out_of_range escapes (None).
   */
  function SnapshotFound(enumeration: Option<seq<ManagedObject>>): (r: Option<seq<FoundDevice>>)
    ensures r.None? <==> Enumerated(enumeration) == Err(OutOfRange)
    ensures r.Some? && Enumerated(enumeration).Ok? ==> r.value == Enumerated(enumeration).value
    ensures r.Some? && Enumerated(enumeration).Err? ==> r.value == []
  {
    match Enumerated(enumeration)
    case Ok(found) => Some(found)
    case Err(BusError) => Some([])
    case Err(OutOfRange) => None
  }

  /** The snapshot part of startBluetoothLiveDevices announces only devices with a non-empty name. */
  lemma SnapshotAnnouncesOnlyNamed(enumeration: Option<seq<ManagedObject>>)
    requires SnapshotFound(enumeration).Some?
    ensures var notices := SnapshotPass(map[], SnapshotFound(enumeration).value).notices;
      forall k :: 0 <= k < |notices| ==> notices[k].device.name != ""
  {
    SnapshotPassNamed(map[], SnapshotFound(enumeration).value);
  }

  class LiveDevices {
    /** discoveredDevicePaths. */
    var discovered: Tracked
    /** Whether rootAdapterProxy holds the two signal subscriptions. */
    var subscribed: bool
    /** Every string passed to the frontend callback, oldest first. */
    var delivered: seq<string>
    /** The notices issued since the map was last cleared. */
    ghost var session: seq<Notice>
    /** Where the current session begins in `delivered`. */
    ghost var sessionStart: nat

    ghost predicate Valid()
      reads this
    {
      && sessionStart <= |delivered|
      && delivered[sessionStart..] == RenderAll(session)
      && Consistent(map[], session)
      && discovered == Replay(map[], session)
    }

    constructor ()
      ensures Valid()
      ensures discovered == map[] && !subscribed && delivered == [] && session == []
    {
      discovered := map[];
      subscribed := false;
      delivered := [];
      session := [];
      sessionStart := 0;
    }

    /** Inside a critical section: apply a notice to the map and pass its markup to the callback. */
    method Announce(n: Notice)
      requires Valid() && Legal(discovered, n)
      modifies this
      ensures Valid()
      ensures discovered == Apply(old(discovered), n)
      ensures session == old(session) + [n]
      ensures delivered == old(delivered) + [Render(n)]
      ensures subscribed == old(subscribed) && sessionStart == old(sessionStart)
    {
      ReplaySnoc(map[], session, n);
      RenderAllSnoc(session, n);
      assert (delivered + [Render(n)])[sessionStart..] == delivered[sessionStart..] + [Render(n)];
      discovered := Apply(discovered, n);
      delivered := delivered + [Render(n)];
      session := session + [n];
    }

    /**
      startBluetoothLiveDevices. `discoveryStarted` is whether StartDiscovery
      returned normally; `enumeration` is the GetManagedObjects reply. The
      result is the exception that escapes, if any.
     */
    method Start(discoveryStarted: bool, enumeration: Option<seq<ManagedObject>>) returns (escaped: Option<Fault>)
      requires Valid()
      modifies this
      ensures Valid()
      ensures sessionStart == |old(delivered)|
      ensures !discoveryStarted ==>
        && escaped == Some(BusError)
        && discovered == map[] && session == [] && delivered == old(delivered) && subscribed == old(subscribed)
      ensures discoveryStarted && SnapshotFound(enumeration).None? ==>
        && escaped == Some(OutOfRange)
        && discovered == map[] && session == [] && delivered == old(delivered) && subscribed == old(subscribed)
      ensures discoveryStarted && SnapshotFound(enumeration).Some? ==>
        var pass := SnapshotPass(map[], SnapshotFound(enumeration).value);
        && escaped == None && subscribed
        && discovered == pass.tracked && session == pass.notices
        && delivered == old(delivered) + RenderAll(pass.notices)
    {
      discovered := map[];
      session := [];
      sessionStart := |delivered|;
      if !discoveryStarted {
        return Some(BusError);
      }
      var found: seq<FoundDevice> := [];
      match enumeration {
        case None =>
        case Some(objects) =>
          var listed := GetBluetoothDevices(objects, UnpairedFilter);
          match listed {
            case Ok(devices) => found := devices;
            case Err(BusError) =>
            case Err(OutOfRange) => return Some(OutOfRange);
          }
      }
      assert found == SnapshotFound(enumeration).value;
      AnnounceSnapshot(found);
      subscribed := true;
      return None;
    }

    /**
      The snapshot loop of startBluetoothLiveDevices, on a freshly cleared
      map: announces each reported path not yet tracked; a device whose
      properties cannot be read ends the loop (the exception is caught).
     */
    method AnnounceSnapshot(found: seq<FoundDevice>)
      requires Valid() && discovered == map[] && session == [] && sessionStart == |delivered|
      modifies this
      ensures Valid()
      ensures subscribed == old(subscribed) && sessionStart == old(sessionStart)
      ensures discovered == SnapshotPass(map[], found).tracked
      ensures session == SnapshotPass(map[], found).notices
      ensures delivered == old(delivered) + RenderAll(session)
    {
      var i := 0;
      assert found[..0] == [];
      while i < |found|
        invariant 0 <= i <= |found|
        invariant Valid() && subscribed == old(subscribed) && sessionStart == old(sessionStart)
        invariant SnapshotPass(map[], found[..i]) == Pass(discovered, session, None)
        invariant delivered[..sessionStart] == old(delivered)
      {
        var entry := found[i];
        SnapshotPassStep(map[], found, i);
        var read := ExtractDevice(entry.properties);
        if read.Err? {
          SnapshotPassStops(map[], found, i + 1);
          break;
        }
        var device := read.value;
        if entry.path !in discovered {
          ghost var before, logged := discovered, session;
          Announce(Added(entry.path, device));
          assert Pass(discovered, session, None)
            == Pass(before[entry.path := device], logged + [Added(entry.path, device)], None);
        }
        i := i + 1;
      }
      if i == |found| {
        assert found[..i] == found;
      }
      assert delivered == delivered[..sessionStart] + delivered[sessionStart..];
    }

    /**
      The InterfacesAdded handler for `path` with the interfaces it gained.
      The loop visits the interface names in some order; only Device1 acts.
      The result is the exception the handler lets escape, if any.
     */
    method InterfacesAdded(path: ObjectPath, interfaces: InterfaceMap) returns (escaped: Option<Fault>)
      requires Valid()
      modifies this
      ensures Valid()
      ensures subscribed == old(subscribed) && sessionStart == old(sessionStart)
      ensures !old(subscribed) ==>
        escaped == None && discovered == old(discovered) && session == old(session) && delivered == old(delivered)
      ensures old(subscribed) ==>
        match AddedReaction(old(discovered), path, interfaces)
        case Announce(device) =>
          && escaped == None
          && discovered == old(discovered)[path := device]
          && session == old(session) + [Added(path, device)]
          && delivered == old(delivered) + [DeviceAddedEvent(device)]
        case Ignore =>
          escaped == None && discovered == old(discovered) && session == old(session) && delivered == old(delivered)
        case Raise(fault) =>
          escaped == Some(fault) && discovered == old(discovered) && session == old(session) && delivered == old(delivered)
    {
      escaped := None;
      if !subscribed {
        return;
      }
      var names := interfaces.Keys;
      while names != {}
        invariant names <= interfaces.Keys
        invariant Valid() && subscribed && sessionStart == old(sessionStart)
        invariant DeviceInterface in names || DeviceInterface !in interfaces ==>
          discovered == old(discovered) && session == old(session) && delivered == old(delivered)
        invariant DeviceInterface in interfaces && DeviceInterface !in names ==>
          match AddedReaction(old(discovered), path, interfaces)
          case Announce(device) =>
            && discovered == old(discovered)[path := device]
            && session == old(session) + [Added(path, device)]
            && delivered == old(delivered) + [DeviceAddedEvent(device)]
          case Ignore => discovered == old(discovered) && session == old(session) && delivered == old(delivered)
          case Raise(_) => false
        invariant escaped == None
        decreases names
      {
        var name :| name in names;
        names := names - {name};
        if name == DeviceInterface {
          var properties := interfaces[name];
          var unpaired := PairBluetoothFilter(properties);
          if unpaired.Err? {
            return Some(unpaired.error);
          }
          if unpaired.value {
            var read := ExtractDevice(properties);
            if read.Err? {
              return Some(read.error);
            }
            var device := read.value;
            if device.name != "" && path !in discovered {
              Announce(Added(path, device));
            }
          }
        }
      }
    }

    /**
      The InterfacesRemoved handler for `path` with the interface names it
      lost: a tracked path that lost Device1 is erased and announced as
      removed with the device stored for it.
     */
    method InterfacesRemoved(path: ObjectPath, names: seq<string>)
      requires Valid()
      modifies this
      ensures Valid()
      ensures subscribed == old(subscribed) && sessionStart == old(sessionStart)
      ensures old(subscribed) && DeviceInterface in names && path in old(discovered) ==>
        && discovered == old(discovered) - {path}
        && session == old(session) + [Removed(path, old(discovered)[path])]
        && delivered == old(delivered) + [DeviceRemovedEvent(old(discovered)[path])]
      ensures !(old(subscribed) && DeviceInterface in names && path in old(discovered)) ==>
        discovered == old(discovered) && session == old(session) && delivered == old(delivered)
    {
      if !subscribed {
        return;
      }
      var i := 0;
      ghost var removed := false;
      while i < |names|
        invariant 0 <= i <= |names|
        invariant Valid() && subscribed && sessionStart == old(sessionStart)
        invariant removed <==> (exists j :: 0 <= j < i && names[j] == DeviceInterface) && path in old(discovered)
        invariant removed ==>
          && discovered == old(discovered) - {path}
          && session == old(session) + [Removed(path, old(discovered)[path])]
          && delivered == old(delivered) + [DeviceRemovedEvent(old(discovered)[path])]
        invariant !removed ==>
          discovered == old(discovered) && session == old(session) && delivered == old(delivered)
      {
        if names[i] == DeviceInterface {
          RemoveTracked(path);
          removed := path in old(discovered);
        }
        i := i + 1;
      }
    }

    /**
      The critical section of the InterfacesRemoved handler: a tracked path is
      erased and announced as removed with the device stored for it.
     */
    method RemoveTracked(path: ObjectPath)
      requires Valid()
      modifies this
      ensures Valid()
      ensures subscribed == old(subscribed) && sessionStart == old(sessionStart)
      ensures path in old(discovered) ==>
        && discovered == old(discovered) - {path}
        && session == old(session) + [Removed(path, old(discovered)[path])]
        && delivered == old(delivered) + [DeviceRemovedEvent(old(discovered)[path])]
      ensures path !in old(discovered) ==>
        discovered == old(discovered) && session == old(session) && delivered == old(delivered)
    {
      if path in discovered {
        var device := discovered[path];
        Announce(Removed(path, device));
      }
    }

    /** stopBluetoothLiveDevices: drops the subscriptions; the tracked map is left as it is. */
    method Stop()
      requires Valid()
      modifies this
      ensures Valid()
      ensures !subscribed
      ensures discovered == old(discovered) && session == old(session) && delivered == old(delivered)
      ensures sessionStart == old(sessionStart)
    {
      subscribed := false;
    }
  }
}
