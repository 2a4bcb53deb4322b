/**
  The bookkeeping of one live-discovery session, as values: the notices the
  tracker hands to the frontend, the tracked map they build up, and the two
  decisions taken before a device is announced (the snapshot pass and the
  InterfacesAdded reaction).
 */
module Session {
  import opened Wrappers
  import opened Bluez
  import opened Markup
  import Snapshot

  /** discoveredDevicePaths: tracked object path to the device announced for it. */
  type Tracked = map<ObjectPath, Device>

  /** One call of the frontend callback, before it is rendered as markup. */
  datatype Notice = Added(path: ObjectPath, device: Device) | Removed(path: ObjectPath, device: Device)

  /** The markup the callback receives for a notice. */
  function Render(n: Notice): string {
    match n
    case Added(_, device) => DeviceAddedEvent(device)
    case Removed(_, device) => DeviceRemovedEvent(device)
  }

  lemma RenderAllSnoc(log: seq<Notice>, n: Notice)
    ensures RenderAll(log + [n]) == RenderAll(log) + [Render(n)]
  {
    assert (log + [n])[..|log|] == log;
  }

  function RenderAll(log: seq<Notice>): (r: seq<string>)
    ensures |r| == |log|
    ensures forall k :: 0 <= k < |log| ==> r[k] == Render(log[k])
  {
    if log == [] then [] else RenderAll(log[..|log| - 1]) + [Render(log[|log| - 1])]
  }

  /**
    A notice may be issued in a state only as the tracker issues it: "added"
    for an untracked path, "removed" for a tracked path with the device
    stored for it.
   */
  predicate Legal(m: Tracked, n: Notice) {
    match n
    case Added(p, _) => p !in m
    case Removed(p, d) => p in m && m[p] == d
  }

  /** The tracked map after a notice: insert on "added", erase on "removed". */
  function Apply(m: Tracked, n: Notice): Tracked {
    match n
    case Added(p, d) => m[p := d]
    case Removed(p, _) => m - {p}
  }

  /** The tracked map after a sequence of notices, oldest first. */
  function Replay(m: Tracked, log: seq<Notice>): Tracked {
    if log == [] then m else Apply(Replay(m, log[..|log| - 1]), log[|log| - 1])
  }

  /** Every notice of the log is legal in the state its predecessors leave. */
  predicate Consistent(m: Tracked, log: seq<Notice>) {
    log == [] || (Consistent(m, log[..|log| - 1]) && Legal(Replay(m, log[..|log| - 1]), log[|log| - 1]))
  }

  lemma ReplaySnoc(m: Tracked, log: seq<Notice>, n: Notice)
    ensures Replay(m, log + [n]) == Apply(Replay(m, log), n)
    ensures Consistent(m, log + [n]) <==> Consistent(m, log) && Legal(Replay(m, log), n)
  {
    assert (log + [n])[..|log|] == log;
  }

  /** The notices about one path, in order: true for "added", false for "removed". */
  function About(log: seq<Notice>, p: ObjectPath): seq<bool> {
    if log == [] then []
    else About(log[..|log| - 1], p) + (if log[|log| - 1].path == p then [log[|log| - 1].Added?] else [])
  }

  /**
    The session invariant: for every path, the notices about it alternate,
    beginning with "added" for a path that was not tracked (so no path is
    announced twice without a removal in between, and no path is removed
    twice), and the path is tracked at the end exactly when the number of
    notices about it flipped its starting state.
   */
  lemma {:induction false} NoticesAlternate(m: Tracked, log: seq<Notice>, p: ObjectPath)
    requires Consistent(m, log)
    ensures forall k :: 0 <= k < |About(log, p)| ==> About(log, p)[k] == ((k % 2 == 0) != (p in m))
    ensures (p in Replay(m, log)) <==> ((p in m) != (|About(log, p)| % 2 == 1))
  {
    if log != [] {
      var prefix := log[..|log| - 1];
      var n := log[|log| - 1];
      assert prefix + [n] == log;
      ReplaySnoc(m, prefix, n);
      NoticesAlternate(m, prefix, p);
    }
  }

  /**
    A tracked path's stored device is the one of its last notice, which is an
    "added": so a "removed" always repeats the device its path was announced
    with.
   */
  lemma {:induction false} TrackedByLastAdded(m: Tracked, log: seq<Notice>, p: ObjectPath)
    requires Consistent(m, log)
    requires p in Replay(m, log) && p !in m
    ensures exists i :: 0 <= i < |log| && log[i] == Added(p, Replay(m, log)[p])
                         && (forall k :: i < k < |log| ==> log[k].path != p)
  {
    var prefix := log[..|log| - 1];
    var n := log[|log| - 1];
    assert prefix + [n] == log;
    ReplaySnoc(m, prefix, n);
    if n.path == p {
      assert n.Added?;
      assert log[|log| - 1] == Added(p, Replay(m, log)[p]);
    } else {
      assert p in Replay(m, prefix) && Replay(m, prefix)[p] == Replay(m, log)[p];
      TrackedByLastAdded(m, prefix, p);
      var i :| 0 <= i < |prefix| && prefix[i] == Added(p, Replay(m, prefix)[p])
               && (forall k :: i < k < |prefix| ==> prefix[k].path != p);
      assert log[i] == prefix[i];
      forall k | i < k < |log| ensures log[k].path != p {
        if k < |prefix| { assert log[k] == prefix[k]; }
      }
    }
  }

  /** A "removed" notice in a session repeats the device of the last "added" for its path. */
  lemma RemovedEchoesAdded(log: seq<Notice>, j: nat)
    requires Consistent(map[], log)
    requires j < |log| && log[j].Removed?
    ensures exists i :: 0 <= i < j && log[i] == Added(log[j].path, log[j].device)
                         && (forall k :: i < k < j ==> log[k].path != log[j].path)
  {
    var prefix := log[..j];
    var p := log[j].path;
    ConsistentPrefix(map[], log, j + 1);
    assert log[..j + 1][..j] == prefix;
    assert log[..j + 1][j] == log[j];
    assert Legal(Replay(map[], prefix), log[j]);
    TrackedByLastAdded(map[], prefix, p);
  }

  lemma {:induction false} ConsistentPrefix(m: Tracked, log: seq<Notice>, n: nat)
    requires Consistent(m, log) && n <= |log|
    ensures Consistent(m, log[..n])
  {
    if n < |log| {
      assert log[..|log| - 1][..n] == log[..n];
      ConsistentPrefix(m, log[..|log| - 1], n);
    } else {
      assert log[..n] == log;
    }
  }

  /** The snapshot pass so far: tracked map, notices issued, and the fault that ended it, if any. */
  datatype Pass = Pass(tracked: Tracked, notices: seq<Notice>, fault: Option<Fault>)

  /** The paths of a getBluetoothDevices result. */
  function Paths(found: seq<FoundDevice>): (r: set<ObjectPath>)
    ensures forall p :: p in r <==> exists k :: 0 <= k < |found| && found[k].path == p
  {
    set k | 0 <= k < |found| :: found[k].path
  }

  /**
    The snapshot loop of startBluetoothLiveDevices over the reported devices,
    starting from tracked map `m`: each device is read with extractDevice; a
    path not yet tracked is inserted and announced; a read that throws ends
    the pass.
   */
  function SnapshotPass(m: Tracked, found: seq<FoundDevice>): (r: Pass)
    ensures r.fault.Some? ==> r.fault == Some(BusError)
  {
    if found == [] then Pass(m, [], None)
    else
      var prev := SnapshotPass(m, found[..|found| - 1]);
      var entry := found[|found| - 1];
      if prev.fault.Some? then prev
      else
        match ExtractDevice(entry.properties)
        case Err(e) => Pass(prev.tracked, prev.notices, Some(e))
        case Ok(device) =>
          if entry.path in prev.tracked then prev
          else Pass(prev.tracked[entry.path := device], prev.notices + [Added(entry.path, device)], None)
  }

  /** The snapshot pass only issues legal notices, and its tracked map is their replay. */
  lemma {:induction false} SnapshotPassConsistent(m: Tracked, found: seq<FoundDevice>)
    ensures Consistent(m, SnapshotPass(m, found).notices)
    ensures Replay(m, SnapshotPass(m, found).notices) == SnapshotPass(m, found).tracked
  {
    if found != [] {
      var prev := SnapshotPass(m, found[..|found| - 1]);
      var entry := found[|found| - 1];
      SnapshotPassConsistent(m, found[..|found| - 1]);
      if prev.fault.None? && ExtractDevice(entry.properties).Ok? && entry.path !in prev.tracked {
        var device := ExtractDevice(entry.properties).value;
        assert SnapshotPass(m, found).notices == prev.notices + [Added(entry.path, device)];
        ReplaySnoc(m, prev.notices, Added(entry.path, device));
      } else {
        assert SnapshotPass(m, found).notices == prev.notices;
      }
    }
  }

  /** The snapshot pass only announces additions, and never changes what was already tracked. */
  lemma {:induction false} SnapshotPassOnlyAdds(m: Tracked, found: seq<FoundDevice>)
    ensures forall k :: 0 <= k < |SnapshotPass(m, found).notices| ==> SnapshotPass(m, found).notices[k].Added?
    ensures forall p :: p in m ==> p in SnapshotPass(m, found).tracked && SnapshotPass(m, found).tracked[p] == m[p]
  {
    if found != [] {
      SnapshotPassOnlyAdds(m, found[..|found| - 1]);
    }
  }

  /** The pass runs to the end exactly when every reported device can be read. */
  lemma {:induction false} SnapshotPassCompletes(m: Tracked, found: seq<FoundDevice>)
    ensures SnapshotPass(m, found).fault.None? <==> forall k :: 0 <= k < |found| ==> ExtractDevice(found[k].properties).Ok?
  {
    if found != [] {
      var prefix := found[..|found| - 1];
      assert forall k :: 0 <= k < |prefix| ==> prefix[k] == found[k];
      SnapshotPassCompletes(m, prefix);
    }
  }

  /** A pass that runs to the end tracks every reported path, besides those tracked before. */
  lemma {:induction false} SnapshotPassCovers(m: Tracked, found: seq<FoundDevice>)
    requires SnapshotPass(m, found).fault.None?
    ensures SnapshotPass(m, found).tracked.Keys == m.Keys + Paths(found)
  {
    if found != [] {
      var prefix := found[..|found| - 1];
      var entry := found[|found| - 1];
      assert prefix + [entry] == found;
      SnapshotPassCovers(m, prefix);
      assert Paths(found) == Paths(prefix) + {entry.path} by {
        assert forall k :: 0 <= k < |prefix| ==> prefix[k] == found[k];
      }
    }
  }

  /** A pass over devices that all carry a non-empty Name announces only devices with a non-empty name. */
  lemma {:induction false} SnapshotPassNamed(m: Tracked, found: seq<FoundDevice>)
    requires forall k :: 0 <= k < |found| ==> Snapshot.Named(found[k].properties)
    ensures forall k :: 0 <= k < |SnapshotPass(m, found).notices| ==> SnapshotPass(m, found).notices[k].device.name != ""
  {
    if found != [] {
      var prefix := found[..|found| - 1];
      assert forall k :: 0 <= k < |prefix| ==> prefix[k] == found[k];
      SnapshotPassNamed(m, prefix);
    }
  }

  /** One more reported device, as the snapshot loop body handles it. */
  lemma SnapshotPassStep(m: Tracked, found: seq<FoundDevice>, i: nat)
    requires i < |found|
    ensures var prev := SnapshotPass(m, found[..i]);
      SnapshotPass(m, found[..i + 1]) ==
        if prev.fault.Some? then prev
        else match ExtractDevice(found[i].properties)
          case Err(e) => Pass(prev.tracked, prev.notices, Some(e))
          case Ok(device) =>
            if found[i].path in prev.tracked then prev
            else Pass(prev.tracked[found[i].path := device], prev.notices + [Added(found[i].path, device)], None)
  {
    assert found[..i + 1][..i] == found[..i];
  }

  /** A fault ends the pass: nothing after it is read, tracked or announced. */
  lemma {:induction false} SnapshotPassStops(m: Tracked, found: seq<FoundDevice>, n: nat)
    requires n <= |found| && SnapshotPass(m, found[..n]).fault.Some?
    ensures SnapshotPass(m, found) == SnapshotPass(m, found[..n])
  {
    if n < |found| {
      assert found[..|found| - 1][..n] == found[..n];
      SnapshotPassStops(m, found[..|found| - 1], n);
    } else {
      assert found[..n] == found;
    }
  }

  /** `k` is the first position of its path in `found`. */
  predicate FirstAt(found: seq<FoundDevice>, k: nat)
    requires k < |found|
  {
    forall j :: 0 <= j < k ==> found[j].path != found[k].path
  }

  /**
    `notices` announces, in list order, the first entry of every path that
    is not in `m`, with the device extractDevice reads from it, and nothing
    else; `idx` gives each notice's position in `found`.
   */
  ghost predicate AnnouncedInOrder(m: Tracked, found: seq<FoundDevice>, notices: seq<Notice>, idx: seq<nat>) {
    && |idx| == |notices|
    && (forall k :: 0 <= k < |idx| ==>
          && idx[k] < |found| && FirstAt(found, idx[k]) && found[idx[k]].path !in m
          && ExtractDevice(found[idx[k]].properties) == Ok(notices[k].device)
          && notices[k] == Added(found[idx[k]].path, notices[k].device))
    && (forall k, l :: 0 <= k < l < |idx| ==> idx[k] < idx[l])
    && (forall i :: 0 <= i < |found| && FirstAt(found, i) && found[i].path !in m ==> i in idx)
  }

  /**
    A snapshot pass that no read fault cut short announces each returned path
    that is not already tracked exactly once, at its first occurrence and in
    list order; already tracked paths produce nothing.
   */
  lemma {:induction false} SnapshotAnnouncesInOrder(m: Tracked, found: seq<FoundDevice>)
    requires SnapshotPass(m, found).fault.None?
    ensures exists idx :: AnnouncedInOrder(m, found, SnapshotPass(m, found).notices, idx)
  {
    if found == [] {
      assert AnnouncedInOrder(m, found, [], []);
    } else {
      var prefix := found[..|found| - 1];
      var entry := found[|found| - 1];
      assert prefix + [entry] == found;
      SnapshotPassStep(m, found, |found| - 1);
      assert found[..|found|] == found;
      SnapshotAnnouncesInOrder(m, prefix);
      var idx: seq<nat> :| AnnouncedInOrder(m, prefix, SnapshotPass(m, prefix).notices, idx);
      AnnouncesStep(m, prefix, entry, idx);
    }
  }

  /** The induction step of SnapshotAnnouncesInOrder: one more reported device. */
  lemma AnnouncesStep(m: Tracked, prefix: seq<FoundDevice>, entry: FoundDevice, idx: seq<nat>)
    requires SnapshotPass(m, prefix).fault.None? && ExtractDevice(entry.properties).Ok?
    requires AnnouncedInOrder(m, prefix, SnapshotPass(m, prefix).notices, idx)
    ensures exists idx' :: AnnouncedInOrder(m, prefix + [entry], SnapshotPass(m, prefix + [entry]).notices, idx')
  {
    var found := prefix + [entry];
    assert found[..|found| - 1] == prefix;
    var prev := SnapshotPass(m, prefix);
    SnapshotPassCovers(m, prefix);
    FirstAtEnd(prefix, entry);
    var notices := SnapshotPass(m, found).notices;
    if entry.path in prev.tracked {
      assert notices == prev.notices;
      AnnouncedExtend(m, prefix, entry, prev.notices, idx, None);
      assert AnnouncedInOrder(m, found, notices, idx);
    } else {
      var device := ExtractDevice(entry.properties).value;
      assert notices == prev.notices + [Added(entry.path, device)];
      AnnouncedExtend(m, prefix, entry, prev.notices, idx, Some(device));
      var extended: seq<nat> := idx + [|prefix|];
      assert AnnouncedInOrder(m, found, notices, extended);
    }
  }

  /** The last entry is the first of its path exactly when no earlier entry has that path. */
  lemma FirstAtEnd(prefix: seq<FoundDevice>, entry: FoundDevice)
    ensures FirstAt(prefix + [entry], |prefix|) <==> entry.path !in Paths(prefix)
  {
    var found := prefix + [entry];
    if entry.path in Paths(prefix) {
      var j :| 0 <= j < |prefix| && prefix[j].path == entry.path;
      assert found[j].path == found[|prefix|].path;
    } else {
      forall j | 0 <= j < |prefix| ensures found[j].path != found[|prefix|].path {
        assert found[j] == prefix[j];
      }
    }
  }

  /** One more entry, announced (`device` present) or not. */
  lemma AnnouncedExtend(m: Tracked, prefix: seq<FoundDevice>, entry: FoundDevice, notices: seq<Notice>,
                        idx: seq<nat>, device: Option<Device>)
    requires AnnouncedInOrder(m, prefix, notices, idx)
    requires device.None? ==> !(FirstAt(prefix + [entry], |prefix|) && entry.path !in m)
    requires device.Some? ==>
      FirstAt(prefix + [entry], |prefix|) && entry.path !in m && ExtractDevice(entry.properties) == Ok(device.value)
    ensures device.None? ==> AnnouncedInOrder(m, prefix + [entry], notices, idx)
    ensures device.Some? ==>
      AnnouncedInOrder(m, prefix + [entry], notices + [Added(entry.path, device.value)], idx + [|prefix|])
  {
    var found := prefix + [entry];
    forall i | 0 <= i < |prefix| ensures found[i] == prefix[i] && (FirstAt(found, i) <==> FirstAt(prefix, i)) {
      assert forall j :: 0 <= j < i ==> found[j] == prefix[j];
    }
    if device.Some? {
      var notices' := notices + [Added(entry.path, device.value)];
      var idx' := idx + [|prefix|];
      forall k | 0 <= k < |idx'|
        ensures && idx'[k] < |found| && FirstAt(found, idx'[k]) && found[idx'[k]].path !in m
                && ExtractDevice(found[idx'[k]].properties) == Ok(notices'[k].device)
                && notices'[k] == Added(found[idx'[k]].path, notices'[k].device)
      {
        if k < |idx| { assert idx'[k] == idx[k] && notices'[k] == notices[k]; }
      }
    }
  }

  /** What the InterfacesAdded handler does with one signal. */
  datatype Reaction = Announce(device: Device) | Ignore | Raise(fault: Fault)

  /**
    The InterfacesAdded handler's decision: only a Device1 interface counts;
    it must pass pairBluetoothFilter, have a non-empty name and belong to an
    untracked path. A throwing read escapes the handler.
   */
  function AddedReaction(m: Tracked, path: ObjectPath, interfaces: InterfaceMap): (r: Reaction)
    ensures r.Announce? <==>
      && DeviceInterface in interfaces
      && Snapshot.PairBluetoothFilter(interfaces[DeviceInterface]) == Ok(true)
      && ExtractDevice(interfaces[DeviceInterface]).Ok?
      && ExtractDevice(interfaces[DeviceInterface]).value.name != ""
      && path !in m
    ensures r.Announce? ==>
      && ExtractDevice(interfaces[DeviceInterface]) == Ok(r.device)
      && Legal(m, Added(path, r.device))
    ensures r.Raise? <==>
      && DeviceInterface in interfaces
      && (|| Snapshot.PairBluetoothFilter(interfaces[DeviceInterface]).Err?
          || (Snapshot.PairBluetoothFilter(interfaces[DeviceInterface]) == Ok(true)
              && ExtractDevice(interfaces[DeviceInterface]).Err?))
    ensures r.Raise? ==> r.fault == BusError
  {
    if DeviceInterface !in interfaces then Ignore
    else
      var properties := interfaces[DeviceInterface];
      match Snapshot.PairBluetoothFilter(properties)
      case Err(e) => Raise(e)
      case Ok(unpaired) =>
        if !unpaired then Ignore
        else
          match ExtractDevice(properties)
          case Err(e) => Raise(e)
          case Ok(device) => if device.name != "" && path !in m then Announce(device) else Ignore
  }

  /**
    While a path is tracked, a second InterfacesAdded for it is suppressed;
    once it has been removed, the same signal announces it again.
   */
  lemma AddedAgainOnlyAfterRemoval(m: Tracked, path: ObjectPath, device: Device, interfaces: InterfaceMap)
    requires AddedReaction(m, path, interfaces) == Announce(device)
    ensures !AddedReaction(Apply(m, Added(path, device)), path, interfaces).Announce?
    ensures AddedReaction(Apply(Apply(m, Added(path, device)), Removed(path, device)), path, interfaces)
      == Announce(device)
  {
    assert Apply(Apply(m, Added(path, device)), Removed(path, device)).Keys == m.Keys - {path};
  }
}
