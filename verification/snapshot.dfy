/**
  getBluetoothDevices: which objects of a GetManagedObjects reply are reported
  as devices, and the two eligibility filters applied to them.
 */
module Snapshot {
  import opened Wrappers
  import opened Bluez

  /** A caller-supplied test on a device's properties; it may throw. */
  type DeviceFilter = PropertyMap -> Result<bool, Fault>

  /**
    The filter the live-discovery snapshot passes: `!properties.at("Paired").get<bool>()`.
    A missing key throws std::out_of_range, a non-bool value sdbus::Error.
   */
  function UnpairedFilter(properties: PropertyMap): (r: Result<bool, Fault>)
    ensures r == Ok(true) <==> "Paired" in properties && properties["Paired"] == BoolValue(false)
    ensures r.Err? <==> "Paired" !in properties || !properties["Paired"].BoolValue?
    ensures r.Err? ==> (r.error == OutOfRange <==> "Paired" !in properties)
  {
    if "Paired" !in properties then Err(OutOfRange)
    else
      match GetBool(properties["Paired"])
      case Err(e) => Err(e)
      case Ok(paired) => Ok(!paired)
  }

  /**
    pairBluetoothFilter: `!properties["Paired"].get<bool>()` on a copy of the
    map, so a missing key reads a default-constructed (empty) variant, which
    throws sdbus::Error instead of std::out_of_range.
   */
  function PairBluetoothFilter(properties: PropertyMap): (r: Result<bool, Fault>)
    ensures r == Ok(true) <==> "Paired" in properties && properties["Paired"] == BoolValue(false)
    ensures r.Err? ==> r.error == BusError
    ensures "Paired" in properties ==> r == UnpairedFilter(properties)
  {
    var paired := if "Paired" in properties then properties["Paired"] else OtherValue;
    match GetBool(paired)
    case Err(e) => Err(e)
    case Ok(isPaired) => Ok(!isPaired)
  }

  /** A `Name` property that is a non-empty string. */
  predicate Named(properties: PropertyMap) {
    "Name" in properties && properties["Name"].StringValue? && properties["Name"].str != ""
  }

  /** Whether one enumerated object is reported, as the loop body of getBluetoothDevices decides it. */
  function Keep(entry: ManagedObject, filter: DeviceFilter): (r: Result<bool, Fault>)
    ensures r == Ok(true) <==>
      && DeviceInterface in entry.interfaces
      && "Name" in entry.interfaces[DeviceInterface]
      && entry.interfaces[DeviceInterface]["Name"].StringValue?
      && entry.interfaces[DeviceInterface]["Name"].str != ""
      && filter(entry.interfaces[DeviceInterface]) == Ok(true)
    ensures r.Err? <==>
      && DeviceInterface in entry.interfaces
      && "Name" in entry.interfaces[DeviceInterface]
      && (|| !entry.interfaces[DeviceInterface]["Name"].StringValue?
          || (entry.interfaces[DeviceInterface]["Name"].str != ""
              && filter(entry.interfaces[DeviceInterface]).Err?))
  {
    if DeviceInterface !in entry.interfaces then Ok(false)
    else
      var properties := entry.interfaces[DeviceInterface];
      if "Name" !in properties then Ok(false)
      else
        match GetString(properties["Name"])
        case Err(e) => Err(e)
        case Ok(name) => if name == "" then Ok(false) else filter(properties)
  }

  /** The pair a reported object contributes: its path and its Device1 properties. */
  function Pick(entry: ManagedObject): FoundDevice
    requires DeviceInterface in entry.interfaces
  {
    FoundDevice(entry.path, entry.interfaces[DeviceInterface])
  }

  /** `prefix` followed by the outcome of the rest of the scan. */
  function Continue(prefix: seq<FoundDevice>, rest: Result<seq<FoundDevice>, Fault>): Result<seq<FoundDevice>, Fault> {
    match rest
    case Err(e) => Err(e)
    case Ok(found) => Ok(prefix + found)
  }

  lemma ContinueAppend(prefix: seq<FoundDevice>, next: seq<FoundDevice>, rest: Result<seq<FoundDevice>, Fault>)
    ensures Continue(prefix, Continue(next, rest)) == Continue(prefix + next, rest)
    ensures Continue([], rest) == rest
  {
    if rest.Ok? {
      assert prefix + (next + rest.value) == prefix + next + rest.value;
      assert [] + rest.value == rest.value;
    }
  }

  /** What getBluetoothDevices returns for an enumeration, or the first fault it throws. */
  function Selected(objects: seq<ManagedObject>, filter: DeviceFilter): Result<seq<FoundDevice>, Fault> {
    if objects == [] then Ok([])
    else
      match Keep(objects[0], filter)
      case Err(e) => Err(e)
      case Ok(keep) => Continue(if keep then [Pick(objects[0])] else [], Selected(objects[1..], filter))
  }

  /**
    getBluetoothDevices, after the GetManagedObjects call: scans the objects
    in enumeration order and keeps those with a Device1 interface, a non-empty
    Name and properties the filter accepts.
   */
  method GetBluetoothDevices(objects: seq<ManagedObject>, filter: DeviceFilter)
    returns (r: Result<seq<FoundDevice>, Fault>)
    ensures r == Selected(objects, filter)
  {
    var result: seq<FoundDevice> := [];
    var i := 0;
    assert objects[i..] == objects;
    ContinueAppend([], [], Selected(objects, filter));
    while i < |objects|
      invariant 0 <= i <= |objects|
      invariant Selected(objects, filter) == Continue(result, Selected(objects[i..], filter))
    {
      assert objects[i..][1..] == objects[i + 1..];
      ghost var before := result;
      var interfaces := objects[i].interfaces;
      if DeviceInterface in interfaces {
        var properties := interfaces[DeviceInterface];
        if "Name" in properties {
          var name := GetString(properties["Name"]);
          if name.Err? {
            return Err(name.error);
          }
          if name.value != "" {
            var keep := filter(properties);
            if keep.Err? {
              return Err(keep.error);
            }
            if keep.value {
              result := result + [FoundDevice(objects[i].path, properties)];
            }
          }
        }
      }
      ContinueAppend(before, result[|before|..], Selected(objects[i + 1..], filter));
      assert before + result[|before|..] == result;
      i := i + 1;
    }
    assert objects[i..] == [];
    assert result + [] == result;
    r := Ok(result);
  }

  /**
    `found` lists, in enumeration order, exactly the objects `Keep` accepts:
    `idx` gives the position of each listed object in the enumeration.
   */
  ghost predicate PicksInOrder(objects: seq<ManagedObject>, filter: DeviceFilter, found: seq<FoundDevice>, idx: seq<nat>) {
    && |idx| == |found|
    && (forall k :: 0 <= k < |idx| ==>
          idx[k] < |objects| && Keep(objects[idx[k]], filter) == Ok(true) && found[k] == Pick(objects[idx[k]]))
    && (forall k, l :: 0 <= k < l < |idx| ==> idx[k] < idx[l])
    && (forall i :: 0 <= i < |objects| && Keep(objects[i], filter) == Ok(true) ==> i in idx)
  }

  /** The positions `idx` moved one place right, as when one object is put in front. */
  function Shifted(idx: seq<nat>): (r: seq<nat>)
    ensures |r| == |idx|
    ensures forall k :: 0 <= k < |idx| ==> r[k] == idx[k] + 1
  {
    seq(|idx|, k requires 0 <= k < |idx| => idx[k] + 1)
  }

  /**
    getBluetoothDevices succeeds exactly when no object throws; otherwise it
    fails with the fault of the first object that throws, and reports nothing.
   */
  lemma {:induction false} SelectedFailsAtFirstFault(objects: seq<ManagedObject>, filter: DeviceFilter)
    ensures Selected(objects, filter).Ok? <==> forall i :: 0 <= i < |objects| ==> Keep(objects[i], filter).Ok?
    ensures Selected(objects, filter).Err? ==>
      exists i :: 0 <= i < |objects| && Keep(objects[i], filter) == Err(Selected(objects, filter).error)
        && forall j :: 0 <= j < i ==> Keep(objects[j], filter).Ok?
  {
    if objects != [] {
      var rest := objects[1..];
      assert forall j :: 0 <= j < |rest| ==> rest[j] == objects[j + 1];
      SelectedFailsAtFirstFault(rest, filter);
      if Keep(objects[0], filter).Err? {
        assert Keep(objects[0], filter) == Err(Selected(objects, filter).error);
      } else if Selected(rest, filter).Err? {
        var i :| 0 <= i < |rest| && Keep(rest[i], filter) == Err(Selected(rest, filter).error)
          && forall j :: 0 <= j < i ==> Keep(rest[j], filter).Ok?;
        assert Keep(objects[i + 1], filter) == Err(Selected(objects, filter).error);
        forall j | 0 <= j < i + 1 ensures Keep(objects[j], filter).Ok? {
          if j > 0 { assert objects[j] == rest[j - 1]; }
        }
      } else {
        forall i | 0 <= i < |objects| ensures Keep(objects[i], filter).Ok? {
          if i > 0 { assert objects[i] == rest[i - 1]; }
        }
      }
    }
  }

  /** The positions of `found` after one object is put in front of the enumeration. */
  function ConsIndex(keep: bool, idx': seq<nat>): seq<nat> {
    (if keep then [0] else []) + Shifted(idx')
  }

  lemma ConsIndexAt(keep: bool, idx': seq<nat>, k: nat)
    requires k < |ConsIndex(keep, idx')|
    ensures keep && k == 0 ==> ConsIndex(keep, idx')[k] == 0
    ensures !(keep && k == 0) ==>
      var k' := if keep then k - 1 else k;
      0 <= k' < |idx'| && ConsIndex(keep, idx')[k] == idx'[k'] + 1
  {
  }

  lemma PicksConsListed(objects: seq<ManagedObject>, filter: DeviceFilter, tail: seq<FoundDevice>, idx': seq<nat>)
    requires objects != [] && Keep(objects[0], filter).Ok?
    requires PicksInOrder(objects[1..], filter, tail, idx')
    ensures var keep := Keep(objects[0], filter).value;
      var found := (if keep then [Pick(objects[0])] else []) + tail;
      var idx := ConsIndex(keep, idx');
      |idx| == |found| &&
      forall k :: 0 <= k < |idx| ==>
        idx[k] < |objects| && Keep(objects[idx[k]], filter) == Ok(true) && found[k] == Pick(objects[idx[k]])
  {
    var rest := objects[1..];
    var keep := Keep(objects[0], filter).value;
    var found := (if keep then [Pick(objects[0])] else []) + tail;
    var idx := ConsIndex(keep, idx');
    forall k | 0 <= k < |idx|
      ensures idx[k] < |objects| && Keep(objects[idx[k]], filter) == Ok(true) && found[k] == Pick(objects[idx[k]])
    {
      ConsIndexAt(keep, idx', k);
      if !(keep && k == 0) {
        var k' := if keep then k - 1 else k;
        assert found[k] == tail[k'];
        assert objects[idx[k]] == rest[idx'[k']];
      }
    }
  }

  lemma PicksConsOrdered(keep: bool, idx': seq<nat>)
    requires forall k, l :: 0 <= k < l < |idx'| ==> idx'[k] < idx'[l]
    ensures var idx := ConsIndex(keep, idx');
      forall k, l :: 0 <= k < l < |idx| ==> idx[k] < idx[l]
  {
    var idx := ConsIndex(keep, idx');
    forall k, l | 0 <= k < l < |idx| ensures idx[k] < idx[l] {
      ConsIndexAt(keep, idx', k);
      ConsIndexAt(keep, idx', l);
    }
  }

  lemma PicksConsComplete(objects: seq<ManagedObject>, filter: DeviceFilter, idx': seq<nat>)
    requires objects != [] && Keep(objects[0], filter).Ok?
    requires forall i :: 0 <= i < |objects[1..]| && Keep(objects[1..][i], filter) == Ok(true) ==> i in idx'
    ensures var idx := ConsIndex(Keep(objects[0], filter).value, idx');
      forall i :: 0 <= i < |objects| && Keep(objects[i], filter) == Ok(true) ==> i in idx
  {
    var rest := objects[1..];
    var keep := Keep(objects[0], filter).value;
    var idx := ConsIndex(keep, idx');
    var shifted := Shifted(idx');
    forall i | 0 <= i < |objects| && Keep(objects[i], filter) == Ok(true)
      ensures i in idx
    {
      if i > 0 {
        assert rest[i - 1] == objects[i];
        assert i - 1 in idx';
        var k' :| 0 <= k' < |idx'| && idx'[k'] == i - 1;
        assert shifted[k'] == i;
        if keep { assert idx[k' + 1] == i; } else { assert idx[k'] == i; }
      } else {
        assert idx[0] == 0;
      }
    }
  }

  /**
    getBluetoothDevices reports exactly the objects with a Device1 interface,
    a non-empty string Name and properties the filter accepts, each once, in
    enumeration order, and nothing else.
   */
  lemma {:induction false} SelectedExactlyInOrder(objects: seq<ManagedObject>, filter: DeviceFilter)
    requires Selected(objects, filter).Ok?
    ensures exists idx :: PicksInOrder(objects, filter, Selected(objects, filter).value, idx)
  {
    if objects == [] {
      assert PicksInOrder(objects, filter, [], []);
    } else {
      var rest := objects[1..];
      SelectedExactlyInOrder(rest, filter);
      var idx' :| PicksInOrder(rest, filter, Selected(rest, filter).value, idx');
      var keep := Keep(objects[0], filter).value;
      PicksConsListed(objects, filter, Selected(rest, filter).value, idx');
      PicksConsOrdered(keep, idx');
      PicksConsComplete(objects, filter, idx');
      assert Selected(objects, filter).value == (if keep then [Pick(objects[0])] else []) + Selected(rest, filter).value;
      assert PicksInOrder(objects, filter, Selected(objects, filter).value, ConsIndex(keep, idx'));
    }
  }

  /**
    Every device the live-discovery snapshot reports has a non-empty Name
    and `Paired` set to false.
   */
  lemma UnpairedSelectedNamed(objects: seq<ManagedObject>)
    requires Selected(objects, UnpairedFilter).Ok?
    ensures forall k :: 0 <= k < |Selected(objects, UnpairedFilter).value| ==>
      var properties := Selected(objects, UnpairedFilter).value[k].properties;
      Named(properties) && "Paired" in properties && properties["Paired"] == BoolValue(false)
  {
    var found := Selected(objects, UnpairedFilter).value;
    SelectedExactlyInOrder(objects, UnpairedFilter);
    var idx :| PicksInOrder(objects, UnpairedFilter, found, idx);
    forall k | 0 <= k < |found|
      ensures Named(found[k].properties) && "Paired" in found[k].properties
        && found[k].properties["Paired"] == BoolValue(false)
    {
      assert Keep(objects[idx[k]], UnpairedFilter) == Ok(true);
    }
  }

  /**
    The live-discovery snapshot throws std::out_of_range only because some
    object has a Device1 interface with a non-empty Name and no `Paired`.
   */
  lemma UnpairedOutOfRange(objects: seq<ManagedObject>)
    requires Selected(objects, UnpairedFilter) == Err(OutOfRange)
    ensures exists i :: (0 <= i < |objects| && DeviceInterface in objects[i].interfaces
      && Named(objects[i].interfaces[DeviceInterface]) && "Paired" !in objects[i].interfaces[DeviceInterface])
  {
    SelectedFailsAtFirstFault(objects, UnpairedFilter);
    var i :| 0 <= i < |objects| && Keep(objects[i], UnpairedFilter) == Err(OutOfRange);
    assert DeviceInterface in objects[i].interfaces;
  }
}
