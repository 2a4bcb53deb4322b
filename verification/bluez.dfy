/** Option and Result, the two wrappers the rest of the model uses. */
module Wrappers {
  datatype Option<+T> = None | Some(value: T)

  datatype Result<+T, +E> = Ok(value: T) | Err(error: E)
}

/**
  Values as the BlueZ service delivers them over D-Bus: variants, property
  maps, the managed-objects enumeration, and the `Device` record that the
  frontend works with.
 */
module Bluez {
  import opened Wrappers

  newtype uint32 = x: int | 0 <= x < 0x1_0000_0000

  /** Opaque bus object path, used only as an identity token. */
  type ObjectPath = string

  /** A D-Bus variant, reduced to the kinds of value the Device1 properties read here carry. */
  datatype Variant =
    | StringValue(str: string)
    | BoolValue(flag: bool)
    | Uint32Value(word: uint32)
    | OtherValue

  type PropertyMap = map<string, Variant>

  /** Interface name to that interface's properties. */
  type InterfaceMap = map<string, PropertyMap>

  /** One entry of a GetManagedObjects reply. */
  datatype ManagedObject = ManagedObject(path: ObjectPath, interfaces: InterfaceMap)

  /** One (path, Device1 properties) pair as getBluetoothDevices returns it. */
  datatype FoundDevice = FoundDevice(path: ObjectPath, properties: PropertyMap)

  /** What reading properties can throw. */
  datatype Fault =
    | BusError    // sdbus::Error: a variant read as the wrong type or an empty variant; a failed bus call
    | OutOfRange  // std::out_of_range: std::map::at on a missing key

  datatype Device = Device(address: string, name: string)

  const DeviceInterface: string := "org.bluez.Device1"

  /** `Variant::get<std::string>()`. */
  function GetString(v: Variant): Result<string, Fault> {
    if v.StringValue? then Ok(v.str) else Err(BusError)
  }

  /** `Variant::get<bool>()`. */
  function GetBool(v: Variant): Result<bool, Fault> {
    if v.BoolValue? then Ok(v.flag) else Err(BusError)
  }

  /** `Variant::get<uint32_t>()`. */
  function GetUint32(v: Variant): Result<uint32, Fault> {
    if v.Uint32Value? then Ok(v.word) else Err(BusError)
  }

  /** A `find` followed by `get<std::string>()` when found, "" otherwise. */
  function StringOrEmpty(properties: PropertyMap, key: string): Result<string, Fault> {
    if key in properties then GetString(properties[key]) else Ok("")
  }

  /** extractDevice: Address and Name, each "" when the key is missing. */
  function ExtractDevice(properties: PropertyMap): (r: Result<Device, Fault>)
    ensures r.Ok? <==>
      && ("Address" in properties ==> properties["Address"].StringValue?)
      && ("Name" in properties ==> properties["Name"].StringValue?)
    ensures r.Ok? ==>
      if "Address" in properties then properties["Address"] == StringValue(r.value.address)
      else r.value.address == ""
    ensures r.Ok? ==>
      if "Name" in properties then properties["Name"] == StringValue(r.value.name)
      else r.value.name == ""
    ensures r.Err? ==> r.error == BusError
  {
    match StringOrEmpty(properties, "Address")
    case Err(e) => Err(e)
    case Ok(address) =>
      match StringOrEmpty(properties, "Name")
      case Err(e) => Err(e)
      case Ok(name) => Ok(Device(address, name))
  }

  /** The property map a device with these fields is read back from. */
  function DeviceProperties(device: Device): PropertyMap {
    map["Address" := StringValue(device.address), "Name" := StringValue(device.name)]
  }

  /** Whatever else the map holds, Address and Name are read back unchanged. */
  lemma ExtractDeviceRoundTrip(device: Device, others: PropertyMap)
    ensures ExtractDevice(others + DeviceProperties(device)) == Ok(device)
  {
  }
}
