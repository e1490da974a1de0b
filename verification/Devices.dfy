/** Host devices as udev reports them, and the small result types shared by every other module.

  A path is the sequence of its components, so Rust's component-wise `Path::starts_with` is the
  prefix order `<=` on sequences. */
module Devices {

  datatype Option<+T> = None | Some(value: T)

  datatype Result<+T> = Ok(value: T) | Err(error: Error)

  /** Why an operation gave up. */
  datatype Error =
    | MissingKey        // revoking a permission that is not in the map
    | MapFull           // the permission map already has its maximum number of entries
    | AbsentNode        // unwrapping the device node of a device that has none
    | NoNamespace       // the container's namespaces could not be entered
    | NotCreated        // the kernel refused to create a node or a symlink
    | Unmapped          // an ID of the container has no host counterpart
    | NotSent           // the netlink message was refused
    | NotMounted        // a sysfs directory could not be mounted

  const U32_LIMIT: int := 0x1_0000_0000
  const U64_LIMIT: int := 0x1_0000_0000_0000_0000

  type U32 = x: int | 0 <= x < U32_LIMIT

  type Byte = x: int | 0 <= x < 256

  type Bytes = seq<Byte>

  type Path = seq<string>

  datatype DeviceType = Block | Character

  datatype DevNode = DevNode(path: Path, ty: DeviceType, major: U32, minor: U32)

  datatype Property = Property(name: Bytes, value: Bytes)

  /** A snapshot of a udev device: its syspath is its identity, the node may be missing. The hashes are
    those of its subsystem and device type, zero where it has none. */
  datatype Device = Device(
    syspath: Path,
    node: Option<DevNode>,
    properties: seq<Property>,
    subsystemHash: U32,
    devtypeHash: U32)

  /** The bytes of an ASCII literal. */
  function Ascii(s: string): (b: Bytes)
    requires forall i | 0 <= i < |s| :: s[i] as int < 128
    ensures |b| == |s| && forall i | 0 <= i < |s| :: b[i] == s[i] as int
  {
    seq<Byte>(|s|, i requires 0 <= i < |s| && s[i] as int < 128 => s[i] as int as Byte)
  }

  /** The value of the first property called `name`, if there is one. */
  function PropertyValue(properties: seq<Property>, name: Bytes): Option<Bytes> {
    if properties == [] then None
    else if properties[0].name == name then Some(properties[0].value)
    else PropertyValue(properties[1..], name)
  }

  /** Strictly increasing. */
  predicate Increasing(indices: seq<nat>) {
    forall i, j | 0 <= i < j < |indices| :: indices[i] < indices[j]
  }

  /** The elements at the given indices. */
  function Picked<T>(all: seq<T>, indices: seq<nat>): seq<T>
    requires forall i | i in indices :: i < |all|
  {
    seq(|indices|, j requires 0 <= j < |indices| => assert indices[j] in indices; all[indices[j]])
  }

  lemma IncreasingMore(indices: seq<nat>, n: nat)
    requires Increasing(indices) && forall i | i in indices :: i < n
    ensures Increasing(indices + [n])
    ensures forall i: nat :: i in indices + [n] <==> i in indices || i == n
  {
    forall i | 0 <= i < |indices| ensures indices[i] < n { assert indices[i] in indices; }
  }
}
