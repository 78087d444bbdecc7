/** Abstract stand-ins for the foreign types the library reads.

    Only the fields that the library's own decisions look at are kept; every
    other getter of the graphics binding is left out. The caller's filters
    and preferences are arbitrary functions of these records, so they may
    still distinguish any two candidates. */
module Vulkan {

  /** An unsigned 8-bit integer (`u8`). */
  newtype byte = x: int | 0 <= x < 256

  /** A queue family of a physical device, with the capabilities the
      library reports. */
  datatype QueueFamily = QueueFamily(
    id: nat,
    queueCount: nat,
    supportsGraphics: bool,
    supportsCompute: bool,
    supportsTransfers: bool,
    supportsSparseBinding: bool)

  /** A physical device as enumerated by the binding. `robustBufferAccess`
      is the one supported feature the selection loop checks, `uuid` is
      rendered in the device listing and `queueFamilies` is what the
      single-queue setup chooses from. No decision of the library reads
      `index` (the position in the enumeration) or `name`: they are kept so
      that a caller's filter and preference can tell devices apart, as they
      can with the binding's handles. */
  datatype PhysicalDevice = PhysicalDevice(
    index: nat,
    name: string,
    uuid: seq<byte>,
    robustBufferAccess: bool,
    queueFamilies: seq<QueueFamily>)

  /** Verbosity levels of the `log` facade, from least to most verbose. */
  datatype Level = Error | Warn | Info | Debug | Trace

  /** Position of a level in the facade's order: `Error` is the smallest. */
  function LevelRank(l: Level): (r: nat)
    ensures 1 <= r <= 5
  {
    match l
    case Error => 1
    case Warn => 2
    case Info => 3
    case Debug => 4
    case Trace => 5
  }

  /** The logger's maximum level (`LevelFilter`): `Off`, or every level up
      to and including `max`. */
  datatype LevelFilter = Off | UpTo(max: Level)

  function FilterRank(f: LevelFilter): (r: nat)
    ensures r <= 5
    ensures r == 0 <==> f == Off
    ensures f.UpTo? ==> r == LevelRank(f.max)
  {
    match f
    case Off => 0
    case UpTo(l) => LevelRank(l)
  }

  /** `f >= LevelFilter::from(l)`: the filter lets messages of level `l`
      through. */
  function Enables(f: LevelFilter, l: Level): (r: bool)
    ensures f == Off ==> !r
    ensures f.UpTo? ==> (r <==> LevelRank(l) <= LevelRank(f.max))
    ensures l == Level.Error ==> (r <==> f != Off)
  {
    LevelRank(l) <= FilterRank(f)
  }
}
