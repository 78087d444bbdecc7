/** The instance wrapper: instance creation with debug-report wiring, the
    hex rendering of device UUIDs in the device listing, and the selection
    of one physical device. */
module Instance {
  import opened Wrappers
  import opened Vulkan
  import opened Selection
  import opened DebugReport
  import opened Device

  // ---------------------------------------------------------------------
  // Instance creation

  /** The instance extension the wrapper always adds: debug logging needs it. */
  const DebugReportExtension: string := "VK_EXT_debug_report"

  /** The wrapper: the instance and the debug callback registered on it,
      created together. */
  datatype EasyInstance<I, C> = EasyInstance(instance: I, debugCallback: C)

  /** The extensions the instance is requested with: the caller's ones plus
      the debug-report extension. */
  function WithDebugReport(extensions: set<string>): (r: set<string>)
    ensures extensions <= r && DebugReportExtension in r
    ensures forall e :: e in r ==> e in extensions || e == DebugReportExtension
  {
    extensions + {DebugReportExtension}
  }

  /** `log_enabled!(Level::Info)`: the maximum level lets `Info` through and
      the installed logger accepts it. */
  function InfoEnabled(maxLevel: LevelFilter, loggerAcceptsInfo: bool): (r: bool)
    ensures r <==> maxLevel.UpTo? && maxLevel.max != Level.Error && maxLevel.max != Warn && loggerAcceptsInfo
  {
    Enables(maxLevel, Info) && loggerAcceptsInfo
  }

  /** `with_debug_config`: with `Info` logging on, query the supported
      instance extensions and the layer list (only to log them; either query
      may fail); then create the instance with the debug-report extension
      added, and register the debug callback for `messages` on it. The first
      failing step's error is the result. */
  function WithDebugConfig<I, C>(
    maxLevel: LevelFilter,
    loggerAcceptsInfo: bool,
    supportedByCore: Result<()>,
    layersList: Result<()>,
    extensions: set<string>,
    messages: MessageTypes,
    instanceNew: set<string> -> Result<I>,
    debugCallbackNew: (I, MessageTypes) -> Result<C>
  ): (r: Result<EasyInstance<I, C>>)
    ensures var info := InfoEnabled(maxLevel, loggerAcceptsInfo);
      var created := instanceNew(WithDebugReport(extensions));
      r.Ok? <==>
        && (info ==> supportedByCore.Ok? && layersList.Ok?)
        && created.Ok?
        && debugCallbackNew(created.value, messages).Ok?
    ensures r.Ok? ==>
      && r.value.instance == instanceNew(WithDebugReport(extensions)).value
      && r.value.debugCallback == debugCallbackNew(r.value.instance, messages).value
    ensures InfoEnabled(maxLevel, loggerAcceptsInfo) && supportedByCore.Err? ==>
      r == Err(supportedByCore.error)
    ensures InfoEnabled(maxLevel, loggerAcceptsInfo) && supportedByCore.Ok? && layersList.Err? ==>
      r == Err(layersList.error)
    ensures var queried := !InfoEnabled(maxLevel, loggerAcceptsInfo) || (supportedByCore.Ok? && layersList.Ok?);
      var created := instanceNew(WithDebugReport(extensions));
      queried && created.Err? ==> r == Err(created.error)
    ensures var queried := !InfoEnabled(maxLevel, loggerAcceptsInfo) || (supportedByCore.Ok? && layersList.Ok?);
      var created := instanceNew(WithDebugReport(extensions));
      queried && created.Ok? && debugCallbackNew(created.value, messages).Err? ==>
        r == Err(debugCallbackNew(created.value, messages).error)
  {
    if InfoEnabled(maxLevel, loggerAcceptsInfo) && supportedByCore.Err? then Err(supportedByCore.error)
    else if InfoEnabled(maxLevel, loggerAcceptsInfo) && layersList.Err? then Err(layersList.error)
    else
      match instanceNew(WithDebugReport(extensions))
      case Err(e) => Err(e)
      case Ok(instance) =>
        match debugCallbackNew(instance, messages)
        case Err(e) => Err(e)
        case Ok(callback) => Ok(EasyInstance(instance, callback))
  }

  /** `new`: `with_debug_config` with the subscriptions derived from the
      logger's maximum level. */
  function New<I, C>(
    maxLevel: LevelFilter,
    loggerAcceptsInfo: bool,
    supportedByCore: Result<()>,
    layersList: Result<()>,
    extensions: set<string>,
    instanceNew: set<string> -> Result<I>,
    debugCallbackNew: (I, MessageTypes) -> Result<C>
  ): (r: Result<EasyInstance<I, C>>)
    ensures r.Ok? ==>
      var registered := debugCallbackNew(r.value.instance, MessageTypesFor(maxLevel));
      registered.Ok? && r.value.debugCallback == registered.value
  {
    WithDebugConfig(maxLevel, loggerAcceptsInfo, supportedByCore, layersList, extensions,
                    MessageTypesFor(maxLevel), instanceNew, debugCallbackNew)
  }

  /** Below `Info`, the capability queries are not made, so their failures
      cannot make `new` fail. */
  lemma NewIgnoresQueriesBelowInfo<I, C>(
    maxLevel: LevelFilter,
    loggerAcceptsInfo: bool,
    supportedByCore: Result<()>,
    layersList: Result<()>,
    extensions: set<string>,
    instanceNew: set<string> -> Result<I>,
    debugCallbackNew: (I, MessageTypes) -> Result<C>
  )
    requires !Enables(maxLevel, Info)
    ensures New(maxLevel, loggerAcceptsInfo, supportedByCore, layersList, extensions, instanceNew, debugCallbackNew)
         == New(maxLevel, loggerAcceptsInfo, Ok(()), Ok(()), extensions, instanceNew, debugCallbackNew)
  {
  }

  // ---------------------------------------------------------------------
  // UUID rendering (`{:02x}` per byte)

  /** The lowercase hexadecimal digit of `n`. */
  function HexDigit(n: int): (c: char)
    requires 0 <= n < 16
    ensures '0' <= c <= '9' || 'a' <= c <= 'f'
  {
    if n < 10 then ('0' as int + n) as char else ('a' as int + n - 10) as char
  }

  /** The value of a lowercase hexadecimal digit; `None` for any other
      character. */
  function DigitValue(c: char): (r: Option<int>)
    ensures r.Some? ==> 0 <= r.value < 16
  {
    if '0' <= c <= '9' then Some(c as int - '0' as int)
    else if 'a' <= c <= 'f' then Some(c as int - 'a' as int + 10)
    else None
  }

  /** `{:02x}` of one byte: two lowercase digits, zero-padded. */
  function HexByte(b: byte): (r: string)
    ensures |r| == 2
    ensures r[0] == HexDigit(b as int / 16) && r[1] == HexDigit(b as int % 16)
    ensures 16 * DigitValue(r[0]).value + DigitValue(r[1]).value == b as int
  {
    [HexDigit(b as int / 16), HexDigit(b as int % 16)]
  }

  /** The UUID string: the bytes' renderings one after the other. */
  function HexString(uuid: seq<byte>): (r: string)
    ensures |r| == 2 * |uuid|
  {
    if |uuid| == 0 then "" else HexString(uuid[..|uuid| - 1]) + HexByte(uuid[|uuid| - 1])
  }

  /** Characters `2i` and `2i + 1` of the UUID string are the high and low
      digit of byte `i`. */
  lemma {:induction false} HexStringAt(uuid: seq<byte>, i: nat)
    requires i < |uuid|
    ensures HexString(uuid)[2 * i .. 2 * i + 2] == HexByte(uuid[i])
    ensures HexString(uuid)[2 * i] == HexDigit(uuid[i] as int / 16)
    ensures HexString(uuid)[2 * i + 1] == HexDigit(uuid[i] as int % 16)
  {
    var init := uuid[..|uuid| - 1];
    if i < |uuid| - 1 {
      HexStringAt(init, i);
      assert HexString(uuid)[2 * i .. 2 * i + 2] == HexString(init)[2 * i .. 2 * i + 2];
    }
  }

  /** Reads two digits back as a byte. */
  function ParseHexByte(hi: char, lo: char): (r: Option<byte>) {
    match (DigitValue(hi), DigitValue(lo))
    case (Some(h), Some(l)) => Some((16 * h + l) as byte)
    case _ => None
  }

  /** Reads a hex string back as bytes; `None` for an odd length or a
      character that is not a lowercase hexadecimal digit. */
  function ParseHex(s: string): (r: Option<seq<byte>>)
    ensures r.Some? ==> 2 * |r.value| == |s|
  {
    if |s| == 0 then Some([])
    else if |s| == 1 then None
    else
      match (ParseHex(s[..|s| - 2]), ParseHexByte(s[|s| - 2], s[|s| - 1]))
      case (Some(init), Some(b)) => Some(init + [b])
      case _ => None
  }

  lemma HexByteRoundTrip(b: byte)
    ensures ParseHexByte(HexByte(b)[0], HexByte(b)[1]) == Some(b)
  {
    var h, l := b as int / 16, b as int % 16;
    assert DigitValue(HexDigit(h)) == Some(h);
    assert DigitValue(HexDigit(l)) == Some(l);
  }

  /** The UUID string loses nothing: reading it back gives the UUID. */
  lemma {:induction false} HexRoundTrip(uuid: seq<byte>)
    ensures ParseHex(HexString(uuid)) == Some(uuid)
  {
    if |uuid| > 0 {
      var init, b := uuid[..|uuid| - 1], uuid[|uuid| - 1];
      var s := HexString(uuid);
      assert s == HexString(init) + HexByte(b);
      assert s[..|s| - 2] == HexString(init);
      HexRoundTrip(init);
      HexByteRoundTrip(b);
      assert init + [b] == uuid;
    }
  }

  /** Zero padding: a byte below 16 gets a leading '0'. */
  lemma HexStringExample()
    ensures HexString([0x0a as byte, 0xff as byte, 0x00 as byte]) == "0aff00"
  {
    var u := [0x0a as byte, 0xff as byte, 0x00 as byte];
    assert u[..2] == [0x0a as byte, 0xff as byte];
    assert u[..2][..1] == [0x0a as byte];
  }

  /** The loop that renders a UUID into a string buffer, one byte at a
      time. */
  method RenderUuid(uuid: seq<byte>) returns (s: string)
    ensures s == HexString(uuid)
    ensures |s| == 2 * |uuid|
  {
    s := "";
    for i := 0 to |uuid|
      invariant s == HexString(uuid[..i])
    {
      assert uuid[..i + 1][..i] == uuid[..i];
      s := s + HexByte(uuid[i]);
    }
    assert uuid[..|uuid|] == uuid;
  }

  // ---------------------------------------------------------------------
  // Physical device selection

  /** The error raised when an enumerated device does not support robust
      buffer access. */
  const RobustBufferAccessMessage: string := "Robust buffer access support is mandated by the spec"

  /** Wraps the chosen device, if any. */
  function Wrap(favorite: Option<PhysicalDevice>): (r: Option<EasyPhysicalDevice>)
    ensures r.Some? <==> favorite.Some?
    ensures r.Some? ==> r.value.device == favorite.value
  {
    match favorite
    case None => None
    case Some(d) => Some(EasyPhysicalDevice(d))
  }

  /** `select_physical_device`: walk the enumerated devices, failing as soon
      as one lacks robust buffer access; of the devices that pass `filter`,
      the first becomes the favourite and a later one replaces it only when
      `preference(device, favourite) == Greater`. */
  method SelectPhysicalDevice(
    devices: seq<PhysicalDevice>,
    filter: PhysicalDevice -> bool,
    preference: (PhysicalDevice, PhysicalDevice) -> Ordering
  ) returns (r: Result<Option<EasyPhysicalDevice>>)
    ensures r.Err? <==> exists i :: 0 <= i < |devices| && !devices[i].robustBufferAccess
    ensures r.Err? ==> r.error == Failure(RobustBufferAccessMessage)
    ensures r.Ok? ==> r.value == Wrap(FirstMax(devices, filter, preference))
    ensures r.Ok? ==> (r.value.None? <==> forall i :: 0 <= i < |devices| ==> !filter(devices[i]))
    ensures r.Ok? && r.value.Some? ==> r.value.value.device in devices && filter(r.value.value.device)
  {
    var favorite: Option<PhysicalDevice> := None;
    ghost var favoriteIndex: Option<nat> := None;
    for i := 0 to |devices|
      invariant forall j :: 0 <= j < i ==> devices[j].robustBufferAccess
      invariant favoriteIndex == FirstMaxIndex(devices[..i], filter, preference)
      invariant favorite == Pick(devices, favoriteIndex)
    {
      var device := devices[i];
      if !device.robustBufferAccess {
        return Err(Failure(RobustBufferAccessMessage));
      }
      FirstMaxPrefixStep(devices, filter, preference, i + 1);
      if filter(device) {
        var isBetter := match favorite
          case Some(bestSoFar) => preference(device, bestSoFar) == Greater
          case None => true;
        if isBetter {
          favorite := Some(device);
          favoriteIndex := Some(i);
        }
      }
    }
    assert devices[..|devices|] == devices;
    r := Ok(Wrap(favorite));
  }

  /** With a consistent preference, the selected device is preferred at
      least as much as every device that passes the filter, and strictly
      more than every passing device enumerated before it: among equally
      preferred devices the first enumerated wins. */
  lemma SelectedDeviceIsBest(devices: seq<PhysicalDevice>, filter: PhysicalDevice -> bool,
                             preference: (PhysicalDevice, PhysicalDevice) -> Ordering, k: nat)
    requires ConsistentOn(devices, preference)
    requires FirstMaxIndex(devices, filter, preference) == Some(k)
    ensures FirstMax(devices, filter, preference) == Some(devices[k])
    ensures forall j :: 0 <= j < |devices| && filter(devices[j]) ==> preference(devices[j], devices[k]) != Greater
    ensures forall j :: 0 <= j < k && filter(devices[j]) ==> preference(devices[k], devices[j]) == Greater
  {
    FirstMaxIsBest(devices, filter, preference);
  }
}
