# vulkanoob selection and debug-report logic, in Dafny

vulkanoob is a thin convenience layer over the vulkano graphics binding. It
creates a Vulkan instance with debug logging attached, lists and selects one
physical device, and sets up a logical device with a single queue. Almost all
of this is calls into the binding. This project models the decisions the
library makes itself, over abstract candidates instead of real Vulkan handles:

- **Physical-device selection** (`select_physical_device`). A loop over the
  enumerated devices fails as soon as a device lacks robust buffer access.
  Of the devices that pass the caller's `filter`, the first becomes the
  favourite. A later one replaces it only when
  `preference(device, favourite) == Greater`, so ties keep the earliest.
  This is `Instance.SelectPhysicalDevice`, a method with a loop, proved
  against the fold `Selection.FirstMaxIndex`.
- **Queue-family selection** (`setup_single_queue_device`). This is
  `filter(..).max_by(..)`. Rust's `max_by` keeps its accumulator only when it
  compares `Greater` to the next element, so ties go to the LAST maximal
  family (`Selection.LastMaxIndex`). The logical device is then requested
  with exactly one queue of that family, and the single returned queue is
  taken out of the iterator.
- **Debug-report configuration.** `new` derives the subscribed
  `MessageTypes` from the logger's maximum level. The debug callback maps a
  message's flags to a log level in precedence order, and writes a tag of
  fixed word order ("VULKAN ERRO WARN PERF INFO DEBG").
- **UUID rendering.** Each byte of a device UUID becomes two lowercase,
  zero-padded hex digits in a string buffer.

Modules: `Wrappers` (Option, the library's `Result`, and `Run`, which
separates panics from errors), `Vulkan` (abstract device and queue-family
records, log levels), `Selection` (the two selection folds and what they
choose), `DebugReport`, `Device` and `Instance` (the last three follow
src/device.rs and src/instance.rs).

A "consistent" preference (`Selection.ConsistentOn`) is a total preorder on
the enumerated candidates. Swapping the arguments swaps `Greater` and `Less`,
and "at least as preferred" is transitive. It only has to hold between the
candidates actually enumerated.

The two selections break ties differently. The device loop keeps the first
of several equally preferred devices; `max_by` takes the last of several
equally preferred families. `Selection.TieBreaksDiffer` exhibits this, and
`Selection.TieFreeSelectionsAgree` shows the two agree when there are no
ties.

## Model

| member | source | states |
|---|---|---|
| `Instance.SelectPhysicalDevice` | src/instance.rs:180-540 | The call fails with the robust-buffer-access error exactly when some enumerated device lacks robust buffer access, wherever it is and whatever `filter` says. Otherwise it returns the wrapped first-best device of the fold. The result is `None` exactly when no device passes `filter`. A returned device is one of the enumerated devices and passes `filter`. |
| `Instance.Wrap` | src/instance.rs:539 | Wrapping the favourite yields `Some` exactly when a favourite exists, and wraps that same device. |
| `Selection.FirstMaxIndex` | src/instance.rs:521-531 | The device loop's choice is an in-range index whose candidate passes `filter`. It is `None` exactly when no candidate passes. |
| `Selection.FirstMaxAppend` | src/instance.rs:525-531 | One more device changes the favourite only as the loop step does. A device failing `filter` leaves the favourite (and its index) unchanged. A passing one takes over only when `preference(device, favourite) == Greater`, so `Equal` keeps the earlier one. |
| `Selection.FirstMaxIgnoresRejected` | src/instance.rs:521-533 | Removing a device that fails `filter` from any position of the enumeration does not change the selected device. |
| `Selection.FirstMaxPrefixStep` | src/instance.rs:525-531 | The fold over the first `n` devices is the fold over the first `n - 1` plus one loop step on device `n - 1`. |
| `Selection.FirstMaxPrefixIsBest` | src/instance.rs:524-531 | Under a consistent preference, the choice among the first `n` candidates passes `filter`. No passing candidate among them is strictly preferred to it, and it is strictly preferred to every passing candidate before it. |
| `Selection.FirstMaxIsBest` | src/instance.rs:524-531 | Under a consistent preference, the device loop's choice is a first best candidate of the whole enumeration. |
| `Selection.FirstBestUnique` | src/instance.rs:524-531 | Under a consistent preference, at most one index is a first best candidate, so that description determines the loop's result. |
| `Instance.SelectedDeviceIsBest` | src/instance.rs:524-531 | Under a consistent preference, no passing device is strictly preferred to the selected one. The selected one is strictly preferred to every passing device enumerated before it, so among equally preferred devices the first enumerated wins. |
| `Selection.LastMaxIndex` | src/device.rs:62-64 | `filter(..).max_by(..)` yields an in-range index whose family passes `filter`. It is `None` exactly when no family passes. |
| `Selection.LastMaxPrefixStep` | src/device.rs:64 | The `max_by` fold over the first `n` families is the fold over the first `n - 1` plus one step: the accumulator survives only if it compares `Greater` to the new family. |
| `Selection.LastMaxPrefixIsBest` | src/device.rs:64 | Under a consistent preference, the `max_by` choice among the first `n` families passes `filter`. No passing family among them is strictly preferred to it, and it is strictly preferred to every passing family after it. |
| `Selection.LastMaxIsBest` | src/device.rs:64 | Under a consistent preference, `max_by` picks a last best family of the whole sequence. |
| `Selection.LastBestUnique` | src/device.rs:64 | Under a consistent preference, at most one index is a last best candidate. |
| `Selection.TieFreeSelectionsAgree` | src/device.rs:62-64 | When no two distinct passing candidates are equally preferred, the device loop's tie-break and `max_by`'s tie-break pick the same index. |
| `Selection.TieBreaksDiffer` | src/device.rs:64 | Of two equally preferred passing candidates, the device loop picks the first (index 0) and `max_by` the last (index 1). |
| `Device.SelectQueueFamily` | src/device.rs:62-64 | The selected queue family is `None` exactly when no family of the device passes `filter`. Otherwise it is one of the device's families and passes `filter`. |
| `Device.SelectedFamilyIsBest` | src/device.rs:64 | Under a consistent preference, the selected family is the family at the `max_by` index. No passing family is strictly preferred to it, and it is strictly preferred to every passing family after it. |
| `Device.SingleQueueRequest` | src/device.rs:67-72 | Device creation is asked for exactly one (family, priority) entry, and that entry is for the selected family. |
| `Device.OnlyQueue` | src/device.rs:74-77 | Draining the queue iterator returns its queue exactly when there is exactly one queue; an empty or longer iterator panics. |
| `Device.SetupSingleQueueDevice` | src/device.rs:54-85 | The result is `Ok(None)` exactly when no family passes `filter`. Otherwise device creation gets a single-entry request for the selected family. Its error comes back as that `Err`, never as `Ok(None)`. On success with one queue, the result is that device and queue. On success with any other number of queues, the call panics. |
| `Vulkan.FilterRank` | src/instance.rs:82-86 | The maximum-level filters are ordered with `Off` alone at the bottom, below `Error`; every other filter ranks as its level. |
| `Vulkan.Enables` | src/instance.rs:82-86 | `max_log_level >= LevelFilter::<level>`: `Off` lets nothing through, and any other filter lets a level through exactly when the level is at most the filter's level. `Error` is let through by every filter except `Off`. |
| `DebugReport.MessageTypesFor` | src/instance.rs:76-88 | `new` subscribes to a message kind exactly when the logger's maximum level lets that kind's level through: errors at `Error`, warnings and performance warnings at `Warn`, information at `Info`, debug at `Debug`. |
| `DebugReport.MessageTypesMonotone` | src/instance.rs:76-88 | Raising the maximum level only adds subscriptions, never removes one. |
| `DebugReport.MessageTypesExtremes` | src/instance.rs:76-88 | A logger that is off subscribes to nothing. One at `Debug` or `Trace` subscribes to every kind. |
| `DebugReport.Severity` | src/instance.rs:127-134 | A message is logged at the most severe level among its flags: error, then warning or performance warning, then information, then debug. The `unimplemented!()` arm is reached exactly when no flag is set. |
| `DebugReport.SubscribedIffLogged` | src/instance.rs:127-134 | A message has a kind that `new` subscribed to for a maximum level exactly when its severity exists and that maximum level lets it through. So the level mapping and the subscription mapping agree in both directions. |
| `DebugReport.FlagWord` | src/instance.rs:137-141 | Each flag's word in the tag is a space followed by four letters. |
| `DebugReport.FlagWordsDistinct` | src/instance.rs:137-141 | The five flag words already differ in their second character, so two different flags never write the same word. |
| `DebugReport.Tag` | src/instance.rs:136-141 | The tag of every callback line starts with "VULKAN". |
| `DebugReport.TakeWord` | src/instance.rs:137-141 | Reading one flag word off the front of a string succeeds only when the string starts with that word, and leaves the rest. |
| `DebugReport.TakeWordOf` | src/instance.rs:137-141 | The word of a set flag is read back; the word of a clear flag is absent, because the next word begins differently. |
| `DebugReport.TagRoundTrip` | src/instance.rs:136-141 | The tag, with its fixed word order, loses nothing: parsing it back gives exactly the message's flags. |
| `DebugReport.OnMessage` | src/instance.rs:126-142 | The callback panics exactly when the message has no flag. Otherwise it logs at the message's severity. The line starts with a tag that parses back to the message's flags, followed by " @ ", the layer prefix, " \t=> " and the description. |
| `Instance.WithDebugReport` | src/instance.rs:116-117 | The instance is requested with every caller extension plus `VK_EXT_debug_report`, and nothing else. |
| `Instance.WithDebugConfig` | src/instance.rs:93-151 | Construction succeeds exactly when every step succeeds. With `Info` logging on, those steps include the extension and layer queries. They also include instance creation with the debug-report extension added, and callback registration for the given message kinds. The result holds that instance and that callback. Otherwise the result is the error of the first failing step, in the order: extension query, layer query (both only under `Info`), instance creation, callback registration. |
| `Instance.InfoEnabled` | src/instance.rs:100 | `Info` logging is on exactly when the maximum level is `Info`, `Debug` or `Trace` and the installed logger accepts `Info`. |
| `Instance.New` | src/instance.rs:71-89 | On success, the debug callback is registered on the created instance for exactly the message kinds derived from the maximum log level. |
| `Instance.NewIgnoresQueriesBelowInfo` | src/instance.rs:100-114 | Below `Info`, the capability queries are not made, so their failures cannot change the result of `new`. |
| `Instance.HexByte` | src/instance.rs:201 | `{:02x}` of a byte is exactly two lowercase digits: the digit of its high nibble, then the digit of its low nibble. Their values give back the byte. |
| `Instance.HexString` | src/instance.rs:199 | The UUID string has exactly two characters per byte. |
| `Instance.HexStringAt` | src/instance.rs:200-202 | Characters `2i` and `2i+1` of the UUID string are the lowercase high and low hex digit of byte `i`. |
| `Instance.HexByteRoundTrip` | src/instance.rs:201 | The two digits written for a byte read back as that byte. |
| `Instance.HexRoundTrip` | src/instance.rs:198-203 | Parsing the UUID string back gives the UUID: the rendering is injective. |
| `Instance.HexStringExample` | src/instance.rs:201 | `{:02x}` pads: bytes 0x0a, 0xff, 0x00 render as "0aff00". |
| `Instance.RenderUuid` | src/instance.rs:198-203 | The buffer-filling loop produces exactly the UUID string, of length twice the UUID's. |

## Left out

- The binding calls are not modelled; each is a parameter of the function that uses it, and may fail. These are `Instance::new`, `DebugCallback::new`, `Device::new`, `InstanceExtensions::supported_by_core` and `layers_list`. `PhysicalDevice::enumerate` becomes the `devices` sequence, and `queue_families()` a field of the device record.
- The application info and layer list are passed to `Instance::new` untouched. They are folded into the `instanceNew` parameter.
- The features and extensions given to `Device::new` are opaque type parameters, passed through unchanged.
- The log output of `select_physical_device` (device properties, limits, queue families, memory types and heaps, src/instance.rs:189-518) is not modelled. It is output of foreign getters with no decision in it. The UUID rendering inside it is modelled on its own by `Instance.RenderUuid`.
- The `?` after each `write!` into a `String` is not modelled: writing to a `String` cannot fail.
- The `?` after `CString::new("VK_EXT_debug_report")` is not modelled: the literal has no NUL byte, so it cannot fail.
- The global logger is not modelled. Its maximum level and whether the installed logger accepts `Info` are parameters.
- The `Drop` impl (logging only) is not modelled, nor `Arc` and lifetime plumbing.
- The `Result` alias of src/lib.rs is the `Wrappers.Result` datatype over a type-erased error carrying only its message.
- The queue priority 1.0 is the exact real 1.0; no other floating-point value is modelled.
- `log!` drops a record above the logger's current maximum level before any logger sees it. `DebugReport.OnMessage` returns the record that `log!` is asked to emit, and that drop is not modelled.
- A caller's `filter` and `preference` are modelled as pure functions; side effects of the closures are not modelled.
- `device_filter_helper`, which the documentation mentions, is not part of this model.
