/** The physical-device wrapper and its single-queue logical-device setup. */
module Device {
  import opened Wrappers
  import opened Vulkan
  import opened Selection

  /** A selected physical device. */
  datatype EasyPhysicalDevice = EasyPhysicalDevice(device: PhysicalDevice)

  /** One entry of the queue request handed to device creation: a family
      and the priority of the one queue asked of it. */
  type QueueRequest = (QueueFamily, real)

  /** Priority of the single queue. */
  const QueuePriority: real := 1.0

  /** `queue_families().filter(filter).max_by(preference)`: the family to
      take the queue from. `None` exactly when no family passes the filter,
      otherwise a passing family of this device. */
  function SelectQueueFamily(self: EasyPhysicalDevice, filter: QueueFamily -> bool,
                             preference: (QueueFamily, QueueFamily) -> Ordering): (r: Option<QueueFamily>)
    ensures r.None? <==>
              forall i :: 0 <= i < |self.device.queueFamilies| ==> !filter(self.device.queueFamilies[i])
    ensures r.Some? ==> r.value in self.device.queueFamilies && filter(r.value)
  {
    LastMax(self.device.queueFamilies, filter, preference)
  }

  /** With a consistent preference, no passing family is strictly preferred
      to the selected one, and the selected one sits at a position after
      which every passing family is strictly less preferred: of equally
      preferred families, the last enumerated is taken. */
  lemma SelectedFamilyIsBest(self: EasyPhysicalDevice, filter: QueueFamily -> bool,
                             preference: (QueueFamily, QueueFamily) -> Ordering)
    requires ConsistentOn(self.device.queueFamilies, preference)
    requires SelectQueueFamily(self, filter, preference).Some?
    ensures var families, k := self.device.queueFamilies, LastMaxIndex(self.device.queueFamilies, filter, preference);
      && k.Some?
      && SelectQueueFamily(self, filter, preference) == Some(families[k.value])
      && IsLastBest(families, filter, preference, k.value)
  {
    LastMaxIsBest(self.device.queueFamilies, filter, preference);
  }

  /** The queue request for a single queue of `family`. */
  function SingleQueueRequest(family: QueueFamily): (r: seq<QueueRequest>)
    ensures |r| == 1 && r[0].0 == family
  {
    [(family, QueuePriority)]
  }

  /** Drains the queue iterator returned by device creation: the first
      `next()` is unwrapped and the second must be `None`, so anything but
      exactly one queue panics. */
  function OnlyQueue<Q>(queues: seq<Q>): (r: Run<Q>)
    ensures r.Returned? <==> |queues| == 1
    ensures r.Returned? ==> r.value == queues[0]
  {
    if |queues| == 0 then Panicked
    else if |queues| > 1 then Panicked
    else Returned(queues[0])
  }

  /** `setup_single_queue_device`: pick a queue family, create a logical
      device with exactly one queue of it, and return the device and that
      queue. `Ok(None)` exactly when no family passes the filter; a failure
      of device creation comes back as that `Err`, never as `Ok(None)`. */
  function SetupSingleQueueDevice<F, X, D, Q>(
    self: EasyPhysicalDevice,
    features: F,
    extensions: X,
    filter: QueueFamily -> bool,
    preference: (QueueFamily, QueueFamily) -> Ordering,
    deviceNew: (PhysicalDevice, F, X, seq<QueueRequest>) -> Result<(D, seq<Q>)>
  ): (r: Run<Result<Option<(D, Q)>>>)
    ensures r == Returned(Ok(None)) <==>
              forall i :: 0 <= i < |self.device.queueFamilies| ==> !filter(self.device.queueFamilies[i])
    ensures SelectQueueFamily(self, filter, preference).Some? ==>
      var created := deviceNew(self.device, features, extensions,
                               SingleQueueRequest(SelectQueueFamily(self, filter, preference).value));
      && (created.Err? ==> r == Returned(Err(created.error)))
      && (created.Ok? && |created.value.1| == 1 ==>
            r == Returned(Ok(Some((created.value.0, created.value.1[0])))))
      && (created.Ok? && |created.value.1| != 1 ==> r == Panicked)
  {
    match SelectQueueFamily(self, filter, preference)
    case None => Returned(Ok(None))
    case Some(family) =>
      match deviceNew(self.device, features, extensions, SingleQueueRequest(family))
      case Err(e) => Returned(Err(e))
      case Ok((device, queues)) =>
        match OnlyQueue(queues)
        case Panicked => Panicked
        case Returned(queue) => Returned(Ok(Some((device, queue))))
  }
}
