/**
 * The peer-device state model: one `BLEDevice` per discovered radio peer.
 *
 * Every mutator takes the current time `now` (milliseconds) explicitly, in
 * place of `new Date()`. The delegate is an object holding the ordered log of
 * attribute-change notifications it has received; a mutator that notifies
 * appends to that log and one that does not leaves it out of its frame.
 */
module BLE {
  import opened Datatypes

  /** `BLEDeviceState` */
  datatype DeviceState = Disconnected | Connecting | Connected | Disconnecting

  /** `BLEDeviceOperatingSystem` */
  datatype OperatingSystem = Unknown | Ios | Android | Ignore

  /** `BLEDeviceAttribute`: the attributes whose change is notified. */
  datatype Attribute =
    | StateChanged
    | OperatingSystemChanged
    | PayloadDataChanged
    | RssiChanged
    | TxPowerChanged

  /** One call `delegate.device(device, attribute)`. */
  datatype Notification = Notification(device: TargetIdentifier, attribute: Attribute)

  /** Opaque platform handles. */
  datatype BluetoothDevice = BluetoothDevice(address: string)
  datatype Characteristic = Characteristic(handle: nat)
  datatype ScanRecord = ScanRecord(bytes: seq<byte>)

  /** Signal measurements. */
  datatype PseudoDeviceAddress = PseudoDeviceAddress(address: int)
  datatype Rssi = Rssi(value: int)
  datatype TxPower = TxPower(value: int)
  datatype CalibrationMeasurementUnit = BLETransmitPower
  datatype Calibration = Calibration(unit: CalibrationMeasurementUnit, value: int)

  /** `BLEDeviceDelegate`, as the log of the notifications it was sent. */
  class Delegate {
    var events: seq<Notification>

    constructor ()
      ensures events == []
    {
      events := [];
    }
  }

  /** The queue of signal-characteristic writes: an object that a clone shares. */
  class SignalWriteQueue {
    var pending: seq<seq<byte>>

    constructor ()
      ensures pending == []
    {
      pending := [];
    }
  }

  // ---------------------------------------------------------------------------
  // Operating-system detection backoff
  // ---------------------------------------------------------------------------

  /** `TimeInterval.minutes(3).value`: while below it, the duration grows. */
  const IGNORE_CEILING: int := 180

  /** The largest duration the growth rule reaches: one step past the ceiling. */
  const IGNORE_LIMIT: int := 215

  /**
   * `Math.round(v * 1.2)` on a whole number of seconds: `Math.round(x)` is
   * `floor(x + 0.5)`, and `floor((12 v + 5) / 10)` is what `/` computes here.
   */
  function RoundTimesOnePointTwo(v: int): (r: int)
    ensures 10 * r - 5 <= 12 * v < 10 * r + 5
  {
    (12 * v + 5) / 10
  }

  /** The `ignoreForDuration` that setting the operating system to `ignore` stores. */
  function NextIgnoreDuration(d: Option<int>): (r: int)
    ensures d.None? ==> r == MINUTE
    ensures d.Some? && d.value >= 0 ==> d.value <= r
    ensures (d.None? || MINUTE <= d.value <= IGNORE_LIMIT) ==> MINUTE <= r <= IGNORE_LIMIT
    ensures d.Some? && d.value >= IGNORE_CEILING ==> r == d.value
  {
    if d.None? then MINUTE
    else if d.value < IGNORE_CEILING then RoundTimesOnePointTwo(d.value)
    else d.value
  }

  /** The duration after `n` consecutive `ignore` settings, starting from a cleared duration. */
  function IgnoreDurationAfter(n: nat): int
    requires n >= 1
  {
    if n == 1 then NextIgnoreDuration(None)
    else NextIgnoreDuration(Some(IgnoreDurationAfter(n - 1)))
  }

  /** Repeated `ignore` settings never shrink the duration, and it stays within [60 s, 215 s]. */
  lemma {:induction false} IgnoreDurationsNonDecreasing(m: nat, n: nat)
    requires 1 <= m <= n
    ensures MINUTE <= IgnoreDurationAfter(m) <= IgnoreDurationAfter(n) <= IGNORE_LIMIT
  {
    if m < n {
      IgnoreDurationsNonDecreasing(m, n - 1);
    } else if n > 1 {
      IgnoreDurationsNonDecreasing(n - 1, n - 1);
    }
  }

  /** The first eight durations: 60, 72, 86, 103, 124, 149, 179, 215 seconds. */
  lemma IgnoreDurationSchedule()
    ensures IgnoreDurationAfter(1) == 60 && IgnoreDurationAfter(2) == 72
    ensures IgnoreDurationAfter(3) == 86 && IgnoreDurationAfter(4) == 103
    ensures IgnoreDurationAfter(5) == 124 && IgnoreDurationAfter(6) == 149
    ensures IgnoreDurationAfter(7) == 179 && IgnoreDurationAfter(8) == IGNORE_LIMIT
  {
  }

  /** From the eighth `ignore` on, the duration holds at 215 seconds. */
  lemma {:induction false} IgnoreDurationSaturates(n: nat)
    requires n >= 8
    ensures IgnoreDurationAfter(n) == IGNORE_LIMIT
  {
    if n == 8 {
      IgnoreDurationSchedule();
    } else {
      IgnoreDurationSaturates(n - 1);
    }
  }

  // ---------------------------------------------------------------------------
  // The device
  // ---------------------------------------------------------------------------

  class BLEDevice {
    /** Registration time. */
    const createdAt: int
    /** Last time anything changed; a public field, so it may also be null. */
    var lastUpdatedAt: Option<int>
    /** Ephemeral identifier. */
    const identifier: TargetIdentifier
    var pseudoDeviceAddress: Option<PseudoDeviceAddress>
    const delegate: Delegate
    var peripheral: Option<BluetoothDevice>
    var state: DeviceState
    var operatingSystem: OperatingSystem
    var payloadData: Option<PayloadData>
    var lastPayloadDataUpdate: Option<int>
    var immediateSendData: Option<Data>
    var rssi: Option<Rssi>
    var txPower: Option<TxPower>
    var receiveOnly: bool
    /** Backoff duration in seconds. */
    var ignoreForDuration: Option<int>
    var ignoreUntil: Option<int>
    var scanRecord: Option<ScanRecord>
    var signalCharacteristic: Option<Characteristic>
    var payloadCharacteristic: Option<Characteristic>
    var legacyPayloadCharacteristic: Option<Characteristic>
    var signalCharacteristicWriteValue: Option<seq<byte>>
    var signalCharacteristicWriteQueue: SignalWriteQueue?
    var modelCharacteristic: Option<Characteristic>
    var model: Option<string>
    var deviceNameCharacteristic: Option<Characteristic>
    var deviceName: Option<string>
    var lastDiscoveredAt: Option<int>
    var lastConnectedAt: Option<int>
    /** Payloads already shared with this peer. */
    var payloadSharingData: seq<PayloadData>
    var lastWritePayloadAt: Option<int>
    var lastWriteRssiAt: Option<int>
    var lastWritePayloadSharingAt: Option<int>

    /**
     * What every device keeps: the backoff duration stays within
     * [60 s, 215 s]; a device is being ignored exactly when its operating
     * system is `ignore`, and then a duration is set; a connected device has
     * a connection time.
     */
    ghost predicate Valid()
      reads this`ignoreForDuration, this`ignoreUntil, this`operatingSystem
      reads this`state, this`lastConnectedAt
    {
      && (ignoreForDuration.Some? ==> MINUTE <= ignoreForDuration.value <= IGNORE_LIMIT)
      && (ignoreUntil.Some? <==> operatingSystem == Ignore)
      && (ignoreUntil.Some? ==> ignoreForDuration.Some?)
      && (state == Connected ==> lastConnectedAt.Some?)
    }

    /** A new device: `lastUpdatedAt == createdAt`, disconnected, operating system unknown. */
    constructor (identifier: TargetIdentifier, delegate: Delegate, now: int)
      ensures Valid()
      ensures this.identifier == identifier && this.delegate == delegate
      ensures createdAt == now && lastUpdatedAt == Some(createdAt)
      ensures state == Disconnected && operatingSystem == Unknown
      ensures pseudoDeviceAddress.None? && peripheral.None? && payloadData.None?
      ensures lastPayloadDataUpdate.None? && immediateSendData.None?
      ensures rssi.None? && txPower.None? && !receiveOnly
      ensures ignoreForDuration.None? && ignoreUntil.None? && scanRecord.None?
      ensures signalCharacteristic.None? && payloadCharacteristic.None? && legacyPayloadCharacteristic.None?
      ensures signalCharacteristicWriteValue.None? && signalCharacteristicWriteQueue == null
      ensures modelCharacteristic.None? && model.None?
      ensures deviceNameCharacteristic.None? && deviceName.None?
      ensures lastDiscoveredAt.None? && lastConnectedAt.None? && payloadSharingData == []
      ensures lastWritePayloadAt.None? && lastWriteRssiAt.None? && lastWritePayloadSharingAt.None?
    {
      createdAt := now;
      this.identifier := identifier;
      this.delegate := delegate;
      lastUpdatedAt := Some(now);
      pseudoDeviceAddress := None;
      peripheral := None;
      state := Disconnected;
      operatingSystem := Unknown;
      payloadData := None;
      lastPayloadDataUpdate := None;
      immediateSendData := None;
      rssi := None;
      txPower := None;
      receiveOnly := false;
      ignoreForDuration := None;
      ignoreUntil := None;
      scanRecord := None;
      signalCharacteristic := None;
      payloadCharacteristic := None;
      legacyPayloadCharacteristic := None;
      signalCharacteristicWriteValue := None;
      signalCharacteristicWriteQueue := null;
      modelCharacteristic := None;
      model := None;
      deviceNameCharacteristic := None;
      deviceName := None;
      lastDiscoveredAt := None;
      lastConnectedAt := None;
      payloadSharingData := [];
      lastWritePayloadAt := None;
      lastWriteRssiAt := None;
      lastWritePayloadSharingAt := None;
    }

    /**
     * Re-identification: the same accumulated state under the identifier of
     * `bluetoothDevice`. `createdAt` is kept, `lastUpdatedAt` is now; the
     * peripheral and the pending immediate-send data are not carried over;
     * the delegate and the write queue are shared with `device`.
     */
    constructor Clone(device: BLEDevice, bluetoothDevice: BluetoothDevice, now: int)
      requires device.Valid()
      ensures Valid()
      ensures createdAt == device.createdAt && lastUpdatedAt == Some(now)
      ensures identifier == TargetIdentifier(bluetoothDevice.address)
      ensures delegate == device.delegate
      ensures peripheral.None? && immediateSendData.None?
      ensures pseudoDeviceAddress == device.pseudoDeviceAddress
      ensures state == device.state && operatingSystem == device.operatingSystem
      ensures payloadData == device.payloadData && lastPayloadDataUpdate == device.lastPayloadDataUpdate
      ensures rssi == device.rssi && txPower == device.txPower && receiveOnly == device.receiveOnly
      ensures ignoreForDuration == device.ignoreForDuration && ignoreUntil == device.ignoreUntil
      ensures scanRecord == device.scanRecord
      ensures signalCharacteristic == device.signalCharacteristic
      ensures payloadCharacteristic == device.payloadCharacteristic
      ensures legacyPayloadCharacteristic == device.legacyPayloadCharacteristic
      ensures modelCharacteristic == device.modelCharacteristic && model == device.model
      ensures deviceNameCharacteristic == device.deviceNameCharacteristic && deviceName == device.deviceName
      ensures signalCharacteristicWriteValue == device.signalCharacteristicWriteValue
      ensures signalCharacteristicWriteQueue == device.signalCharacteristicWriteQueue
      ensures lastDiscoveredAt == device.lastDiscoveredAt && lastConnectedAt == device.lastConnectedAt
      ensures payloadSharingData == device.payloadSharingData
      ensures lastWritePayloadAt == device.lastWritePayloadAt && lastWriteRssiAt == device.lastWriteRssiAt
      ensures lastWritePayloadSharingAt == device.lastWritePayloadSharingAt
    {
      createdAt := device.createdAt;
      lastUpdatedAt := Some(now);
      identifier := TargetIdentifier(bluetoothDevice.address);
      pseudoDeviceAddress := device.pseudoDeviceAddress;
      delegate := device.delegate;
      peripheral := None;
      state := device.state;
      operatingSystem := device.operatingSystem;
      payloadData := device.payloadData;
      lastPayloadDataUpdate := device.lastPayloadDataUpdate;
      immediateSendData := None;
      rssi := device.rssi;
      txPower := device.txPower;
      receiveOnly := device.receiveOnly;
      ignoreForDuration := device.ignoreForDuration;
      ignoreUntil := device.ignoreUntil;
      scanRecord := device.scanRecord;
      signalCharacteristic := device.signalCharacteristic;
      payloadCharacteristic := device.payloadCharacteristic;
      modelCharacteristic := device.modelCharacteristic;
      deviceNameCharacteristic := device.deviceNameCharacteristic;
      model := device.model;
      deviceName := device.deviceName;
      signalCharacteristicWriteValue := device.signalCharacteristicWriteValue;
      signalCharacteristicWriteQueue := device.signalCharacteristicWriteQueue;
      legacyPayloadCharacteristic := device.legacyPayloadCharacteristic;
      lastDiscoveredAt := device.lastDiscoveredAt;
      lastConnectedAt := device.lastConnectedAt;
      payloadSharingData := device.payloadSharingData;
      lastWritePayloadAt := device.lastWritePayloadAt;
      lastWriteRssiAt := device.lastWriteRssiAt;
      lastWritePayloadSharingAt := device.lastWritePayloadSharingAt;
    }

    // -------------------------------------------------------------------------
    // Queries
    // -------------------------------------------------------------------------

    /** Whole seconds since the connection; zero unless connected. */
    function TimeIntervalSinceConnected(now: int): (r: TimeInterval)
      reads this
      ensures r.Seconds?
      ensures state != Connected ==> r == Seconds(0)
      ensures Valid() && state == Connected && lastConnectedAt.value <= now ==>
                0 <= r.value && r.value * 1000 <= now - lastConnectedAt.value < r.value * 1000 + 1000
    {
      if state != Connected then Seconds(0)
      else if lastConnectedAt.None? then Seconds(0)
      else IntervalSince(lastConnectedAt, now)
    }

    /** Whole seconds since the last update, `never` when there was none. */
    function TimeIntervalSinceLastUpdate(now: int): (r: TimeInterval)
      reads this
      ensures r.Never? <==> lastUpdatedAt.None?
      ensures lastUpdatedAt == Some(now) ==> r == Seconds(0)
      ensures lastUpdatedAt.Some? && lastUpdatedAt.value <= now ==>
                0 <= r.value && r.value * 1000 <= now - lastUpdatedAt.value < r.value * 1000 + 1000
    {
      IntervalSince(lastUpdatedAt, now)
    }

    function TimeIntervalSinceLastPayloadDataUpdate(now: int): (r: TimeInterval)
      reads this
      ensures r.Never? <==> lastPayloadDataUpdate.None?
      ensures lastPayloadDataUpdate == Some(now) ==> r == Seconds(0)
      ensures lastPayloadDataUpdate.Some? && lastPayloadDataUpdate.value <= now ==>
                0 <= r.value && r.value * 1000 <= now - lastPayloadDataUpdate.value < r.value * 1000 + 1000
    {
      IntervalSince(lastPayloadDataUpdate, now)
    }

    function TimeIntervalSinceLastWritePayload(now: int): (r: TimeInterval)
      reads this
      ensures r.Never? <==> lastWritePayloadAt.None?
      ensures lastWritePayloadAt == Some(now) ==> r == Seconds(0)
      ensures lastWritePayloadAt.Some? && lastWritePayloadAt.value <= now ==>
                0 <= r.value && r.value * 1000 <= now - lastWritePayloadAt.value < r.value * 1000 + 1000
    {
      IntervalSince(lastWritePayloadAt, now)
    }

    function TimeIntervalSinceLastWriteRssi(now: int): (r: TimeInterval)
      reads this
      ensures r.Never? <==> lastWriteRssiAt.None?
      ensures lastWriteRssiAt == Some(now) ==> r == Seconds(0)
      ensures lastWriteRssiAt.Some? && lastWriteRssiAt.value <= now ==>
                0 <= r.value && r.value * 1000 <= now - lastWriteRssiAt.value < r.value * 1000 + 1000
    {
      IntervalSince(lastWriteRssiAt, now)
    }

    function TimeIntervalSinceLastWritePayloadSharing(now: int): (r: TimeInterval)
      reads this
      ensures r.Never? <==> lastWritePayloadSharingAt.None?
      ensures lastWritePayloadSharingAt == Some(now) ==> r == Seconds(0)
      ensures lastWritePayloadSharingAt.Some? && lastWritePayloadSharingAt.value <= now ==>
                0 <= r.value && r.value * 1000 <= now - lastWritePayloadSharingAt.value < r.value * 1000 + 1000
    {
      IntervalSince(lastWritePayloadSharingAt, now)
    }

    /** Should this device be skipped for now? Only while its operating system is `ignore`. */
    function ShouldIgnore(now: int): (r: bool)
      reads this
      ensures r <==> ignoreUntil.Some? && now < ignoreUntil.value
      ensures Valid() && r ==> operatingSystem == Ignore
      ensures Valid() && operatingSystem != Ignore ==> !r
    {
      if ignoreUntil.None? then false
      else now < ignoreUntil.value
    }

    /**
     * Time left in the ignore window: zero when there is none, `never` when
     * it ends at `Long.MAX_VALUE`, otherwise the remaining milliseconds
     * truncated toward zero to seconds: once the window is over, zero for
     * up to a second and then a negative number of whole seconds.
     */
    function TimeIntervalUntilIgnoreExpires(now: int): (r: TimeInterval)
      reads this
      ensures ignoreUntil.None? ==> r == Seconds(0)
      ensures r.Never? <==> ignoreUntil == Some(LONG_MAX)
      ensures ShouldIgnore(now) && r.Seconds? ==>
                0 <= r.value && r.value * 1000 <= ignoreUntil.value - now < r.value * 1000 + 1000
      ensures !ShouldIgnore(now) && r.Seconds? ==> r.value <= 0
      ensures !ShouldIgnore(now) && r.Seconds? && ignoreUntil.Some? ==>
                r.value * 1000 - 1000 < ignoreUntil.value - now <= r.value * 1000
    {
      if ignoreUntil.None? then Seconds(0)
      else if ignoreUntil.value == LONG_MAX then Never
      else Seconds(MillisToSeconds(ignoreUntil.value - now))
    }

    /** Present exactly when the transmit power is, and carries its value. */
    function CurrentCalibration(): (r: Option<Calibration>)
      reads this
      ensures r.Some? <==> txPower.Some?
      ensures r.Some? ==> r.value.unit == BLETransmitPower && r.value.value == txPower.value.value
    {
      if txPower.None? then None
      else Some(Calibration(BLETransmitPower, txPower.value.value))
    }

    predicate SupportsModelCharacteristic()
      reads this
    {
      modelCharacteristic.Some?
    }

    predicate SupportsDeviceNameCharacteristic()
      reads this
    {
      deviceNameCharacteristic.Some?
    }

    // -------------------------------------------------------------------------
    // Mutators
    // -------------------------------------------------------------------------

    /** Refreshes `lastUpdatedAt` unless the same non-null address is set again; never notifies. */
    method SetPseudoDeviceAddress(address: Option<PseudoDeviceAddress>, now: int)
      modifies this`pseudoDeviceAddress, this`lastUpdatedAt
      ensures pseudoDeviceAddress == address
      ensures lastUpdatedAt ==
                if old(pseudoDeviceAddress).None? || old(pseudoDeviceAddress) != address
                then Some(now) else old(lastUpdatedAt)
    {
      if pseudoDeviceAddress.None? || pseudoDeviceAddress != address {
        pseudoDeviceAddress := address;
        lastUpdatedAt := Some(now);
      }
    }

    /** Refreshes `lastUpdatedAt` only when the peripheral changes; never notifies. */
    method SetPeripheral(p: Option<BluetoothDevice>, now: int)
      modifies this`peripheral, this`lastUpdatedAt
      ensures peripheral == p
      ensures lastUpdatedAt == if old(peripheral) != p then Some(now) else old(lastUpdatedAt)
    {
      if peripheral != p {
        peripheral := p;
        lastUpdatedAt := Some(now);
      }
    }

    /** Sets the state and notifies once; only `connected` records the connection time. */
    method SetState(s: DeviceState, now: int)
      requires Valid()
      modifies this`state, this`lastUpdatedAt, this`lastConnectedAt, delegate`events
      ensures Valid()
      ensures state == s && lastUpdatedAt == Some(now)
      ensures lastConnectedAt == if s == Connected then lastUpdatedAt else old(lastConnectedAt)
      ensures delegate.events == old(delegate.events) + [Notification(identifier, StateChanged)]
      ensures s == Connected ==> TimeIntervalSinceConnected(now) == Seconds(0)
    {
      state := s;
      lastUpdatedAt := Some(now);
      if s == Connected {
        lastConnectedAt := lastUpdatedAt;
      }
      delegate.events := delegate.events + [Notification(identifier, StateChanged)];
    }

    /**
     * Sets the operating system and runs the backoff: `ignore` grows the
     * duration (60 s first, then x1.2 while below 180 s, then held) and opens
     * a window of that length from now; any other value closes the window;
     * `ios` and `android` also clear the duration. Notifies only on change.
     */
    method SetOperatingSystem(os: OperatingSystem, now: int)
      requires Valid()
      modifies this`lastUpdatedAt, this`ignoreForDuration, this`ignoreUntil, this`operatingSystem
      modifies delegate`events
      ensures Valid()
      ensures lastUpdatedAt == Some(now) && operatingSystem == os
      ensures os == Ignore ==>
                && ignoreForDuration == Some(NextIgnoreDuration(old(ignoreForDuration)))
                && ignoreUntil == Some(now + ignoreForDuration.value * 1000)
      ensures os == Ignore ==> ShouldIgnore(now) && !ShouldIgnore(now + IGNORE_LIMIT * 1000)
      ensures (os == Ios || os == Android) ==> ignoreForDuration.None? && ignoreUntil.None?
      ensures os == Unknown ==> ignoreForDuration == old(ignoreForDuration) && ignoreUntil.None?
      ensures os != Ignore ==> !ShouldIgnore(now) && TimeIntervalUntilIgnoreExpires(now) == Seconds(0)
      ensures delegate.events ==
                old(delegate.events) +
                (if old(operatingSystem) != os then [Notification(identifier, OperatingSystemChanged)] else [])
    {
      lastUpdatedAt := Some(now);
      if os == Ignore {
        if ignoreForDuration.None? {
          ignoreForDuration := Some(MINUTE);
        } else if ignoreForDuration.value < IGNORE_CEILING {
          ignoreForDuration := Some(RoundTimesOnePointTwo(ignoreForDuration.value));
        }
        ignoreUntil := Some(lastUpdatedAt.value + ignoreForDuration.value * 1000);
      } else {
        ignoreUntil := None;
      }
      if os == Ios || os == Android {
        ignoreForDuration := None;
      }
      if operatingSystem != os {
        operatingSystem := os;
        delegate.events := delegate.events + [Notification(identifier, OperatingSystemChanged)];
      }
    }

    method SetPayloadData(p: Option<PayloadData>, now: int)
      modifies this`payloadData, this`lastPayloadDataUpdate, this`lastUpdatedAt, delegate`events
      ensures payloadData == p
      ensures lastPayloadDataUpdate == Some(now) && lastUpdatedAt == lastPayloadDataUpdate
      ensures delegate.events == old(delegate.events) + [Notification(identifier, PayloadDataChanged)]
    {
      payloadData := p;
      lastPayloadDataUpdate := Some(now);
      lastUpdatedAt := lastPayloadDataUpdate;
      delegate.events := delegate.events + [Notification(identifier, PayloadDataChanged)];
    }

    /** Internal bookkeeping: no timestamp, no notification. */
    method SetImmediateSendData(d: Option<Data>)
      modifies this`immediateSendData
      ensures immediateSendData == d
    {
      immediateSendData := d;
    }

    method SetRssi(r: Option<Rssi>, now: int)
      modifies this`rssi, this`lastUpdatedAt, delegate`events
      ensures rssi == r && lastUpdatedAt == Some(now)
      ensures delegate.events == old(delegate.events) + [Notification(identifier, RssiChanged)]
    {
      rssi := r;
      lastUpdatedAt := Some(now);
      delegate.events := delegate.events + [Notification(identifier, RssiChanged)];
    }

    /** Stamps the payload update time, not `lastUpdatedAt`. */
    method SetLegacyPayloadCharacteristic(c: Option<Characteristic>, now: int)
      modifies this`legacyPayloadCharacteristic, this`lastPayloadDataUpdate
      ensures legacyPayloadCharacteristic == c && lastPayloadDataUpdate == Some(now)
    {
      legacyPayloadCharacteristic := c;
      lastPayloadDataUpdate := Some(now);
    }

    method SetTxPower(t: Option<TxPower>, now: int)
      modifies this`txPower, this`lastUpdatedAt, delegate`events
      ensures txPower == t && lastUpdatedAt == Some(now)
      ensures delegate.events == old(delegate.events) + [Notification(identifier, TxPowerChanged)]
      ensures CurrentCalibration().Some? <==> t.Some?
    {
      txPower := t;
      lastUpdatedAt := Some(now);
      delegate.events := delegate.events + [Notification(identifier, TxPowerChanged)];
    }

    method SetReceiveOnly(b: bool, now: int)
      modifies this`receiveOnly, this`lastUpdatedAt
      ensures receiveOnly == b && lastUpdatedAt == Some(now)
    {
      receiveOnly := b;
      lastUpdatedAt := Some(now);
    }

    /** Drops all five cached characteristic handles; timestamps are untouched. */
    method InvalidateCharacteristics()
      modifies this`signalCharacteristic, this`payloadCharacteristic, this`modelCharacteristic
      modifies this`deviceNameCharacteristic, this`legacyPayloadCharacteristic
      ensures signalCharacteristic.None? && payloadCharacteristic.None?
      ensures modelCharacteristic.None? && deviceNameCharacteristic.None?
      ensures legacyPayloadCharacteristic.None?
      ensures !SupportsModelCharacteristic() && !SupportsDeviceNameCharacteristic()
    {
      signalCharacteristic := None;
      payloadCharacteristic := None;
      modelCharacteristic := None;
      deviceNameCharacteristic := None;
      legacyPayloadCharacteristic := None;
    }

    method SetSignalCharacteristic(c: Option<Characteristic>, now: int)
      modifies this`signalCharacteristic, this`lastUpdatedAt
      ensures signalCharacteristic == c && lastUpdatedAt == Some(now)
    {
      signalCharacteristic := c;
      lastUpdatedAt := Some(now);
    }

    method SetPayloadCharacteristic(c: Option<Characteristic>, now: int)
      modifies this`payloadCharacteristic, this`lastUpdatedAt
      ensures payloadCharacteristic == c && lastUpdatedAt == Some(now)
    {
      payloadCharacteristic := c;
      lastUpdatedAt := Some(now);
    }

    method SetModelCharacteristic(c: Option<Characteristic>, now: int)
      modifies this`modelCharacteristic, this`lastUpdatedAt
      ensures modelCharacteristic == c && lastUpdatedAt == Some(now)
      ensures SupportsModelCharacteristic() <==> c.Some?
    {
      modelCharacteristic := c;
      lastUpdatedAt := Some(now);
    }

    method SetDeviceNameCharacteristic(c: Option<Characteristic>, now: int)
      modifies this`deviceNameCharacteristic, this`lastUpdatedAt
      ensures deviceNameCharacteristic == c && lastUpdatedAt == Some(now)
      ensures SupportsDeviceNameCharacteristic() <==> c.Some?
    {
      deviceNameCharacteristic := c;
      lastUpdatedAt := Some(now);
    }

    method SetDeviceName(name: Option<string>, now: int)
      modifies this`deviceName, this`lastUpdatedAt
      ensures deviceName == name && lastUpdatedAt == Some(now)
    {
      deviceName := name;
      lastUpdatedAt := Some(now);
    }

    method SetModel(m: Option<string>, now: int)
      modifies this`model, this`lastUpdatedAt
      ensures model == m && lastUpdatedAt == Some(now)
    {
      model := m;
      lastUpdatedAt := Some(now);
    }

    method RegisterDiscovery(now: int)
      modifies this`lastDiscoveredAt, this`lastUpdatedAt
      ensures lastDiscoveredAt == Some(now) && lastUpdatedAt == lastDiscoveredAt
    {
      lastDiscoveredAt := Some(now);
      lastUpdatedAt := lastDiscoveredAt;
    }

    method RegisterWritePayload(now: int)
      modifies this`lastWritePayloadAt, this`lastUpdatedAt
      ensures lastUpdatedAt == Some(now) && lastWritePayloadAt == lastUpdatedAt
      ensures TimeIntervalSinceLastWritePayload(now) == Seconds(0)
    {
      lastUpdatedAt := Some(now);
      lastWritePayloadAt := lastUpdatedAt;
    }

    method RegisterWriteRssi(now: int)
      modifies this`lastWriteRssiAt, this`lastUpdatedAt
      ensures lastUpdatedAt == Some(now) && lastWriteRssiAt == lastUpdatedAt
      ensures TimeIntervalSinceLastWriteRssi(now) == Seconds(0)
    {
      lastUpdatedAt := Some(now);
      lastWriteRssiAt := lastUpdatedAt;
    }

    method RegisterWritePayloadSharing(now: int)
      modifies this`lastWritePayloadSharingAt, this`lastUpdatedAt
      ensures lastUpdatedAt == Some(now) && lastWritePayloadSharingAt == lastUpdatedAt
      ensures TimeIntervalSinceLastWritePayloadSharing(now) == Seconds(0)
    {
      lastUpdatedAt := Some(now);
      lastWritePayloadSharingAt := lastUpdatedAt;
    }

    /** No timestamp, no notification. */
    method SetScanRecord(r: Option<ScanRecord>)
      modifies this`scanRecord
      ensures scanRecord == r
    {
      scanRecord := r;
    }
  }
}
