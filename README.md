# Herald contact-tracing core in Dafny

This project models three parts of the Herald Bluetooth proximity sensor and its
demonstration app, and proves properties of each:

- **The peer-device record** `BLEDevice` (`ble_device.dfy`, module `BLE`). It holds
  everything known about one radio peer: connection state, detected operating
  system, payload, signal measurements and cached characteristic handles. It also
  holds the operating-system detection backoff: each `ignore` verdict grows the
  ignore duration (60 s first, then x1.2 while below 3 minutes), and the window
  `ignoreUntil` is opened from that duration. The device is a class whose setters
  take the current time `now` explicitly. The delegate is a `Delegate` object that
  logs the notifications it receives.
- **Identity resolution and de-duplication** in the app's `Contactlogs` activity
  (`contactlogs.dfy`, module `Contactlogs`; the sort lives in `display_order.dfy`,
  module `DisplayOrder`).
  - Two registries map a rotating identifier to the payload last read from it
    (`targetIdentifiers`), and a payload to its `Target` (`payloads`).
  - Five event handlers update them: detect, read, share, measure, receive.
  - `updateTargets` keeps one most recent target per payload short name and sorts
    the result by short name.

  Each handler is a method of the `Contactlogs` class, proved equal to a function
  on the registries (`RecordRead`, `RecordShare`, `RecordMeasure`, `RecordReceive`).
  Those functions carry the lemmas.
- **The mock SONAR payload** (`sonar.dfy`, module `SonarPayload`). It is a 129-byte
  frame: three reserved zero bytes, the 32-bit identifier in network byte order,
  then zeros. The supplier fills arrays as the original fills a `ByteBuffer`. The
  frame is proved equal to `SonarFrame`, and the identifier decodes back from it.

Common value types live in `datatypes.dfy` (module `Datatypes`):
- timestamps are milliseconds as `int`;
- `TimeInterval` is whole seconds or `Never`;
- Java's truncating `long` division by 1000 is written out, because Dafny's `/` is
  Euclidean.

Several classes are not part of this model, so the model assumes their behaviour:
- `Target.java`: the constructor stamps `lastUpdatedAt` with the current time;
  `didRead(date)` sets only `lastUpdatedAt`; `targetIdentifier`, `proximity` and
  `received` set only their own field.
- The BLE enumerations are modelled as datatypes.
- `TimeInterval`: `minute` is 60 s and `millis()` is the value x 1000.
- `PayloadData.shortName()`: an arbitrary function of the payload, passed as a
  parameter.
- The `HashMap` iteration order is a parameter `order` that lists every payload.

Where the documented behaviour and the code differ, the model follows the code:
- A read of an already known payload from a new identifier only refreshes that
  target's recency. It does not change the target's identifier; a later
  measurement or receive from the new identifier does.
- `pseudoDeviceAddress(null)` while the stored address is null still refreshes
  `lastUpdatedAt`, because the guard tests only whether the stored value is null.
- Not every observable change stamps `lastUpdatedAt` and notifies the delegate:
  - `receiveOnly`, the characteristic setters, `deviceName`, `model` and the
    `register*` methods stamp `lastUpdatedAt` but send no notification
    (BLEDevice.java:293-296, 310-354, 356-388);
  - `legacyPayloadCharacteristic` stamps only the payload update time
    (BLEDevice.java:263-266);
  - `immediateSendData`, `invalidateCharacteristics` and `scanRecord` stamp
    nothing (BLEDevice.java:245-247, 298-304, 407-409).
- `timeIntervalUntilIgnoreExpires` does not stay at zero once the ignore window
  has passed. It returns zero for up to a second after the window closes, then a
  negative number of whole seconds (BLEDevice.java:404).

## Model

| member | source | states |
|---|---|---|
| Datatypes.MillisToSeconds | herald/src/main/java/com/idcta/proj/sensor/ble/BLEDevice.java:397-405 | Java `long` division by 1000: truncates toward zero for both signs, so the result is bracketed by the milliseconds from below for non-negative input and from above for non-positive input |
| Datatypes.IntervalSince | herald/src/main/java/com/idcta/proj/sensor/ble/BLEDevice.java:94-99 | `never` exactly when the timestamp is null; otherwise the elapsed whole seconds, bracketing the elapsed milliseconds |
| BLE.Delegate.constructor | herald/src/main/java/com/idcta/proj/sensor/ble/BLEDeviceDelegate.java:7-9 | `BLEDeviceDelegate` as the log of the `device(this, attribute)` calls it receives, oldest first. It starts empty; only the five notifying setters append to it (BLEDevice.java:185, 212, 235, 260, 279) |
| BLE.RoundTimesOnePointTwo | herald/src/main/java/com/idcta/proj/sensor/ble/BLEDevice.java:199 | `Math.round(v * 1.2)` in integers: the result is the integer nearest to 1.2 v, halves rounded up |
| BLE.NextIgnoreDuration | herald/src/main/java/com/idcta/proj/sensor/ble/BLEDevice.java:195-200 | A null duration becomes 60 s. The duration never shrinks. It is held once at or above 180 s. Starting within [60, 215] s it stays within it |
| BLE.IgnoreDurationsNonDecreasing | herald/src/main/java/com/idcta/proj/sensor/ble/BLEDevice.java:195-201 | Over consecutive `ignore` settings the duration is non-decreasing and bounded by [60 s, 215 s] |
| BLE.IgnoreDurationSchedule | herald/src/main/java/com/idcta/proj/sensor/ble/BLEDevice.java:195-201 | The first eight durations are 60, 72, 86, 103, 124, 149, 179 and 215 s |
| BLE.IgnoreDurationSaturates | herald/src/main/java/com/idcta/proj/sensor/ble/BLEDevice.java:195-201 | From the eighth `ignore` on, the duration stays at 215 s, one step past the 3-minute check |
| BLE.BLEDevice.constructor | herald/src/main/java/com/idcta/proj/sensor/ble/BLEDevice.java:112-117 | A new device has `lastUpdatedAt == createdAt == now`, is disconnected with an unknown operating system, and has every optional field null and the sharing list empty |
| BLE.BLEDevice.Clone | herald/src/main/java/com/idcta/proj/sensor/ble/BLEDevice.java:120-151 | Keeps `createdAt` and copies every field; stamps `lastUpdatedAt` with now; binds the identifier derived from the new radio device; does not copy the peripheral or the immediate-send data; shares the delegate and the write queue |
| BLE.BLEDevice.TimeIntervalSinceConnected | herald/src/main/java/com/idcta/proj/sensor/ble/BLEDevice.java:82-90 | Zero unless connected; when connected, the whole seconds since the connection time |
| BLE.BLEDevice.TimeIntervalSinceLastUpdate | herald/src/main/java/com/idcta/proj/sensor/ble/BLEDevice.java:94-99 | `never` exactly when `lastUpdatedAt` is null; otherwise, for a `now` not before it, the elapsed whole seconds, bracketing the elapsed milliseconds; zero right after an update |
| BLE.BLEDevice.TimeIntervalSinceLastPayloadDataUpdate | herald/src/main/java/com/idcta/proj/sensor/ble/BLEDevice.java:238-243 | `never` exactly when no payload was set; otherwise the elapsed whole seconds since it, bracketing the elapsed milliseconds; zero right after one |
| BLE.BLEDevice.TimeIntervalSinceLastWritePayload | herald/src/main/java/com/idcta/proj/sensor/ble/BLEDevice.java:366-371 | `never` exactly when no payload write was registered; otherwise the elapsed whole seconds since it, bracketing the elapsed milliseconds; zero right after one |
| BLE.BLEDevice.TimeIntervalSinceLastWriteRssi | herald/src/main/java/com/idcta/proj/sensor/ble/BLEDevice.java:378-383 | `never` exactly when no RSSI write was registered; otherwise the elapsed whole seconds since it, bracketing the elapsed milliseconds; zero right after one |
| BLE.BLEDevice.TimeIntervalSinceLastWritePayloadSharing | herald/src/main/java/com/idcta/proj/sensor/ble/BLEDevice.java:390-395 | `never` exactly when no payload-sharing write was registered; otherwise the elapsed whole seconds since it, bracketing the elapsed milliseconds; zero right after one |
| BLE.BLEDevice.ShouldIgnore | herald/src/main/java/com/idcta/proj/sensor/ble/BLEDevice.java:217-225 | True exactly when an ignore window is open and `now` is strictly before its end. On a valid device, true only when the operating system is `ignore` |
| BLE.BLEDevice.TimeIntervalUntilIgnoreExpires | herald/src/main/java/com/idcta/proj/sensor/ble/BLEDevice.java:397-405 | Zero without a window. `never` exactly at `Long.MAX_VALUE`. Otherwise the remaining milliseconds truncated toward zero to whole seconds: while ignored, the non-negative seconds left; once the window is over, the non-positive seconds with `r * 1000 - 1000 < ignoreUntil - now <= r * 1000`, so zero for up to a second and negative after |
| BLE.BLEDevice.CurrentCalibration | herald/src/main/java/com/idcta/proj/sensor/ble/BLEDevice.java:282-287 | Present exactly when the transmit power is, in `BLETransmitPower` units with its value |
| BLE.BLEDevice.SupportsModelCharacteristic | herald/src/main/java/com/idcta/proj/sensor/ble/BLEDevice.java:324 | `supportsModelCharacteristic()`: true exactly when a model characteristic handle is cached |
| BLE.BLEDevice.SupportsDeviceNameCharacteristic | herald/src/main/java/com/idcta/proj/sensor/ble/BLEDevice.java:333 | `supportsDeviceNameCharacteristic()`: true exactly when a device-name characteristic handle is cached |
| BLE.BLEDevice.SetPseudoDeviceAddress | herald/src/main/java/com/idcta/proj/sensor/ble/BLEDevice.java:157-162 | Stores the address. Refreshes `lastUpdatedAt` unless the same non-null address is set again. Never notifies |
| BLE.BLEDevice.SetPeripheral | herald/src/main/java/com/idcta/proj/sensor/ble/BLEDevice.java:168-173 | Stores the handle; refreshes `lastUpdatedAt` only when it changes; never notifies |
| BLE.BLEDevice.SetState | herald/src/main/java/com/idcta/proj/sensor/ble/BLEDevice.java:179-186 | Always stamps `lastUpdatedAt` and sends exactly one `state` notification. `lastConnectedAt` becomes `lastUpdatedAt` iff the new state is connected, and is unchanged otherwise. Keeps the device invariant |
| BLE.BLEDevice.SetOperatingSystem | herald/src/main/java/com/idcta/proj/sensor/ble/BLEDevice.java:192-214 | Always stamps `lastUpdatedAt`. `ignore` grows the duration by the backoff rule and opens a window of that length from now. `ios`/`android` clear both the duration and the window. `unknown` clears only the window. Notifies only when the operating system changes. Keeps the device invariant |
| BLE.BLEDevice.SetPayloadData | herald/src/main/java/com/idcta/proj/sensor/ble/BLEDevice.java:231-236 | Stores the payload, stamps both the payload update time and `lastUpdatedAt` with it, and sends one `payloadData` notification |
| BLE.BLEDevice.SetImmediateSendData | herald/src/main/java/com/idcta/proj/sensor/ble/BLEDevice.java:245-247 | Stores the data; touches no timestamp and sends no notification |
| BLE.BLEDevice.SetRssi | herald/src/main/java/com/idcta/proj/sensor/ble/BLEDevice.java:257-261 | Stores the RSSI, stamps `lastUpdatedAt`, sends one `rssi` notification |
| BLE.BLEDevice.SetLegacyPayloadCharacteristic | herald/src/main/java/com/idcta/proj/sensor/ble/BLEDevice.java:263-266 | Stores the handle and stamps the payload update time, not `lastUpdatedAt` |
| BLE.BLEDevice.SetTxPower | herald/src/main/java/com/idcta/proj/sensor/ble/BLEDevice.java:276-280 | Stores the power, stamps `lastUpdatedAt`, sends one `txPower` notification; the calibration is then present iff the power is |
| BLE.BLEDevice.SetReceiveOnly | herald/src/main/java/com/idcta/proj/sensor/ble/BLEDevice.java:293-296 | Stores the flag and stamps `lastUpdatedAt` |
| BLE.BLEDevice.InvalidateCharacteristics | herald/src/main/java/com/idcta/proj/sensor/ble/BLEDevice.java:298-304 | Nulls all five characteristic handles; no timestamp changes; afterwards neither model nor device name is supported |
| BLE.BLEDevice.SetSignalCharacteristic | herald/src/main/java/com/idcta/proj/sensor/ble/BLEDevice.java:310-313 | Stores the handle and stamps `lastUpdatedAt` |
| BLE.BLEDevice.SetPayloadCharacteristic | herald/src/main/java/com/idcta/proj/sensor/ble/BLEDevice.java:319-322 | Stores the handle and stamps `lastUpdatedAt` |
| BLE.BLEDevice.SetModelCharacteristic | herald/src/main/java/com/idcta/proj/sensor/ble/BLEDevice.java:324-331 | Stores the handle and stamps `lastUpdatedAt`; the model characteristic is then supported iff the handle is non-null |
| BLE.BLEDevice.SetDeviceNameCharacteristic | herald/src/main/java/com/idcta/proj/sensor/ble/BLEDevice.java:333-340 | Stores the handle and stamps `lastUpdatedAt`; the device-name characteristic is then supported iff the handle is non-null |
| BLE.BLEDevice.SetDeviceName | herald/src/main/java/com/idcta/proj/sensor/ble/BLEDevice.java:344-347 | Stores the name and stamps `lastUpdatedAt` |
| BLE.BLEDevice.SetModel | herald/src/main/java/com/idcta/proj/sensor/ble/BLEDevice.java:351-354 | Stores the model and stamps `lastUpdatedAt` |
| BLE.BLEDevice.RegisterDiscovery | herald/src/main/java/com/idcta/proj/sensor/ble/BLEDevice.java:356-359 | The discovery time and `lastUpdatedAt` are both now |
| BLE.BLEDevice.RegisterWritePayload | herald/src/main/java/com/idcta/proj/sensor/ble/BLEDevice.java:361-364 | The write time and `lastUpdatedAt` are both now, so the interval since the write is zero |
| BLE.BLEDevice.RegisterWriteRssi | herald/src/main/java/com/idcta/proj/sensor/ble/BLEDevice.java:373-376 | The write time and `lastUpdatedAt` are both now, so the interval since the write is zero |
| BLE.BLEDevice.RegisterWritePayloadSharing | herald/src/main/java/com/idcta/proj/sensor/ble/BLEDevice.java:385-388 | The write time and `lastUpdatedAt` are both now, so the interval since the write is zero |
| BLE.BLEDevice.SetScanRecord | herald/src/main/java/com/idcta/proj/sensor/ble/BLEDevice.java:407-409 | Stores the record; touches no timestamp and sends no notification |
| DisplayOrder.LexLess | app/src/main/java/com/vmware/herald/app/Contactlogs.java:173 | `String.compareTo(...) < 0`: at the first differing position the first string has the smaller character, or it is a proper prefix of the second |
| DisplayOrder.LexLessIrreflexive | app/src/main/java/com/vmware/herald/app/Contactlogs.java:170-175 | No short name sorts before itself |
| DisplayOrder.LexLessTransitive | app/src/main/java/com/vmware/herald/app/Contactlogs.java:170-175 | The string order used by the comparator is transitive |
| DisplayOrder.LexLessTotal | app/src/main/java/com/vmware/herald/app/Contactlogs.java:170-175 | Two distinct short names are always ordered one way or the other |
| DisplayOrder.LexLessAsymmetric | app/src/main/java/com/vmware/herald/app/Contactlogs.java:170-175 | Of two short names, at most one sorts before the other |
| DisplayOrder.Insert | app/src/main/java/com/vmware/herald/app/Contactlogs.java:170-175 | One insertion step of the sort: the element goes before the first entry whose key is not smaller; the list grows by exactly one |
| DisplayOrder.SortByKey | app/src/main/java/com/vmware/herald/app/Contactlogs.java:170-175 | `Collections.sort` by key, as an insertion sort: keeps the length; a permutation of its input, strictly ascending when the keys are distinct (the two lemmas below) |
| DisplayOrder.InsertPermutes | app/src/main/java/com/vmware/herald/app/Contactlogs.java:170-175 | Inserting into the sorted list adds exactly that element |
| DisplayOrder.InsertAscending | app/src/main/java/com/vmware/herald/app/Contactlogs.java:170-175 | Inserting a new key into a strictly ascending list keeps it strictly ascending |
| DisplayOrder.SortByKeyPermutes | app/src/main/java/com/vmware/herald/app/Contactlogs.java:170-175 | The sort is a permutation of its input |
| DisplayOrder.SortByKeyAscending | app/src/main/java/com/vmware/herald/app/Contactlogs.java:169-175 | With distinct keys, the sorted list is strictly ascending by key and a permutation of the input |
| DisplayOrder.AscendingUnique | app/src/main/java/com/vmware/herald/app/Contactlogs.java:169-175 | Two strictly ascending lists with the same elements are equal, so the sorted output is determined by its elements |
| Contactlogs.NewTarget | app/src/main/java/com/vmware/herald/app/Contactlogs.java:283 | `new Target(fromTarget, didRead)`: a target of that identifier and payload, stamped now, with no proximity and nothing received |
| Contactlogs.RecordRead | app/src/main/java/com/vmware/herald/app/Contactlogs.java:276-284 | A read keeps the registries well formed: one target per payload, filed under its own payload, and every identifier resolving to a target |
| Contactlogs.ReadAddsAtMostOneTarget | app/src/main/java/com/vmware/herald/app/Contactlogs.java:276-284 | After a read, the identifier maps to the payload. An existing target only gets its recency refreshed and no entry is added. Otherwise exactly one new target `Target(id, p)` stamped now is added, under that payload. Other targets are untouched |
| Contactlogs.RecordShare | app/src/main/java/com/vmware/herald/app/Contactlogs.java:298-309 | A share, as a read of each listed payload in order, keeps the registries well formed |
| Contactlogs.ShareBindsLast | app/src/main/java/com/vmware/herald/app/Contactlogs.java:298-309 | After a share the identifier maps to the last listed payload and no other identifier changes; an empty list changes nothing |
| Contactlogs.ShareTargetKeys | app/src/main/java/com/vmware/herald/app/Contactlogs.java:298-309 | After a share, the payloads with targets are the old ones plus the listed ones |
| Contactlogs.ShareKeepsOldTargets | app/src/main/java/com/vmware/herald/app/Contactlogs.java:298-309 | A share changes an existing target at most in its recency, and not at all when its payload is not listed |
| Contactlogs.ShareNewTargets | app/src/main/java/com/vmware/herald/app/Contactlogs.java:298-309 | Every target a share creates is a fresh target of the sharing identifier |
| Contactlogs.RecordMeasure | app/src/main/java/com/vmware/herald/app/Contactlogs.java:323-332 | A measurement keeps the registries well formed, never changes the identifier map, and never adds or removes a target |
| Contactlogs.MeasureDropsUnresolved | app/src/main/java/com/vmware/herald/app/Contactlogs.java:325-326 | A measurement from an identifier with no mapping changes neither map |
| Contactlogs.MeasureUpdatesResolvedTarget | app/src/main/java/com/vmware/herald/app/Contactlogs.java:325-331 | In well-formed registries a mapped identifier always reaches a target; exactly that target's identifier and proximity change |
| Contactlogs.RecordReceive | app/src/main/java/com/vmware/herald/app/Contactlogs.java:347-357 | A receive keeps the registries well formed and never creates or removes a target |
| Contactlogs.ReceiveUpdatesKnownTarget | app/src/main/java/com/vmware/herald/app/Contactlogs.java:349-356 | For received data matching a known payload, the identifier maps to that payload, and exactly that target takes the identifier and records the received data; every other entry is untouched |
| Contactlogs.ReceiveDropsUnknownPayload | app/src/main/java/com/vmware/herald/app/Contactlogs.java:349-352 | Received data that matches no known payload changes neither map |
| Contactlogs.RepeatedReadScenario | app/src/main/java/com/vmware/herald/app/Contactlogs.java:276-284 | Reading the same payload twice from one identifier leaves one target, with the later time |
| Contactlogs.RotatedIdentifierScenario | app/src/main/java/com/vmware/herald/app/Contactlogs.java:276-332 | After the identifier rotates, re-reading the payload keeps one target that both identifiers resolve to. Its identifier stays the old one until a measurement from the new one |
| Contactlogs.Representatives | app/src/main/java/com/vmware/herald/app/Contactlogs.java:159-167 | The `shortNames` map the loop builds, visiting the payloads in `order`: a target replaces the kept one for its short name only when strictly more recent |
| Contactlogs.DisplayKey | app/src/main/java/com/vmware/herald/app/Contactlogs.java:173 | The comparator's key `t.payloadData().shortName()`: a target is sorted by the short name of its payload |
| Contactlogs.RepresentativesKeys | app/src/main/java/com/vmware/herald/app/Contactlogs.java:159-167 | The short-name map has exactly one entry per short name of a visited payload |
| Contactlogs.RepresentativesMostRecent | app/src/main/java/com/vmware/herald/app/Contactlogs.java:163-166 | Each kept target is at least as recent as every payload with its short name |
| Contactlogs.RepresentativesFirstMet | app/src/main/java/com/vmware/herald/app/Contactlogs.java:160-166 | Each kept target is the first one met in visiting order among the most recent of its group, because replacement needs strictly greater recency |
| Contactlogs.RepresentativesStored | app/src/main/java/com/vmware/herald/app/Contactlogs.java:159-167 | In well-formed registries each kept target is the stored target of a payload carrying that short name |
| Contactlogs.ListedRepresentatives | app/src/main/java/com/vmware/herald/app/Contactlogs.java:157-175 | A list of exactly the kept targets covers the short names of all payloads. Each entry is a stored target, the most recent of its short-name group |
| Contactlogs.TargetListDetermined | app/src/main/java/com/vmware/herald/app/Contactlogs.java:157-175 | The target list is determined by the registries and the visiting order, so recomputing it gives the same list |
| Contactlogs.ValuesOf | app/src/main/java/com/vmware/herald/app/Contactlogs.java:169 | Lists each value of the short-name map once, so no short name is listed twice |
| Contactlogs.Contactlogs.constructor | app/src/main/java/com/vmware/herald/app/Contactlogs.java:63-67 | All counters start at zero and both registries empty |
| Contactlogs.Contactlogs.SensorDidDetect | app/src/main/java/com/vmware/herald/app/Contactlogs.java:262-263 | Increments the detect counter by exactly one and changes nothing else |
| Contactlogs.Contactlogs.SensorDidRead | app/src/main/java/com/vmware/herald/app/Contactlogs.java:276-284 | Increments the read counter by exactly one. The registries become `RecordRead` of the old ones and stay well formed |
| Contactlogs.Contactlogs.SensorDidShare | app/src/main/java/com/vmware/herald/app/Contactlogs.java:298-309 | The loop leaves the registries equal to `RecordShare` of the old ones, well formed. No counter changes |
| Contactlogs.Contactlogs.SensorDidMeasure | app/src/main/java/com/vmware/herald/app/Contactlogs.java:323-332 | Increments the measure counter by exactly one. The registries become `RecordMeasure` of the old ones and stay well formed |
| Contactlogs.Contactlogs.SensorDidReceive | app/src/main/java/com/vmware/herald/app/Contactlogs.java:347-357 | Increments the receive counter by exactly one. The registries become `RecordReceive` of the old ones and stay well formed |
| Contactlogs.Contactlogs.UpdateTargets | app/src/main/java/com/vmware/herald/app/Contactlogs.java:157-175 | Changes no state. Returns exactly the kept targets of the short-name map, strictly ascending by short name. Covers the short names of all payloads, one stored target each, the most recent of its group |
| SonarPayload.Unsigned32 | herald/src/main/java/com/idcta/proj/sensor/payload/sonar/SonarPayloadDataSupplier.java:23-26 | The 32-bit pattern of an `int`, as a number in [0, 2^32) congruent to it |
| SonarPayload.BigEndian | herald/src/main/java/com/idcta/proj/sensor/payload/sonar/SonarPayloadDataSupplier.java:24-25 | `putInt(0, x)` on a four-byte buffer: the four bytes of the two's-complement pattern of `x`, most significant first |
| SonarPayload.BigEndianRoundTrip | herald/src/main/java/com/idcta/proj/sensor/payload/sonar/SonarPayloadDataSupplier.java:23-26 | Decoding the four network-order bytes gives the identifier back |
| SonarPayload.BigEndianOnto | herald/src/main/java/com/idcta/proj/sensor/payload/sonar/SonarPayloadDataSupplier.java:23-26 | Every four bytes encode the identifier they decode to |
| SonarPayload.BigEndianInjective | herald/src/main/java/com/idcta/proj/sensor/payload/sonar/SonarPayloadDataSupplier.java:23-26 | Distinct identifiers have distinct encodings |
| SonarPayload.SonarFrame | herald/src/main/java/com/idcta/proj/sensor/payload/sonar/SonarPayloadDataSupplier.java:30-36 | The frame `payload` returns: three zero bytes, the big-endian identifier, zeros up to 129 bytes |
| SonarPayload.SonarFrameLayout | herald/src/main/java/com/idcta/proj/sensor/payload/sonar/SonarPayloadDataSupplier.java:16-35 | The frame has 129 bytes: zeros at 0-2, the big-endian identifier at 3-6, zeros at 7-128 |
| SonarPayload.SonarFrameRoundTrip | herald/src/main/java/com/idcta/proj/sensor/payload/sonar/SonarPayloadDataSupplier.java:30-36 | The identifier decodes back from bytes 3-6 of its frame |
| SonarPayload.SonarFrameInjective | herald/src/main/java/com/idcta/proj/sensor/payload/sonar/SonarPayloadDataSupplier.java:30-36 | Suppliers with distinct identifiers produce distinct frames |
| SonarPayload.BigEndianExamples | herald/src/main/java/com/idcta/proj/sensor/payload/sonar/SonarPayloadDataSupplier.java:23-26 | Network order of 1, 256, -1 and `Integer.MIN_VALUE` |
| SonarPayload.SonarPayloadDataSupplier.constructor | herald/src/main/java/com/idcta/proj/sensor/payload/sonar/SonarPayloadDataSupplier.java:19-21 | Stores the identifier |
| SonarPayload.SonarPayloadDataSupplier.NetworkByteOrderData | herald/src/main/java/com/idcta/proj/sensor/payload/sonar/SonarPayloadDataSupplier.java:23-27 | The four bytes written are the identifier's big-endian encoding, and they decode back to it |
| SonarPayload.SonarPayloadDataSupplier.Payload | herald/src/main/java/com/idcta/proj/sensor/payload/sonar/SonarPayloadDataSupplier.java:30-36 | The buffer written is `SonarFrame(identifier)`: 129 bytes, zeros at 0-2, the identifier decodable from 3-6, zeros at 7-128. The result does not depend on the timestamp |

## Left out

- User interface and lifecycle of the activity: the Android callbacks, permission requests, list adapters and text views, `runOnUiThread`, and the thread started on item click. They are I/O.
- `updateSocialDistance`: it calls an external scorer and computes in floating point.
- Concurrency: `ConcurrentHashMap` and the `synchronized` on `updateTargets`. Everything is modelled sequentially.
- `description()` and `toString()`: string formatting only.
- Clocks: `new Date()` becomes the parameter `now`. `Contactlogs.Contactlogs.SensorDidShare` uses one `now` for the whole list, where the original reads the clock once per payload.
- `Proximity` and `Calibration` values are integers, not doubles.
- Platform handles (`BluetoothDevice`, `BluetoothGattCharacteristic`, `ScanRecord`) are values, not objects.
- BLE.BLEDevice.SetPeripheral: compares handles by value, where the original compares references.
- Integer widths: the `long` event counters and millisecond timestamps are unbounded, so overflow past `Long.MAX_VALUE` is not modelled. The SONAR identifier is a Java `int`, kept in range by the `Int32` subset type.
- DisplayOrder.LexLess: compares characters as Unicode scalar values, where `String.compareTo` compares UTF-16 code units; the two orders differ only outside the Basic Multilingual Plane.
- `Collections.sort` as a library routine: it is modelled by an insertion sort. All keys are distinct here, so any correct sort gives the same list (`DisplayOrder.AscendingUnique`).
- The `didRead != null` test in the receive handler: it is always true, so no branch models it.
- Contactlogs.Contactlogs.UpdateTargets: returns the targets as values, a snapshot. In the original the list handed to the adapter holds references to the live `Target` objects, so later handlers' in-place updates (Contactlogs.java:281, 305, 329-330, 354-355) show through it. Inside the two registries nothing is lost, because each `Target` is referenced by exactly one `payloads` entry.
- The `HashMap` iteration order is not derived. It is a parameter that lists every payload.
- The clone's copy of `payloadSharingData` is a value copy. Aliasing is ruled out by the value semantics of `seq`, not stated as a separate property.
- Float16, ForegroundService, Location, PlacenameLocationReference and ContactKey are not part of this model.
