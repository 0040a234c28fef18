/**
 * Value types shared by the peer-device model, identity resolution and
 * payload framing: opaque identifiers, payload byte blobs, Java integer
 * ranges and whole-second time intervals.
 *
 * Timestamps (Java `Date`) are milliseconds since the epoch, as `int`.
 */
module Datatypes {

  datatype Option<T> = None | Some(value: T)

  /** One octet. Java's signed `byte` carries the same bit pattern. */
  newtype byte = b: int | 0 <= b < 256

  /** The range of a Java `int`. */
  type Int32 = x: int | -0x8000_0000 <= x < 0x8000_0000

  /** `Long.MAX_VALUE` */
  const LONG_MAX: int := 0x7fff_ffff_ffff_ffff

  /** Raw bytes (`Data`). */
  datatype Data = Data(value: seq<byte>)

  /** Application-level payload identity; two payloads are equal when their bytes are. */
  datatype PayloadData = PayloadData(value: seq<byte>)

  /** Ephemeral, connection-scoped peer identifier (derived from the radio address). */
  datatype TargetIdentifier = TargetIdentifier(value: string)

  /** `TimeInterval`: a whole number of seconds, or the "never" sentinel. */
  datatype TimeInterval = Seconds(value: int) | Never

  /** `TimeInterval.minute`, in seconds. */
  const MINUTE: int := 60

  /**
   * Java's `long` division by 1000, which truncates toward zero (Dafny's `/`
   * is Euclidean and floors negative dividends instead).
   */
  function MillisToSeconds(ms: int): (s: int)
    ensures ms >= 0 ==> 0 <= s && s * 1000 <= ms < s * 1000 + 1000
    ensures ms <= 0 ==> s <= 0 && s * 1000 - 1000 < ms <= s * 1000
  {
    if ms >= 0 then ms / 1000 else -((-ms) / 1000)
  }

  /**
   * `new TimeInterval((now.getTime() - since.getTime()) / 1000)`, or `never`
   * when the timestamp is null.
   */
  function IntervalSince(since: Option<int>, now: int): (r: TimeInterval)
    ensures r.Never? <==> since.None?
    ensures since.Some? && since.value <= now ==>
              0 <= r.value && r.value * 1000 <= now - since.value < r.value * 1000 + 1000
  {
    if since.None? then Never else Seconds(MillisToSeconds(now - since.value))
  }
}
