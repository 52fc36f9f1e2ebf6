/**
 * Values of the camera SDK that the pipeline passes around: results with a
 * code and a description (`PvResult`) and acquired buffers (`PvBuffer`).
 */
module Pv {
  import opened Util

  /** Result codes the pipeline tests for; every other SDK code keeps its code string. */
  datatype ResultCode =
    | OK
    | GenericError
    | Aborted
    | Timeout
    | ThreadError
    | Pending
    | OtherError(codeString: string)

  datatype PvResult = PvResult(code: ResultCode, description: string) {
    predicate IsOK() { code.OK? }
    /** `QueueBuffer` success: OK, or a buffer accepted but not yet filled. */
    predicate IsSuccess() { code.OK? || code.Pending? }
  }

  /** `PvResult(PvResult::Code::OK)`. */
  const RESULT_OK := PvResult(OK, "")

  /** The SDK's `GetCodeString()`. */
  function CodeString(c: ResultCode): (s: string)
    ensures c.OtherError? ==> s == c.codeString
  {
    match c
    case OK => "OK"
    case GenericError => "GENERIC_ERROR"
    case Aborted => "ABORTED"
    case Timeout => "TIMEOUT"
    case ThreadError => "THREAD_ERROR"
    case Pending => "PENDING"
    case OtherError(s) => s
  }

  datatype PayloadType = PayloadImage | PayloadOther

  /**
   * An acquired buffer with its image: pixel bytes, geometry, bit depth and the
   * camera timestamp. The image size in bytes is `|data|`.
   */
  datatype Frame = Frame(
    data: seq<byte>,
    width: nat,
    height: nat,
    bitsPerPixel: nat,
    timestamp: nat,
    payloadType: PayloadType)
  {
    function ImageSize(): nat { |data| }
  }

  /** `PvBuffer::Free()`: the payload is released, the header stays. */
  function Freed(f: Frame): (g: Frame)
    ensures g.data == [] && g.(data := f.data) == f
  {
    f.(data := [])
  }

  /** The payload holds every pixel the header announces. */
  predicate Covers(f: Frame) {
    f.width * f.height * f.bitsPerPixel <= |f.data| * 8
  }

  /** Unsigned 16-bit pixels (`uint16_t`), little-endian. */
  function Words(data: seq<byte>): (w: seq<int>)
    ensures |w| == |data| / 2
    ensures forall i :: 0 <= i < |w| ==> 0 <= w[i] < 0x1_0000
  {
    seq(|data| / 2, i requires 0 <= i < |data| / 2 => data[2 * i] as int + 256 * (data[2 * i + 1] as int))
  }

  /** Unsigned 8-bit pixels (`uint8_t`). */
  function Bytes(data: seq<byte>): (b: seq<int>)
    ensures |b| == |data| && forall i :: 0 <= i < |b| ==> b[i] == data[i] as int
  {
    seq(|data|, i requires 0 <= i < |data| => data[i] as int)
  }

  /**
   * The image data read as unsigned 8-bit (`uint8_t`) or 16-bit (`uint16_t`)
   * elements; a copy into `char` or `short` elements keeps the same bits.
   */
  function Elements(data: seq<byte>, bits: nat): (e: seq<int>)
    requires bits == 8 || bits == 16
    ensures |e| == |data| * 8 / bits
  {
    if bits == 8 then Bytes(data) else Words(data)
  }
}
