/** The 32-byte big-endian telemetry frame.

    A record's value is its 64-bit pattern in the binary64 interchange format (section 3.4 of
    IEEE Std 754-2019): the codec moves the bits and never computes with them. */
module Codec {
  type Byte = bv8

  const MAGIC: bv32 := 0x544C5259    // "TLRY"
  const VERSION: bv16 := 1
  const FRAME_SIZE: nat := 32
  const FRAME_SIZE_FIELD: bv16 := 32

  type Frame = f: seq<Byte> | |f| == FRAME_SIZE witness seq(FRAME_SIZE, _ => 0)

  datatype TelemetryRecord = TelemetryRecord(sensorId: bv32, metricId: bv32, timestampNs: bv64, valueBits: bv64)

  datatype DecodeError = InvalidSize | InvalidMagic | UnsupportedVersion | InvalidDeclaredFrameSize

  datatype DecodeResult = Decoded(record: TelemetryRecord) | Rejected(error: DecodeError)

  // ------------------------------------------------------------ big-endian fields

  function Bytes16(v: bv16): (b: seq<Byte>)
    ensures |b| == 2
  {
    [((v >> 8) & 0xFF) as Byte, (v & 0xFF) as Byte]
  }

  function Bytes32(v: bv32): (b: seq<Byte>)
    ensures |b| == 4
  {
    [((v >> 24) & 0xFF) as Byte, ((v >> 16) & 0xFF) as Byte, ((v >> 8) & 0xFF) as Byte, (v & 0xFF) as Byte]
  }

  /** `v` without its low `8 * (7 - index)` bits. */
  function Shifted64(v: bv64, index: nat): bv64
    requires index < 8
  {
    match index
    case 0 => v >> 56
    case 1 => v >> 48
    case 2 => v >> 40
    case 3 => v >> 32
    case 4 => v >> 24
    case 5 => v >> 16
    case 6 => v >> 8
    case _ => v
  }

  /** Byte `index` of a 64-bit field, most significant first. */
  function Byte64(v: bv64, index: nat): Byte
    requires index < 8
  {
    (Shifted64(v, index) & 0xFF) as Byte
  }

  function Bytes64(v: bv64): (b: seq<Byte>)
    ensures |b| == 8
  {
    [Byte64(v, 0), Byte64(v, 1), Byte64(v, 2), Byte64(v, 3), Byte64(v, 4), Byte64(v, 5), Byte64(v, 6), Byte64(v, 7)]
  }

  function U16(b0: Byte, b1: Byte): bv16 {
    ((b0 as bv16) << 8) | (b1 as bv16)
  }

  function U32(b0: Byte, b1: Byte, b2: Byte, b3: Byte): bv32 {
    ((b0 as bv32) << 24) | ((b1 as bv32) << 16) | ((b2 as bv32) << 8) | (b3 as bv32)
  }

  function Shift(high: bv64, low: Byte): bv64 { (high << 8) | (low as bv64) }

  /** The number whose bytes are `bytes`, shifted in from the most significant. */
  function U64(bytes: seq<Byte>): bv64 {
    if bytes == [] then 0 else Shift(U64(bytes[..|bytes| - 1]), bytes[|bytes| - 1])
  }

  lemma Roundtrip16(v: bv16)
    ensures U16(Bytes16(v)[0], Bytes16(v)[1]) == v
  {}

  lemma Unique16(b0: Byte, b1: Byte)
    ensures Bytes16(U16(b0, b1)) == [b0, b1]
  {}

  lemma Roundtrip32(v: bv32)
    ensures var b := Bytes32(v); U32(b[0], b[1], b[2], b[3]) == v
  {}

  lemma Unique32(b0: Byte, b1: Byte, b2: Byte, b3: Byte)
    ensures Bytes32(U32(b0, b1, b2, b3)) == [b0, b1, b2, b3]
  {}

  lemma Roundtrip64(v: bv64)
    ensures U64(Bytes64(v)) == v
  {
    U64Unrolled(Bytes64(v));
  }

  lemma Unique64(b: seq<Byte>)
    requires |b| == 8
    ensures Bytes64(U64(b)) == b
  {
    U64Unrolled(b);
    FlatUnique64(b[0], b[1], b[2], b[3], b[4], b[5], b[6], b[7]);
  }

  function U64Flat(b0: Byte, b1: Byte, b2: Byte, b3: Byte, b4: Byte, b5: Byte, b6: Byte, b7: Byte): bv64 {
    ((b0 as bv64) << 56) | ((b1 as bv64) << 48) | ((b2 as bv64) << 40) | ((b3 as bv64) << 32)
    | ((b4 as bv64) << 24) | ((b5 as bv64) << 16) | ((b6 as bv64) << 8) | (b7 as bv64)
  }

  lemma FlatUnique64(b0: Byte, b1: Byte, b2: Byte, b3: Byte, b4: Byte, b5: Byte, b6: Byte, b7: Byte)
    ensures Bytes64(U64Flat(b0, b1, b2, b3, b4, b5, b6, b7)) == [b0, b1, b2, b3, b4, b5, b6, b7]
  {}

  lemma ShiftsAreFlat(b0: Byte, b1: Byte, b2: Byte, b3: Byte, b4: Byte, b5: Byte, b6: Byte, b7: Byte)
    ensures Shift(Shift(Shift(Shift(Shift(Shift(Shift(Shift(0, b0), b1), b2), b3), b4), b5), b6), b7)
         == U64Flat(b0, b1, b2, b3, b4, b5, b6, b7)
  {}

  lemma U64Unrolled(b: seq<Byte>)
    requires |b| == 8
    ensures U64(b) == U64Flat(b[0], b[1], b[2], b[3], b[4], b[5], b[6], b[7])
  {
    hide U64, Shift, U64Flat;
    assert b[..8] == b;
    U64Snoc(b, 7); U64Snoc(b, 6); U64Snoc(b, 5); U64Snoc(b, 4);
    U64Snoc(b, 3); U64Snoc(b, 2); U64Snoc(b, 1); U64Snoc(b, 0);
    ShiftsAreFlat(b[0], b[1], b[2], b[3], b[4], b[5], b[6], b[7]);
  }

  lemma U64Snoc(b: seq<Byte>, n: nat)
    requires n < |b|
    ensures U64(b[..n + 1]) == Shift(U64(b[..n]), b[n])
    ensures U64(b[..0]) == 0
  {
    hide Shift;
    assert b[..n + 1][..n] == b[..n];
  }

  // ------------------------------------------------------------------- frames

  /** The wire frame of a record. */
  function Encoded(r: TelemetryRecord): Frame {
    Bytes32(MAGIC) + Bytes16(VERSION) + Bytes16(FRAME_SIZE_FIELD) + Bytes32(r.sensorId) + Bytes32(r.metricId)
    + Bytes64(r.timestampNs) + Bytes64(r.valueBits)
  }

  /** What decoding a span of bytes answers, the checks in order: size, magic, version, declared size. */
  function Decode(f: seq<Byte>): DecodeResult {
    if |f| != FRAME_SIZE then Rejected(InvalidSize)
    else if U32(f[0], f[1], f[2], f[3]) != MAGIC then Rejected(InvalidMagic)
    else if U16(f[4], f[5]) != VERSION then Rejected(UnsupportedVersion)
    else if U16(f[6], f[7]) != FRAME_SIZE_FIELD then Rejected(InvalidDeclaredFrameSize)
    else Decoded(TelemetryRecord(U32(f[8], f[9], f[10], f[11]), U32(f[12], f[13], f[14], f[15]),
                                 U64(f[16..24]), U64(f[24..32])))
  }

  predicate WellFormed(f: seq<Byte>) { Decode(f).Decoded? }

  /** Decoding an encoded record gives the record back, for every bit pattern of every field. */
  lemma DecodeEncoded(r: TelemetryRecord)
    ensures Decode(Encoded(r)) == Decoded(r)
  {
    var f := Encoded(r);
    assert f[16..24] == Bytes64(r.timestampNs);
    assert f[24..32] == Bytes64(r.valueBits);
    hide U64, U32, U16, Byte64;
    Roundtrip32(MAGIC); Roundtrip16(VERSION); Roundtrip16(FRAME_SIZE_FIELD);
    Roundtrip32(r.sensorId); Roundtrip32(r.metricId);
    Roundtrip64(r.timestampNs); Roundtrip64(r.valueBits);
  }

  /** The first check that fails decides the answer: size, magic, version, declared size. */
  lemma WhyRejected(f: seq<Byte>)
    ensures |f| != 32 ==> Decode(f) == Rejected(InvalidSize)
    ensures |f| == 32 && f[..4] != [0x54, 0x4C, 0x52, 0x59] ==> Decode(f) == Rejected(InvalidMagic)
    ensures |f| == 32 && f[..4] == [0x54, 0x4C, 0x52, 0x59] && f[4..6] != [0x00, 0x01] ==>
      Decode(f) == Rejected(UnsupportedVersion)
    ensures |f| == 32 && f[..4] == [0x54, 0x4C, 0x52, 0x59] && f[4..6] == [0x00, 0x01] && f[6..8] != [0x00, 0x20] ==>
      Decode(f) == Rejected(InvalidDeclaredFrameSize)
  {
    if |f| == 32 {
      assert f[..4] == [f[0], f[1], f[2], f[3]] && f[4..6] == [f[4], f[5]] && f[6..8] == [f[6], f[7]];
      MagicBytes(f[0], f[1], f[2], f[3]);
      assert U16(f[4], f[5]) == VERSION <==> f[4] == 0x00 && f[5] == 0x01;
      assert U16(f[6], f[7]) == FRAME_SIZE_FIELD <==> f[6] == 0x00 && f[7] == 0x20;
      hide U64, U32, U16;
    }
  }

  lemma MagicBytes(b0: Byte, b1: Byte, b2: Byte, b3: Byte)
    ensures U32(b0, b1, b2, b3) == MAGIC <==> b0 == 0x54 && b1 == 0x4C && b2 == 0x52 && b3 == 0x59
  {}

  /** Where the fields of an accepted frame are: sensor at 8, metric at 12, time at 16 and value at 24,
      each with its most significant byte first. */
  lemma FieldOffsets(f: seq<Byte>)
    requires WellFormed(f)
    ensures |f| == 32
    ensures var v := Decode(f).record.sensorId;
            f[8..12] == [
              ((v >> 24) & 0xFF) as Byte, ((v >> 16) & 0xFF) as Byte, ((v >> 8) & 0xFF) as Byte, (v & 0xFF) as Byte]
    ensures var v := Decode(f).record.metricId;
            f[12..16] == [
              ((v >> 24) & 0xFF) as Byte, ((v >> 16) & 0xFF) as Byte, ((v >> 8) & 0xFF) as Byte, (v & 0xFF) as Byte]
    ensures var v := Decode(f).record.timestampNs;
            f[16..24] == [
              ((v >> 56) & 0xFF) as Byte, ((v >> 48) & 0xFF) as Byte, ((v >> 40) & 0xFF) as Byte,
              ((v >> 32) & 0xFF) as Byte, ((v >> 24) & 0xFF) as Byte, ((v >> 16) & 0xFF) as Byte,
              ((v >> 8) & 0xFF) as Byte, (v & 0xFF) as Byte]
    ensures var v := Decode(f).record.valueBits;
            f[24..32] == [
              ((v >> 56) & 0xFF) as Byte, ((v >> 48) & 0xFF) as Byte, ((v >> 40) & 0xFF) as Byte,
              ((v >> 32) & 0xFF) as Byte, ((v >> 24) & 0xFF) as Byte, ((v >> 16) & 0xFF) as Byte,
              ((v >> 8) & 0xFF) as Byte, (v & 0xFF) as Byte]
  {
    var r := Decode(f).record;
    EncodeDecoded(f);
    hide *;
    FieldsOfEncoded(r);
    BytesOf32(r.sensorId);
    BytesOf32(r.metricId);
    BytesOf64(r.timestampNs);
    BytesOf64(r.valueBits);
  }

  lemma FieldsOfEncoded(r: TelemetryRecord)
    ensures var f := Encoded(r);
            && f[8..12] == Bytes32(r.sensorId) && f[12..16] == Bytes32(r.metricId)
            && f[16..24] == Bytes64(r.timestampNs) && f[24..32] == Bytes64(r.valueBits)
  {
    hide Bytes16, Bytes32, Bytes64;
  }

  lemma BytesOf32(v: bv32)
    ensures Bytes32(v) == [
      ((v >> 24) & 0xFF) as Byte, ((v >> 16) & 0xFF) as Byte, ((v >> 8) & 0xFF) as Byte, (v & 0xFF) as Byte]
  {}

  lemma BytesOf64(v: bv64)
    ensures Bytes64(v) == [
      ((v >> 56) & 0xFF) as Byte, ((v >> 48) & 0xFF) as Byte, ((v >> 40) & 0xFF) as Byte, ((v >> 32) & 0xFF) as Byte,
      ((v >> 24) & 0xFF) as Byte, ((v >> 16) & 0xFF) as Byte, ((v >> 8) & 0xFF) as Byte, (v & 0xFF) as Byte]
  {
    HighBytes(v);
    LowBytes(v);
    hide Byte64, Shifted64;
  }

  lemma HighBytes(v: bv64)
    ensures Byte64(v, 0) == ((v >> 56) & 0xFF) as Byte && Byte64(v, 1) == ((v >> 48) & 0xFF) as Byte
    ensures Byte64(v, 2) == ((v >> 40) & 0xFF) as Byte && Byte64(v, 3) == ((v >> 32) & 0xFF) as Byte
  {}

  lemma LowBytes(v: bv64)
    ensures Byte64(v, 4) == ((v >> 24) & 0xFF) as Byte && Byte64(v, 5) == ((v >> 16) & 0xFF) as Byte
    ensures Byte64(v, 6) == ((v >> 8) & 0xFF) as Byte && Byte64(v, 7) == (v & 0xFF) as Byte
  {}

  /** Encoding an accepted record gives the frame back, byte for byte: there is no second spelling. */
  lemma EncodeDecoded(f: seq<Byte>)
    requires WellFormed(f)
    ensures Encoded(Decode(f).record) == f
  {
    hide U64, U32, U16, Bytes16, Bytes32, Bytes64;
    Unique32(f[0], f[1], f[2], f[3]); Unique16(f[4], f[5]); Unique16(f[6], f[7]);
    Unique32(f[8], f[9], f[10], f[11]); Unique32(f[12], f[13], f[14], f[15]);
    Unique64(f[16..24]); Unique64(f[24..32]);
    FrameInFields(f);
  }

  lemma FrameInFields(f: seq<Byte>)
    requires |f| == FRAME_SIZE
    ensures f == [f[0], f[1], f[2], f[3]] + [f[4], f[5]] + [f[6], f[7]] + [f[8], f[9], f[10], f[11]]
               + [f[12], f[13], f[14], f[15]] + f[16..24] + f[24..32]
  {}

  /** The accepted frames are exactly the frames some record encodes to. */
  lemma WellFormedIsImage(f: seq<Byte>)
    ensures WellFormed(f) <==> exists r :: Encoded(r) == f
  {
    if WellFormed(f) {
      EncodeDecoded(f);
    }
    forall r | Encoded(r) == f
      ensures WellFormed(f)
    {
      DecodeEncoded(r);
    }
  }

  /** A span is accepted exactly when it is 32 bytes long and begins with the eight header bytes. */
  lemma WellFormedIsHeader(f: seq<Byte>)
    ensures WellFormed(f) <==>
      |f| == FRAME_SIZE && f[..8] == [0x54, 0x4C, 0x52, 0x59, 0x00, 0x01, 0x00, 0x20]
  {
    if |f| == FRAME_SIZE {
      assert f[..8] == [f[0], f[1], f[2], f[3], f[4], f[5], f[6], f[7]];
    }
  }

  // ------------------------------------------------------ filling and reading in place

  /** `frame` is `before` with `bytes` written at `offset`. */
  ghost predicate Written(frame: seq<Byte>, before: seq<Byte>, offset: nat, bytes: seq<Byte>) {
    && |frame| == |before| && offset + |bytes| <= |frame|
    && frame[offset..offset + |bytes|] == bytes
    && forall k {:trigger frame[k]} :: 0 <= k < |frame| && !(offset <= k < offset + |bytes|) ==> frame[k] == before[k]
  }

  method WriteU16(frame: array<Byte>, offset: nat, value: bv16)
    requires offset + 2 <= frame.Length
    modifies frame
    ensures Written(frame[..], old(frame[..]), offset, Bytes16(value))
  {
    frame[offset] := ((value >> 8) & 0xFF) as Byte;
    frame[offset + 1] := (value & 0xFF) as Byte;
  }

  method WriteU32(frame: array<Byte>, offset: nat, value: bv32)
    requires offset + 4 <= frame.Length
    modifies frame
    ensures Written(frame[..], old(frame[..]), offset, Bytes32(value))
  {
    frame[offset] := ((value >> 24) & 0xFF) as Byte;
    frame[offset + 1] := ((value >> 16) & 0xFF) as Byte;
    frame[offset + 2] := ((value >> 8) & 0xFF) as Byte;
    frame[offset + 3] := (value & 0xFF) as Byte;
  }

  /** The shift amount, in machine arithmetic. */
  function ShiftAmount(bits: bv8): (shift: bv8)
    requires bits <= 7
    ensures shift <= 56
  {
    (7 - bits) * 8
  }

  function ShiftedByte(v: bv64, shift: bv8): Byte
    requires shift <= 56
  {
    ((v >> shift) & 0xFF) as Byte
  }

  method ByteToWrite(value: bv64, bits: bv8, ghost index: nat) returns (byte: Byte)
    requires index < 8 && Counts(index, bits)
    ensures byte == Bytes64(value)[index]
  {
    hide Bytes64, ShiftAmount, ShiftedByte, Counts;
    ShiftedIsShift(value, index, bits);
    var shift := ShiftAmount(bits);
    byte := ShiftedByte(value, shift);
  }

  /** `bits` counts along with `index`, as the shift amount is computed in machine arithmetic. */
  method WriteU64(frame: array<Byte>, offset: nat, value: bv64)
    requires offset + 8 <= frame.Length
    modifies frame
    ensures Written(frame[..], old(frame[..]), offset, Bytes64(value))
  {
    ghost var bytes := Bytes64(value);
    var index: nat, bits: bv8 := 0, 0;
    while index < 8
      invariant 0 <= index <= 8
      invariant Counts(index, bits)
      invariant Written(frame[..], old(frame[..]), offset, bytes[..index])
    {
      hide Counts, Bytes64;
      var byte := ByteToWrite(value, bits, index);
      CountsNext(index, bits);
      frame[offset + index] := byte;
      index, bits := index + 1, bits + 1;
    }
  }

  predicate Counts(index: nat, bits: bv8) {
    match index
    case 0 => bits == 0 case 1 => bits == 1 case 2 => bits == 2
    case 3 => bits == 3 case 4 => bits == 4 case 5 => bits == 5
    case 6 => bits == 6 case 7 => bits == 7 case _ => true
  }

  lemma CountsNext(index: nat, bits: bv8)
    requires index < 8 && Counts(index, bits)
    ensures Counts(index + 1, bits + 1)
  {}

  lemma ShiftedIsShift(v: bv64, index: nat, bits: bv8)
    requires index < 8 && Counts(index, bits)
    ensures bits <= 7 && Bytes64(v)[index] == ShiftedByte(v, ShiftAmount(bits))
  {
    match index {
      case 0 => assert bits == 0;
      case 1 => assert bits == 1;
      case 2 => assert bits == 2;
      case 3 => assert bits == 3;
      case 4 => assert bits == 4;
      case 5 => assert bits == 5;
      case 6 => assert bits == 6;
      case _ => assert bits == 7;
    }
  }

  method ReadU64(frame: seq<Byte>, offset: nat) returns (value: bv64)
    requires offset + 8 <= |frame|
    ensures value == U64(frame[offset..offset + 8])
  {
    value := 0;
    var index := 0;
    while index < 8
      invariant 0 <= index <= 8
      invariant value == U64(frame[offset..offset + index])
    {
      U64Snoc(frame[offset..offset + 8], index);
      assert frame[offset..offset + 8][..index + 1] == frame[offset..offset + index + 1];
      assert frame[offset..offset + 8][..index] == frame[offset..offset + index];
      value := value << 8;
      value := value | (frame[offset + index] as bv64);
      index := index + 1;
    }
  }

  method Encode(record: TelemetryRecord) returns (frame: array<Byte>)
    ensures fresh(frame) && frame[..] == Encoded(record)
  {
    hide Bytes16, Bytes32, Bytes64;
    frame := new Byte[FRAME_SIZE](_ => 0);
    WriteU32(frame, 0, MAGIC);
    WriteU16(frame, 4, VERSION);
    WriteU16(frame, 6, FRAME_SIZE_FIELD);
    WriteU32(frame, 8, record.sensorId);
    WriteU32(frame, 12, record.metricId);
    WriteU64(frame, 16, record.timestampNs);
    WriteU64(frame, 24, record.valueBits);
  }

  method DecodeFrame(frame: seq<Byte>) returns (result: DecodeResult)
    ensures result == Decode(frame)
  {
    if |frame| != FRAME_SIZE {
      return Rejected(InvalidSize);
    }
    if U32(frame[0], frame[1], frame[2], frame[3]) != MAGIC {
      return Rejected(InvalidMagic);
    }
    if U16(frame[4], frame[5]) != VERSION {
      return Rejected(UnsupportedVersion);
    }
    if U16(frame[6], frame[7]) != FRAME_SIZE_FIELD {
      return Rejected(InvalidDeclaredFrameSize);
    }
    var sensorId := U32(frame[8], frame[9], frame[10], frame[11]);
    var metricId := U32(frame[12], frame[13], frame[14], frame[15]);
    var timestampNs := ReadU64(frame, 16);
    var valueBits := ReadU64(frame, 24);
    return Decoded(TelemetryRecord(sensorId, metricId, timestampNs, valueBits));
  }
}
