/** The binary wire protocol: frames, batch headers, markers and probes. */
module Wire {
  type byte = x: int | 0 <= x < 0x100
  type u32 = x: int | 0 <= x < 0x1_0000_0000
  type u64 = x: int | 0 <= x < 0x1_0000_0000_0000_0000
  type Payload = s: seq<byte> | |s| == 8 witness [0, 0, 0, 0, 0, 0, 0, 0]

  datatype Frame = Frame(
    seqNo: u64, tKernel: u64, tIngest: u64, canId: u32,
    srcId: byte, len: byte, flags: byte, reserved: byte, data: Payload)

  const VERSION: byte := 3
  const HEADER_SIZE: nat := 16
  const RECORD_SIZE: nat := 40
  const MAX_COUNT: nat := 65535
  const MAX_PAYLOAD: byte := 8
  const GAP_FLAG: byte := 8    // bit 3
  const ECHO_FLAG: byte := 16  // bit 4
  const FIRST_RESERVED_FLAG: byte := 32  // bits 5 to 7 are reserved
  const CONSUMER_OVERRUN: byte := 0
  const INGEST_LOSS: byte := 1
  const CONSUMER_ABSENT: byte := 2

  datatype DecodeError =
    | BadMagic | UnsupportedVersion | BadHeaderLen | BadRecordLen
    | InconsistentLength | CountTooLarge | ReservedFlagSet | LengthOutOfRange

  datatype Decoded<+T> = Ok(value: T) | Err(error: DecodeError)

  datatype BatchHeader = BatchHeader(count: nat, payloadLen: nat)

  // ---------------------------------------------------------------------
  // Little-endian integers

  function Pow256(n: nat): (p: nat)
    ensures p > 0
  {
    if n == 0 then 1 else 256 * Pow256(n - 1)
  }

  /** `width` bytes of `v`, least significant first. */
  function StoreLe(v: nat, width: nat): (b: seq<byte>)
    ensures |b| == width
    decreases width, v
  {
    if width == 0 then [] else [(v % 256) as byte] + StoreLe(v / 256, width - 1)
  }

  function LoadLe(b: seq<byte>): nat {
    if b == [] then 0 else b[0] + 256 * LoadLe(b[1..])
  }

  lemma {:induction false} LoadStore(v: nat, width: nat)
    requires v < Pow256(width)
    ensures LoadLe(StoreLe(v, width)) == v
    decreases width
  {
    if width > 0 {
      LoadStore(v / 256, width - 1);
      assert StoreLe(v, width)[1..] == StoreLe(v / 256, width - 1);
    }
  }

  lemma {:induction false} LoadUnfolds(b: seq<byte>)
    ensures if b == [] then LoadLe(b) == 0 && StoreLe(0, 0) == [] && Pow256(0) == 1
            else LoadLe(b) == b[0] + 256 * LoadLe(b[1..])
  {}

  /** The lowest byte and the others, and how large they can get. */
  lemma {:induction false} StoreUnfolds(low: byte, rest: nat, width: nat)
    requires width > 0
    ensures StoreLe(low + 256 * rest, width) == [low] + StoreLe(rest, width - 1)
    ensures rest < Pow256(width - 1) ==> low + 256 * rest < Pow256(width)
  {
    var v := low + 256 * rest;
    assert v % 256 == low && v / 256 == rest;
  }

  lemma {:induction false} StoreLoad(b: seq<byte>)
    ensures LoadLe(b) < Pow256(|b|) && StoreLe(LoadLe(b), |b|) == b
  {
    hide StoreLe;
    hide LoadLe;
    hide Pow256;
    LoadUnfolds(b);
    if b != [] {
      var rest := LoadLe(b[1..]);
      StoreLoad(b[1..]);
      StoreUnfolds(b[0], rest, |b|);
      assert b == [b[0]] + b[1..];
    }
  }

  lemma {:induction false} LoadAppend(b: seq<byte>, x: byte)
    ensures LoadLe(b + [x]) == LoadLe(b) + x * Pow256(|b|)
  {
    if b == [] {
      assert b + [x] == [x];
    } else {
      LoadAppend(b[1..], x);
      assert (b + [x])[1..] == b[1..] + [x];
      assert 256 * (x * Pow256(|b| - 1)) == x * (256 * Pow256(|b| - 1));
    }
  }

  lemma {:induction false} Widths()
    ensures Pow256(2) == 0x1_0000 && Pow256(4) == 0x1_0000_0000 && Pow256(8) == 0x1_0000_0000_0000_0000
  {
    assert Pow256(2) == 256 * Pow256(1);
    assert Pow256(4) == 256 * Pow256(3) == 256 * 256 * Pow256(2);
    assert Pow256(6) == 256 * Pow256(5) == 256 * 256 * Pow256(4);
    assert Pow256(8) == 256 * Pow256(7) == 256 * 256 * Pow256(6);
  }

  /** The byte at place `i` and what is left behind it. */
  lemma {:induction false} StoreStep(bytes: seq<byte>, i: nat, v: nat)
    requires i < |bytes| && bytes[i..] == StoreLe(v, |bytes| - i)
    ensures bytes[i] == v % 256 && bytes[i + 1..] == StoreLe(v / 256, |bytes| - i - 1)
  {
    assert bytes[i..][0] == bytes[i] && bytes[i..][1..] == bytes[i + 1..];
  }

  /** `store_le`. */
  method StoreBytes(v: nat, width: nat, buf: array<byte>, at: nat)
    requires at + width <= buf.Length
    modifies buf
    ensures forall k | 0 <= k < width :: buf[at + k] == StoreLe(v, width)[k]
    ensures forall n | 0 <= n < at || at + width <= n < buf.Length :: buf[n] == old(buf[n])
  {
    hide StoreLe;
    ghost var bytes := StoreLe(v, width);
    var shifted := v;
    for i := 0 to width
      invariant forall n | 0 <= n < at || at + width <= n < buf.Length :: buf[n] == old(buf[n])
      invariant forall k | 0 <= k < i :: buf[at + k] == bytes[k]
      invariant bytes[i..] == StoreLe(shifted, width - i)
    {
      StoreStep(bytes, i, shifted);
      buf[at + i] := shifted % 256;
      shifted := shifted / 256;
    }
  }

  /** `store_le` appending to the bytes already written from `start` on. */
  method WriteLe(v: nat, width: nat, buf: array<byte>, start: nat, at: nat)
    requires start <= at && at + width <= buf.Length
    modifies buf
    ensures buf[start..at + width] == old(buf[start..at]) + StoreLe(v, width)
    ensures forall i | 0 <= i < start || at + width <= i < buf.Length :: buf[i] == old(buf[i])
  {
    hide StoreLe;
    StoreBytes(v, width, buf, at);
    Extended(old(buf[start..at]), StoreLe(v, width), buf[start..at + width]);
  }

  /** A stretch of bytes is what was there and what was added. */
  lemma {:induction false} Extended(before: seq<byte>, added: seq<byte>, after: seq<byte>)
    requires |after| == |before| + |added|
    requires forall i | 0 <= i < |before| :: after[i] == before[i]
    requires forall k | 0 <= k < |added| :: after[|before| + k] == added[k]
    ensures after == before + added
  {}

  /** `load_le` accumulating from a buffer. */
  method ReadLe(width: nat, buf: array<byte>, at: nat) returns (v: nat)
    requires at + width <= buf.Length
    ensures v == LoadLe(buf[at..at + width])
  {
    v := 0;
    var scale: nat := 1;
    for i := 0 to width
      invariant v == LoadLe(buf[at..at + i]) && scale == Pow256(i)
    {
      LoadAppend(buf[at..at + i], buf[at + i]);
      assert buf[at..at + i + 1] == buf[at..at + i] + [buf[at + i]];
      v := v + buf[at + i] * scale;
      scale := 256 * scale;
    }
  }

  // ---------------------------------------------------------------------
  // Frames

  /** The four multi-byte fields that open a record. */
  function FrameHead(f: Frame): (b: seq<byte>)
    ensures |b| == 28
  {
    StoreLe(f.seqNo, 8) + StoreLe(f.tKernel, 8) + StoreLe(f.tIngest, 8) + StoreLe(f.canId, 4)
  }

  function FrameBytes(f: Frame): (b: seq<byte>)
    ensures |b| == RECORD_SIZE
  {
    FrameHead(f) + [f.srcId, f.len, f.flags, f.reserved] + f.data
  }

  /** The fields as `decode_frame` loads them, before any check. */
  function RawFrame(b: seq<byte>): Frame
    requires |b| == RECORD_SIZE
  {
    StoreLoad(b[0..8]); StoreLoad(b[8..16]); StoreLoad(b[16..24]); StoreLoad(b[24..28]);
    Widths();
    Frame(LoadLe(b[0..8]), LoadLe(b[8..16]), LoadLe(b[16..24]), LoadLe(b[24..28]),
          b[28], b[29], b[30], b[31], b[32..40])
  }

  function DecodeFrame(b: seq<byte>): Decoded<Frame>
    requires |b| == RECORD_SIZE
  {
    if b[30] >= FIRST_RESERVED_FLAG then Err(ReservedFlagSet)
    else if b[29] > MAX_PAYLOAD then Err(LengthOutOfRange)
    else Ok(RawFrame(b))
  }

  /** What a decoder accepts. Byte 31 is carried along and never looked at. */
  predicate Acceptable(f: Frame) { f.flags < FIRST_RESERVED_FLAG && f.len <= MAX_PAYLOAD }

  lemma {:induction false} RawFrameOfBytes(f: Frame)
    ensures RawFrame(FrameBytes(f)) == f
  {
    hide StoreLe;
    hide LoadLe;
    hide Pow256;
    var b := FrameBytes(f);
    Widths();
    assert b[0..8] == StoreLe(f.seqNo, 8);
    assert b[8..16] == StoreLe(f.tKernel, 8);
    assert b[16..24] == StoreLe(f.tIngest, 8);
    assert b[24..28] == StoreLe(f.canId, 4);
    assert b[32..40] == f.data;
    LoadStore(f.seqNo, 8); LoadStore(f.tKernel, 8); LoadStore(f.tIngest, 8); LoadStore(f.canId, 4);
  }

  /** Decoding undoes encoding exactly on acceptable frames, and every other
      frame is refused for the first reason that applies. */
  lemma {:induction false} DecodeAfterEncode(f: Frame)
    ensures DecodeFrame(FrameBytes(f)) ==
            if f.flags >= FIRST_RESERVED_FLAG then Err(ReservedFlagSet)
            else if f.len > MAX_PAYLOAD then Err(LengthOutOfRange) else Ok(f)
  {
    RawFrameOfBytes(f);
  }

  /** Re-encoding any accepted record gives back the same forty bytes. */
  lemma {:induction false} EncodeAfterDecode(b: seq<byte>)
    requires |b| == RECORD_SIZE && DecodeFrame(b).Ok?
    ensures Acceptable(DecodeFrame(b).value) && FrameBytes(DecodeFrame(b).value) == b
  {
    hide StoreLe;
    hide LoadLe;
    hide Pow256;
    var f := DecodeFrame(b).value;
    HeadAfterDecode(b);
    hide FrameHead;
    hide RawFrame;
    TailAfterDecode(b);
    assert b == b[..28] + [b[28], b[29], b[30], b[31]] + b[32..40];
  }

  lemma {:induction false} HeadAfterDecode(b: seq<byte>)
    requires |b| == RECORD_SIZE
    ensures FrameHead(RawFrame(b)) == b[..28]
  {
    hide StoreLe;
    hide LoadLe;
    hide Pow256;
    StoreLoad(b[0..8]);
    StoreLoad(b[8..16]);
    StoreLoad(b[16..24]);
    StoreLoad(b[24..28]);
    assert b[..28] == b[0..8] + b[8..16] + b[16..24] + b[24..28];
  }

  lemma {:induction false} TailAfterDecode(b: seq<byte>)
    requires |b| == RECORD_SIZE
    ensures var f := RawFrame(b);
            [f.srcId, f.len, f.flags, f.reserved] == [b[28], b[29], b[30], b[31]] && f.data == b[32..40]
  {}

  /** Byte 31 may be anything: it is decoded as it is and no reason to refuse. */
  lemma {:induction false} ReservedByteIsNotChecked(f: Frame)
    requires Acceptable(f) && f.reserved != 0
    ensures DecodeFrame(FrameBytes(f)) == Ok(f) && FrameBytes(f)[31] != 0
  {
    DecodeAfterEncode(f);
  }

  /** `encode_frame` into a buffer at an offset. */
  method EncodeFrame(f: Frame, buf: array<byte>, at: nat)
    requires at + RECORD_SIZE <= buf.Length
    modifies buf
    ensures buf[at..at + RECORD_SIZE] == FrameBytes(f)
    ensures forall i | 0 <= i < at || at + RECORD_SIZE <= i < buf.Length :: buf[i] == old(buf[i])
  {
    EncodeHead(f, buf, at);
    ghost var head := buf[at..at + 28];
    buf[at + 28], buf[at + 29], buf[at + 30], buf[at + 31] := f.srcId, f.len, f.flags, f.reserved;
    assert buf[at..at + 32] == head + [f.srcId, f.len, f.flags, f.reserved];
    CopyPayload(f.data, buf, at);
  }

  method EncodeHead(f: Frame, buf: array<byte>, at: nat)
    requires at + RECORD_SIZE <= buf.Length
    modifies buf
    ensures buf[at..at + 28] == FrameHead(f)
    ensures forall i | 0 <= i < at || at + RECORD_SIZE <= i < buf.Length :: buf[i] == old(buf[i])
  {
    WriteLe(f.seqNo, 8, buf, at, at);
    assert buf[at..at + 8] == StoreLe(f.seqNo, 8);
    WriteLe(f.tKernel, 8, buf, at, at + 8);
    WriteLe(f.tIngest, 8, buf, at, at + 16);
    WriteLe(f.canId, 4, buf, at, at + 24);
  }

  method CopyPayload(data: Payload, buf: array<byte>, at: nat)
    requires at + RECORD_SIZE <= buf.Length
    modifies buf
    ensures buf[at..at + 40] == old(buf[at..at + 32]) + data
    ensures forall i | 0 <= i < at || at + RECORD_SIZE <= i < buf.Length :: buf[i] == old(buf[i])
  {
    for i := 0 to 8
      invariant forall n | 0 <= n < at + 32 || at + 40 <= n < buf.Length :: buf[n] == old(buf[n])
      invariant buf[at + 32..at + 32 + i] == data[..i]
    {
      buf[at + 32 + i] := data[i];
      assert buf[at + 32..at + 32 + i + 1] == buf[at + 32..at + 32 + i] + [data[i]];
    }
    assert buf[at..at + 40] == buf[at..at + 32] + buf[at + 32..at + 40];
  }

  // ---------------------------------------------------------------------
  // Batch headers

  const MAGIC: seq<byte> := [0x45, 0x54, 0x47, 0x31]

  /** The payload length is computed in 32 bits, as the source does. */
  function HeaderBytes(count: u32): (b: seq<byte>)
    ensures |b| == HEADER_SIZE
  {
    MAGIC + [VERSION, 16] + StoreLe(40, 2) + StoreLe(count, 4) + StoreLe((count * 40) % 0x1_0000_0000, 4)
  }

  function DecodeHeader(b: seq<byte>): (r: Decoded<BatchHeader>)
    requires |b| == HEADER_SIZE
    ensures r.Ok? ==> r.value.count <= MAX_COUNT && r.value.payloadLen == 40 * r.value.count
  {
    if b[..4] != MAGIC then Err(BadMagic)
    else if b[4] != VERSION then Err(UnsupportedVersion)
    else if b[5] != 16 then Err(BadHeaderLen)
    else if LoadLe(b[6..8]) != 40 then Err(BadRecordLen)
    else
      var count := LoadLe(b[8..12]);
      var payload := LoadLe(b[12..16]);
      if count > MAX_COUNT then Err(CountTooLarge)
      else if payload != (count * 40) % 0x1_0000_0000 then Err(InconsistentLength)
      else Ok(BatchHeader(count, payload))
  }

  lemma {:induction false} DecodeHeaderAfterEncode(count: u32)
    ensures DecodeHeader(HeaderBytes(count)) ==
            if count > MAX_COUNT then Err(CountTooLarge) else Ok(BatchHeader(count, 40 * count))
  {
    hide StoreLe;
    hide LoadLe;
    hide Pow256;
    var payload := (count * 40) % 0x1_0000_0000;
    HeaderFields(MAGIC, VERSION, 16, StoreLe(40, 2), StoreLe(count, 4), StoreLe(payload, 4));
    Widths();
    LoadStore(40, 2);
    LoadStore(count, 4);
    LoadStore(payload, 4);
  }

  /** The fields of a header, where the decoder looks for them. */
  lemma {:induction false} HeaderFields(
    magic: seq<byte>, version: byte, size: byte, record: seq<byte>, count: seq<byte>, payload: seq<byte>)
    requires |magic| == 4 && |record| == 2 && |count| == 4 && |payload| == 4
    ensures var b := magic + [version, size] + record + count + payload;
            && |b| == HEADER_SIZE && b[..4] == magic && b[4] == version && b[5] == size
            && b[6..8] == record && b[8..12] == count && b[12..16] == payload
  {}

  lemma {:induction false} EncodeHeaderAfterDecode(b: seq<byte>)
    requires |b| == HEADER_SIZE && DecodeHeader(b).Ok?
    ensures b == HeaderBytes(DecodeHeader(b).value.count)
  {
    StoreLoad(b[6..8]); StoreLoad(b[8..12]); StoreLoad(b[12..16]);
    assert b == b[..4] + [b[4], b[5]] + b[6..8] + b[8..12] + b[12..16];
  }

  /** `decode_header` accepts exactly the image of `encode_header` on counts up
      to the sanity bound. */
  lemma {:induction false} HeaderAcceptsExactlyEncoded(b: seq<byte>)
    requires |b| == HEADER_SIZE
    ensures DecodeHeader(b).Ok? <==> exists count: u32 :: count <= MAX_COUNT && b == HeaderBytes(count)
  {
    if DecodeHeader(b).Ok? {
      EncodeHeaderAfterDecode(b);
      assert b == HeaderBytes(DecodeHeader(b).value.count);
    }
    forall count: u32 | count <= MAX_COUNT && b == HeaderBytes(count) ensures DecodeHeader(b).Ok? {
      DecodeHeaderAfterEncode(count);
    }
  }

  // ---------------------------------------------------------------------
  // Control records

  predicate IsGap(f: Frame) { (f.flags / GAP_FLAG) % 2 == 1 }
  predicate IsEcho(f: Frame) { (f.flags / ECHO_FLAG) % 2 == 1 }
  predicate IsControl(f: Frame) { IsGap(f) || IsEcho(f) }

  function MakeGap(firstMissing: u64, count: u64, reason: byte, now: u64): Frame {
    Frame(firstMissing, 0, now, 0, reason, 8, GAP_FLAG, 0, StoreLe(count, 8))
  }

  function MakeEcho(nonce: u64, sent: u64): Frame {
    Frame(nonce, 0, sent, 0, 0, 0, ECHO_FLAG, 0, [0, 0, 0, 0, 0, 0, 0, 0])
  }

  function GapCount(f: Frame): nat { LoadLe(f.data) }

  /** A marker survives the wire and says what it was made to say. */
  lemma {:induction false} GapRoundTrip(first: u64, count: u64, reason: byte, now: u64)
    ensures var g := MakeGap(first, count, reason, now);
            && IsGap(g) && !IsEcho(g) && Acceptable(g)
            && g.seqNo == first && g.srcId == reason && GapCount(g) == count
            && DecodeFrame(FrameBytes(g)) == Ok(g)
  {
    Widths();
    LoadStore(count, 8);
    DecodeAfterEncode(MakeGap(first, count, reason, now));
  }
}
