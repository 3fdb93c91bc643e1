/** What is on the wire, byte by byte and with every constant written out: the laws
    a consumer in another language relies on. */
module WireFormat {
  import opened Wire
  import opened Layout

  /** Bytes `at` to `at + width` of `b` are the base-256 digits of `v`, lowest first. */
  predicate Digits(b: seq<byte>, at: nat, width: nat, v: nat) {
    at + width <= |b| && forall k | 0 <= k < width :: b[at + k] == v / Pow256(k) % 256
  }

  lemma {:induction false} DigitOf(v: nat, width: nat, k: nat)
    requires k < width
    ensures StoreLe(v, width)[k] == v / Pow256(k) % 256
    decreases width
  {
    if k == 0 {
      assert Pow256(0) == 1;
    } else {
      DigitOf(v / 256, width - 1, k - 1);
      DivideTwice(v, Pow256(k - 1));
    }
  }

  lemma {:induction false} DivideTwice(v: nat, p: nat)
    requires p > 0
    ensures v / 256 / p == v / (256 * p)
  {
    var a, r := v / 256, v % 256;
    var q, m := a / p, a % p;
    assert v == 256 * (p * q + m) + r;
    assert v == (256 * p) * q + (256 * m + r);
    Unique(v, 256 * p, q, 256 * m + r);
  }

  /** Quotient and remainder are unique. */
  lemma {:induction false} Unique(v: int, d: int, q: int, r: int)
    requires d > 0 && v == d * q + r && 0 <= r < d
    ensures v / d == q
  {
    var q', r' := v / d, v % d;
    assert d * (q' - q) == d * q' - d * q == r - r';
    OnlyZero(d, q' - q);
  }

  /** The only multiple of `d` smaller than `d` is zero. */
  lemma {:induction false} OnlyZero(d: int, n: int)
    requires d > 0 && -d < d * n < d
    ensures n == 0
  {
    assert d * (-n) == -(d * n);
    if n > 0 {
      Apart(d, n);
    } else if n < 0 {
      Apart(d, -n);
    }
  }

  lemma {:induction false} Apart(d: int, n: int)
    requires d > 0 && n > 0
    ensures d * n >= d
  {}

  lemma {:induction false} StoredDigits(b: seq<byte>, at: nat, width: nat, v: nat)
    requires at + width <= |b| && b[at..at + width] == StoreLe(v, width)
    ensures Digits(b, at, width, v)
  {
    forall k | 0 <= k < width ensures b[at + k] == v / Pow256(k) % 256 {
      DigitOf(v, width, k);
      assert b[at..at + width][k] == b[at + k];
    }
  }

  /** Six stretches of a record, where a decoder looks for them. */
  lemma {:induction false} RecordFields(
    a: seq<byte>, b: seq<byte>, c: seq<byte>, d: seq<byte>, e: seq<byte>, g: seq<byte>)
    requires |a| == |b| == |c| == |g| == 8 && |d| == |e| == 4
    ensures var r := a + b + c + d + e + g;
            && |r| == 40 && r[0..8] == a && r[8..16] == b && r[16..24] == c && r[24..28] == d
            && r[28..32] == e && r[24..32] == d + e && r[32..40] == g
  {}

  lemma {:induction false} FieldsOf(f: Frame)
    ensures var b := FrameBytes(f);
            && b[0..8] == StoreLe(f.seqNo, 8) && b[8..16] == StoreLe(f.tKernel, 8)
            && b[16..24] == StoreLe(f.tIngest, 8) && b[24..28] == StoreLe(f.canId, 4)
            && b[28..32] == [f.srcId, f.len, f.flags, f.reserved] && b[24..32] == SmallBytes(f) && b[32..40] == f.data
  {
    hide StoreLe;
    RecordFields(StoreLe(f.seqNo, 8), StoreLe(f.tKernel, 8), StoreLe(f.tIngest, 8), StoreLe(f.canId, 4),
                 [f.srcId, f.len, f.flags, f.reserved], f.data);
  }

  /** A record: sequence at 0, kernel time at 8, ingest time at 16, identifier at 24,
      bus, length, flags and reserved at 28 to 31, payload at 32. */
  lemma {:induction false} RecordLayout(f: Frame)
    ensures var b := FrameBytes(f);
            && |b| == 40
            && Digits(b, 0, 8, f.seqNo) && Digits(b, 8, 8, f.tKernel) && Digits(b, 16, 8, f.tIngest)
            && Digits(b, 24, 4, f.canId)
            && b[28] == f.srcId && b[29] == f.len && b[30] == f.flags && b[31] == f.reserved
            && forall k | 0 <= k < 8 :: b[32 + k] == f.data[k]
  {
    hide StoreLe;
    hide Digits;
    var b := FrameBytes(f);
    FieldsOf(f);
    var small := [f.srcId, f.len, f.flags, f.reserved];
    forall k | 0 <= k < 4 ensures b[28 + k] == small[k] { assert b[28..32][k] == b[28 + k]; }
    assert b[28] == small[0] && b[29] == small[1] && b[30] == small[2] && b[31] == small[3];
    forall k | 0 <= k < 8 ensures b[32 + k] == f.data[k] { assert b[32..40][k] == b[32 + k]; }
    StoredDigits(b, 0, 8, f.seqNo);
    StoredDigits(b, 8, 8, f.tKernel);
    StoredDigits(b, 16, 8, f.tIngest);
    StoredDigits(b, 24, 4, f.canId);
  }

  /** The eight bytes every header of this version begins with. */
  const PREAMBLE: seq<byte> := [0x45, 0x54, 0x47, 0x31, 3, 16, 40, 0]

  lemma {:induction false} SizeField()
    ensures StoreLe(40, 2) == [40, 0]
  {
    assert StoreLe(40, 2) == [40] + StoreLe(0, 1);
    assert StoreLe(0, 1) == [0] + StoreLe(0, 0);
  }

  /** A header: the preamble, the count at 8, and at 12 forty times the count. */
  lemma {:induction false} HeaderLayout(count: u32)
    ensures var b := HeaderBytes(count);
            && |b| == 16 && b[..8] == [0x45, 0x54, 0x47, 0x31, 3, 16, 40, 0]
            && Digits(b, 8, 4, count)
            && (count <= 65535 ==> Digits(b, 12, 4, 40 * count))
  {
    hide StoreLe;
    hide Digits;
    SizeField();
    var payload := (count * 40) % 0x1_0000_0000;
    var b := HeaderBytes(count);
    HeaderFields(MAGIC, VERSION, 16, StoreLe(40, 2), StoreLe(count, 4), StoreLe(payload, 4));
    assert b[..8] == b[..4] + [b[4], b[5]] + b[6..8];
    assert b[8..8 + 4] == StoreLe(count, 4) && b[12..12 + 4] == StoreLe(payload, 4);
    StoredDigits(b, 8, 4, count);
    StoredDigits(b, 12, 4, payload);
  }

  /** Digits determine what is loaded. */
  lemma {:induction false} LoadedDigits(b: seq<byte>, at: nat, width: nat, v: nat)
    requires at + width <= |b| && v < Pow256(width)
    ensures Digits(b, at, width, v) <==> LoadLe(b[at..at + width]) == v
  {
    var x := b[at..at + width];
    if LoadLe(x) == v {
      StoreLoad(x);
      StoredDigits(b, at, width, v);
    }
    if Digits(b, at, width, v) {
      var y := StoreLe(v, width);
      forall k | 0 <= k < width ensures x[k] == y[k] { DigitOf(v, width, k); }
      assert x == y;
      LoadStore(v, width);
    }
  }

  /** Sixteen bytes are accepted as a header exactly if they are the preamble, a count
      of at most 65535 and forty times that count. */
  lemma {:induction false} HeaderAccepted(b: seq<byte>)
    requires |b| == 16
    ensures DecodeHeader(b).Ok? <==>
            && b[..8] == [0x45, 0x54, 0x47, 0x31, 3, 16, 40, 0]
            && exists count: nat | count <= 65535 :: Digits(b, 8, 4, count) && Digits(b, 12, 4, 40 * count)
  {
    hide Digits;
    hide LoadLe;
    hide StoreLe;
    Widths();
    hide Pow256;
    if DecodeHeader(b).Ok? {
      var count := DecodeHeader(b).value.count;
      EncodeHeaderAfterDecode(b);
      HeaderLayout(count);
      assert Digits(b, 8, 4, count) && Digits(b, 12, 4, 40 * count);
    }
    if count: nat :| b[..8] == PREAMBLE && count <= 65535 && Digits(b, 8, 4, count) && Digits(b, 12, 4, 40 * count) {
      LoadedDigits(b, 8, 4, count);
      LoadedDigits(b, 12, 4, 40 * count);
      PreambleFields(b);
    }
  }

  lemma {:induction false} PreambleFields(b: seq<byte>)
    requires |b| == 16 && b[..8] == PREAMBLE
    ensures b[..4] == MAGIC && b[4] == VERSION && b[5] == 16 && LoadLe(b[6..8]) == 40
  {
    assert b[..4] == b[..8][..4] && b[4] == b[..8][4] && b[5] == b[..8][5];
    assert b[6..8] == b[..8][6..8] == [40, 0];
    SizeField();
    assert Pow256(2) == 65536 by { Widths(); }
    LoadStore(40, 2);
  }

  /** A header is refused for the first field that is wrong: magic, version, header
      length, record length, then a count beyond 65535, then the payload length. */
  lemma {:induction false} HeaderRefused(b: seq<byte>)
    requires |b| == 16
    ensures DecodeHeader(b) == Err(BadMagic) <==> b[..4] != [0x45, 0x54, 0x47, 0x31]
    ensures b[..4] == [0x45, 0x54, 0x47, 0x31] ==> (DecodeHeader(b) == Err(UnsupportedVersion) <==> b[4] != 3)
    ensures b[..5] == PREAMBLE[..5] ==> (DecodeHeader(b) == Err(BadHeaderLen) <==> b[5] != 16)
    ensures b[..6] == PREAMBLE[..6] ==> (DecodeHeader(b) == Err(BadRecordLen) <==> b[6..8] != [40, 0])
    ensures b[..8] == PREAMBLE ==>
              (DecodeHeader(b) == Err(CountTooLarge) <==> !exists count: nat | count <= 65535 :: Digits(b, 8, 4, count))
    ensures DecodeHeader(b) != Err(ReservedFlagSet) && DecodeHeader(b) != Err(LengthOutOfRange)
  {
    hide Digits;
    hide LoadLe;
    hide StoreLe;
    Widths();
    SizeField();
    hide Pow256;
    if b[..5] == PREAMBLE[..5] {
      assert b[..4] == b[..5][..4] && b[4] == b[..5][4];
    }
    if b[..6] == PREAMBLE[..6] {
      assert b[..4] == b[..6][..4] && b[4] == b[..6][4] && b[5] == b[..6][5];
      StoreLoad(b[6..8]);
      LoadStore(40, 2);
    }
    if b[..8] == PREAMBLE {
      PreambleFields(b);
      var count := LoadLe(b[8..12]);
      StoreLoad(b[8..12]);
      assert b[8..8 + 4] == b[8..12];
      LoadedDigits(b, 8, 4, count);
      forall c: nat | c <= 65535 && Digits(b, 8, 4, c) ensures c == count { LoadedDigits(b, 8, 4, c); }
    }
  }

  /** A record is accepted exactly if bits 5 to 7 of its flags are clear and its
      length is at most 8; the reserved flags are looked at first. */
  lemma {:induction false} RecordAccepted(b: seq<byte>)
    requires |b| == 40
    ensures DecodeFrame(b).Ok? <==> b[30] < 32 && b[29] <= 8
    ensures DecodeFrame(b) == Err(ReservedFlagSet) <==> b[30] >= 32
    ensures DecodeFrame(b) == Err(LengthOutOfRange) <==> b[30] < 32 && b[29] > 8
  {}

  /** A marker: first missing sequence, the gateway's clock, reason where a bus number
      would be, length 8, flag bit 3, the count as payload, and nothing else. */
  lemma {:induction false} GapLayout(first: u64, count: u64, reason: byte, now: u64)
    ensures var g := MakeGap(first, count, reason, now);
            && g == Frame(first, 0, now, 0, reason, 8, 8, 0, g.data) && Digits(g.data, 0, 8, count)
            && IsGap(g) && !IsEcho(g)
  {
    StoredDigits(StoreLe(count, 8), 0, 8, count);
  }

  /** A probe: nonce, the gateway's clock, flag bit 4, everything else zero. */
  lemma {:induction false} EchoLayout(nonce: u64, sent: u64)
    ensures var e := MakeEcho(nonce, sent);
            e == Frame(nonce, 0, sent, 0, 0, 0, 16, 0, [0, 0, 0, 0, 0, 0, 0, 0]) && IsEcho(e) && !IsGap(e)
    ensures DecodeFrame(FrameBytes(MakeEcho(nonce, sent))) == Ok(MakeEcho(nonce, sent))
  {
    DecodeAfterEncode(MakeEcho(nonce, sent));
  }

  /** Control records are told by bits 3 and 4 of the flags. */
  lemma {:induction false} ControlBits(f: Frame)
    ensures IsGap(f) <==> f.flags % 16 >= 8
    ensures IsEcho(f) <==> f.flags % 32 >= 16
    ensures IsControl(f) <==> f.flags % 32 >= 8
  {
    var x: int := f.flags;
    var y, low := x / 8, x % 8;
    var z, gap := y / 2, y % 2;
    var w, echo := z / 2, z % 2;
    Quotient(x, 16, z, 8 * gap + low);
    Quotient(x, 32, w, 16 * echo + 8 * gap + low);
  }

  /** Quotient and remainder at once. */
  lemma {:induction false} Quotient(v: int, d: int, q: int, r: int)
    requires d > 0 && v == d * q + r && 0 <= r < d
    ensures v / d == q && v % d == r
  {
    Unique(v, d, q, r);
  }

  /** In memory a frame is the same forty bytes, read as five little-endian words. */
  lemma {:induction false} ImageIsRecord(f: Frame, i: nat)
    requires i < 5
    ensures FrameWords(f)[i] == LoadLe(FrameBytes(f)[8 * i..8 * i + 8])
  {
    Widths();
    hide Pow256;
    hide StoreLe;
    hide LoadLe;
    FieldsOf(f);
    LoadStore(f.seqNo, 8);
    LoadStore(f.tKernel, 8);
    LoadStore(f.tIngest, 8);
  }
}
