/** The frame codec of `IpcClient.swift`, sections 5.2 and 5.3 of RFC 6455. */
module WsFrame {
  import opened Numbers
  import opened Options

  // Bit tests are written as arithmetic: `b & 0x80` is `b / 128`, `b & 0x7F` is `b % 128`,
  // `b & 0x0F` is `b % 16`, and `|` of disjoint bits is a sum.

  function Xor(x: byte, y: byte): (r: byte)
  {
    assert Pow2(4) == 16 && Pow2(8) == 256;
    XorBits(x, y, 8)
  }

  /** Exclusive or of the low k bits. */
  function XorBits(x: nat, y: nat, k: nat): (r: nat)
    requires x < Pow2(k) && y < Pow2(k)
    ensures r < Pow2(k)
  {
    if k == 0 then 0 else 2 * XorBits(x / 2, y / 2, k - 1) + (if x % 2 == y % 2 then 0 else 1)
  }

  function Pow2(k: nat): (p: nat)
  {
    if k == 0 then 1 else 2 * Pow2(k - 1)
  }

  lemma {:induction false} XorTwice(x: nat, y: nat, k: nat)
    requires x < Pow2(k) && y < Pow2(k)
    ensures XorBits(XorBits(x, y, k), y, k) == x
  {
    if k > 0 {
      var half, bit := XorBits(x / 2, y / 2, k - 1), if x % 2 == y % 2 then 0 else 1;
      XorTwice(x / 2, y / 2, k - 1);
      assert XorBits(x, y, k) == 2 * half + bit;
      assert (2 * half + bit) / 2 == half && (2 * half + bit) % 2 == bit;
    }
  }

  /** Bit k of a number, the lowest being bit 0. */
  function Bit(x: nat, k: nat): (b: nat)
    ensures b <= 1
  {
    if k == 0 then x % 2 else Bit(x / 2, k - 1)
  }

  lemma {:induction false} XorBitsAt(x: nat, y: nat, n: nat, k: nat)
    requires x < Pow2(n) && y < Pow2(n) && k < n
    ensures Bit(XorBits(x, y, n), k) == (Bit(x, k) + Bit(y, k)) % 2
  {
    var half, bit := XorBits(x / 2, y / 2, n - 1), if x % 2 == y % 2 then 0 else 1;
    assert XorBits(x, y, n) == 2 * half + bit;
    assert (2 * half + bit) / 2 == half && (2 * half + bit) % 2 == bit;
    if k > 0 {
      XorBitsAt(x / 2, y / 2, n - 1, k - 1);
    }
  }

  /** Octet `r` is the exclusive or of `x` and `y`: each of its eight bits is the sum of
      theirs, without carry. */
  predicate BitwiseSum(r: byte, x: byte, y: byte)
  {
    forall k | 0 <= k < 8 :: Bit(r, k) == (Bit(x, k) + Bit(y, k)) % 2
  }

  lemma XorIsBitwise(x: byte, y: byte)
    ensures BitwiseSum(Xor(x, y), x, y)
  {
    assert Pow2(4) == 16 && Pow2(8) == 256;
    forall k | 0 <= k < 8
      ensures Bit(Xor(x, y), k) == (Bit(x, k) + Bit(y, k)) % 2
    {
      XorBitsAt(x, y, 8, k);
    }
  }

  /** Zero changes nothing, and equal octets cancel. */
  lemma {:induction false} XorUnits(x: nat, k: nat)
    requires x < Pow2(k)
    ensures XorBits(x, 0, k) == x && XorBits(x, x, k) == 0
  {
    if k > 0 {
      XorUnits(x / 2, k - 1);
    }
  }

  /** The bits determine the octet: no other one is the exclusive or. */
  lemma BitwiseSumUnique(a: byte, b: byte, x: byte, y: byte)
    requires BitwiseSum(a, x, y) && BitwiseSum(b, x, y)
    ensures a == b
  {
    assert Pow2(4) == 16 && Pow2(8) == 256;
    assert forall k | 0 <= k < 8 :: Bit(a, k) == (Bit(x, k) + Bit(y, k)) % 2;
    assert forall k | 0 <= k < 8 :: Bit(a, k) == Bit(b, k);
    SameBits(a, b, 8);
  }

  lemma {:induction false} SameBits(a: nat, b: nat, n: nat)
    requires a < Pow2(n) && b < Pow2(n) && forall k | 0 <= k < n :: Bit(a, k) == Bit(b, k)
    ensures a == b
  {
    if n > 0 {
      assert Bit(a, 0) == Bit(b, 0);
      forall k | 0 <= k < n - 1
        ensures Bit(a / 2, k) == Bit(b / 2, k)
      {
        assert Bit(a, k + 1) == Bit(b, k + 1);
      }
      SameBits(a / 2, b / 2, n - 1);
    }
  }

  const MAX_FRAME_BYTES: nat := 8 * 1024 * 1024

  datatype Header = Header(
    fin: bool,
    opcode: byte,
    masked: bool,
    payloadLen: nat,
    headerSize: nat,
    maskOffset: Option<nat>)

  datatype HeaderResult = Incomplete | TooLong | Parsed(header: Header)

  // ---------------------------------------------------------------- reference

  /** Network byte order. */
  function BigEndian(bs: seq<byte>): (n: nat)
  {
    if bs == [] then 0 else BigEndian(bs[..|bs| - 1]) * 256 + bs[|bs| - 1]
  }

  function Bytes(n: nat, width: nat): (bs: seq<byte>)
    ensures |bs| == width
  {
    if width == 0 then [] else Bytes(n / 256, width - 1) + [(n % 256)]
  }

  function Pow256(k: nat): (p: nat)
  {
    if k == 0 then 1 else 256 * Pow256(k - 1)
  }

  /** Width of the extended length that a 7-bit length announces. */
  function ExtendedWidth(len7: nat): (w: nat)
  {
    if len7 == 126 then 2 else if len7 == 127 then 8 else 0
  }

  /** What a header at the front of `data` means. */
  function HeaderOf(data: seq<byte>): (r: HeaderResult)
  {
    if |data| < 2 then Incomplete else
    var len7 := data[1] % 128;
    var width := ExtendedWidth(len7);
    if |data| < 2 + width then Incomplete else
    var len := if width == 0 then len7 else BigEndian(data[2..2 + width]);
    if width == 8 && len > MAX_FRAME_BYTES then TooLong else
    var masked := data[1] / 128 == 1;
    Parsed(Header(data[0] / 128 == 1, data[0] % 16, masked, len,
                  2 + width + (if masked then 4 else 0),
                  if masked then Some(2 + width) else None))
  }

  function TotalFrameLength(h: Header): (n: nat)
  {
    h.headerSize + h.payloadLen
  }

  /** Section 5.3: octet i is combined with key octet i modulo 4. */
  function Mask(payload: seq<byte>, key: seq<byte>): (r: seq<byte>)
    requires |key| == 4
    ensures |r| == |payload|
  {
    seq(|payload|, i requires 0 <= i < |payload| => Xor(payload[i], key[i % 4]))
  }

  function PayloadOf(data: seq<byte>, h: Header): (r: seq<byte>)
    requires HeaderOf(data) == Parsed(h) && |data| >= TotalFrameLength(h)
    ensures |r| == h.payloadLen
  {
    var raw := data[h.headerSize..h.headerSize + h.payloadLen];
    if h.maskOffset.Some? then Mask(raw, data[h.maskOffset.value..h.maskOffset.value + 4]) else raw
  }

  // ------------------------------------------------------------ the wire form

  /** A frame as section 5.2 describes it, before it is laid out. */
  datatype Frame = Frame(fin: bool, rsv: byte, opcode: byte, key: Option<seq<byte>>, payload: seq<byte>)

  datatype LengthForm = Len7 | Len16 | Len64

  predicate WellFormed(f: Frame, form: LengthForm)
  {
    && f.rsv in {0, 16, 32, 48, 64, 80, 96, 112}
    && f.opcode < 16
    && (f.key.Some? ==> |f.key.value| == 4)
    && match form
       case Len7 => |f.payload| <= 125
       case Len16 => |f.payload| < 0x1_0000
       case Len64 => |f.payload| < 0x8000_0000_0000_0000
  }

  function LengthBytes(n: nat, maskBit: byte, form: LengthForm): (bs: seq<byte>)
    requires maskBit in {0, 0x80}
    requires form == Len7 ==> n <= 125
  {
    match form
    case Len7 => [maskBit + n]
    case Len16 => [maskBit + 126] + Bytes(n, 2)
    case Len64 => [maskBit + 127] + Bytes(n, 8)
  }

  function FirstByte(f: Frame): (b: byte)
    requires f.rsv in {0, 16, 32, 48, 64, 80, 96, 112} && f.opcode < 16
  {
    (if f.fin then 0x80 else 0) + f.rsv + f.opcode
  }

  function Encode(f: Frame, form: LengthForm): (bs: seq<byte>)
    requires WellFormed(f, form)
  {
    var maskBit: byte := if f.key.Some? then 0x80 else 0;
    [FirstByte(f)] + LengthBytes(|f.payload|, maskBit, form) + Body(f)
  }

  // ----------------------------------------------------------------- the code

  /** `parseHeader`: nil, a thrown length error, or the header. */
  method ParseHeader(data: seq<byte>) returns (r: HeaderResult)
    ensures r == HeaderOf(data)
    ensures HeaderSays(data, r)
  {
    HeaderByOctets(data);
    if |data| < 2 {
      return Incomplete;
    }
    var fin := data[0] / 128 == 1;
    var opcode := data[0] % 16;
    var masked := data[1] / 128 == 1;
    var payloadLen: int := data[1] % 128;
    var headerSize := 2;
    if payloadLen == 126 {
      if |data| < 4 {
        return Incomplete;
      }
      payloadLen := (data[2] as int) * 256 + data[3] as int;
      headerSize := 4;
      assert data[2..4][..1] == [data[2]];
      assert BigEndian([data[2]]) == data[2] by { assert [data[2]][..0] == []; }
    } else if payloadLen == 127 {
      if |data| < 10 {
        return Incomplete;
      }
      var len64: nat := 0;
      for i := 2 to 10
        invariant len64 == BigEndian(data[2..i])
      {
        len64 := len64 * 256 + data[i];
        assert data[2..i + 1][..i - 2] == data[2..i];
      }
      if len64 > MAX_FRAME_BYTES {
        return TooLong;
      }
      payloadLen := len64;
      headerSize := 10;
    }
    var maskOffset := if masked then Some(headerSize) else None;
    if masked {
      headerSize := headerSize + 4;
    }
    r := Parsed(Header(fin, opcode, masked, payloadLen, headerSize, maskOffset));
  }

  /** `extractPayload`: nil exactly when the frame is not complete. */
  method ExtractPayload(data: seq<byte>, h: Header) returns (r: Option<seq<byte>>)
    requires HeaderOf(data) == Parsed(h)
    ensures r == if |data| >= TotalFrameLength(h) then Some(PayloadOf(data, h)) else None
    ensures r.Some? <==> |data| >= h.headerSize + h.payloadLen
    ensures r.Some? ==> PayloadSays(data, h, r.value)
  {
    var totalLen := TotalFrameLength(h);
    if |data| < totalLen {
      return None;
    }
    PayloadByOctets(data, h);
    var payloadData := data[h.headerSize..h.headerSize + h.payloadLen];
    if h.maskOffset.Some? {
      var unmasked := Unmask(payloadData, data[h.maskOffset.value..h.maskOffset.value + 4]);
      return Some(unmasked);
    }
    r := Some(payloadData);
  }

  /** The unmasking loop. */
  method Unmask(payload: seq<byte>, key: seq<byte>) returns (r: seq<byte>)
    requires |key| == 4
    ensures r == Mask(payload, key)
  {
    r := [];
    for i := 0 to |payload|
      invariant r == Mask(payload, key)[..i]
    {
      r := r + [Xor(payload[i], key[i % 4])];
      assert r == Mask(payload, key)[..i + 1];
    }
  }

  /** The mask bit and the length, in the three branches of `buildWsTextFrame`. */
  method AppendLength(start: seq<byte>, len: nat) returns (frame: seq<byte>)
    requires len < 0x1_0000_0000
    ensures frame == start + LengthBytes(len, 0x80, MinimalForm(len))
  {
    if len <= 125 {
      frame := start + [0x80 + len];
    } else if len <= 65535 {
      TwoBytes(len);
      var bytes := [(len / 256), (len % 256)];
      frame := start + ([0x80 + 126] + bytes);
    } else {
      EightBytes(len);
      var bytes := [0, 0, 0, 0, (len / 0x100_0000), (len / 0x1_0000 % 256),
                    (len / 256 % 256), (len % 256)];
      frame := start + ([0x80 + 127] + bytes);
    }
  }

  /** `buildWsTextFrame`; the random key is a parameter. Past 32 bits the
      source's byte conversion traps. */
  method BuildTextFrame(payload: seq<byte>, key: seq<byte>) returns (frame: seq<byte>)
    requires |key| == 4 && |payload| < 0x1_0000_0000
    ensures frame == Encode(TextFrame(payload, key), MinimalForm(|payload|))
    ensures FrameSays(frame, payload, key)
  {
    frame := [0x81];
    frame := AppendLength(frame, |payload|);
    ghost var prefix := frame;
    frame := frame + key;
    for i := 0 to |payload|
      invariant frame == prefix + key + Mask(payload, key)[..i]
    {
      frame := frame + [Xor(payload[i], key[i % 4])];
      assert Mask(payload, key)[..i + 1] == Mask(payload, key)[..i] + [Xor(payload[i], key[i % 4])];
    }
    assert frame == prefix + (key + Mask(payload, key));
    TextFrameByOctets(payload, key);
  }

  function TextFrame(payload: seq<byte>, key: seq<byte>): (f: Frame)
  {
    Frame(true, 0, 1, Some(key), payload)
  }

  /** The shortest form, as section 5.2 demands of a sender. */
  function MinimalForm(n: nat): (form: LengthForm)
    ensures form == Len7 <==> n <= 125
    ensures form == Len16 <==> 125 < n < 0x1_0000
  {
    if n <= 125 then Len7 else if n <= 65535 then Len16 else Len64
  }

  lemma TwoBytes(n: nat)
    requires n < 0x1_0000
    ensures Bytes(n, 2) == [(n / 256), (n % 256)]
  {
    assert Bytes(n / 256 / 256, 0) == [];
    assert Bytes(n / 256, 1) == [(n / 256 % 256)];
  }

  lemma EightBytes(n: nat)
    requires n < 0x1_0000_0000
    ensures Bytes(n, 8) == [0, 0, 0, 0, (n / 0x100_0000), (n / 0x1_0000 % 256),
                            (n / 256 % 256), (n % 256)]
  {
    ShiftSteps(n);
    ZeroBytes(4);
    BytesStep(n / 256 / 256 / 256, 4);
    BytesStep(n / 256 / 256, 5);
    BytesStep(n / 256, 6);
    BytesStep(n, 7);
  }

  lemma BytesStep(n: nat, k: nat)
    ensures Bytes(n, k + 1) == Bytes(n / 256, k) + [(n % 256)]
  {
  }

  lemma ShiftSteps(n: nat)
    requires n < 0x1_0000_0000
    ensures n / 256 / 256 == n / 0x1_0000
    ensures n / 256 / 256 / 256 == n / 0x100_0000 < 256
    ensures n / 256 / 256 / 256 / 256 == 0
  {
  }

  lemma ZeroBytes(k: nat)
    ensures Bytes(0, k) == seq(k, _ => 0)
  {
    if k > 0 {
      ZeroBytes(k - 1);
    }
  }

  // ------------------------------------------------------------ octet by octet

  /** The number that a 16-bit or 64-bit length spells, most significant octet first. */
  function Length16(data: seq<byte>): (n: nat)
    requires |data| >= 4
  {
    256 * (data[2] as int) + data[3]
  }

  function Length64(data: seq<byte>): (n: nat)
    requires |data| >= 10
  {
    0x1_0000_0000 * Length32(data[2..6]) + Length32(data[6..10])
  }

  function Length32(bs: seq<byte>): (n: nat)
    requires |bs| == 4
  {
    0x100_0000 * (bs[0] as int) + 0x1_0000 * (bs[1] as int) + 0x100 * (bs[2] as int) + bs[3]
  }

  /** The header result, read off the first octets: `0x80` is the top bit, codes 126 and
      127 announce two and eight octets of length, and 8388608 is 8 MiB. */
  predicate HeaderSays(data: seq<byte>, r: HeaderResult)
  {
    if |data| < 2 then r == Incomplete else
    var code, mask := data[1] % 128, data[1] >= 0x80;
    if (code == 126 && |data| < 4) || (code == 127 && |data| < 10) then r == Incomplete
    else if code == 127 && Length64(data) > 8388608 then r == TooLong
    else
      var start := if code == 126 then 4 else if code == 127 then 10 else 2;
      && r.Parsed?
      && r.header.fin == (data[0] >= 0x80) && r.header.opcode == data[0] % 16 && r.header.masked == mask
      && r.header.payloadLen == (if code == 126 then Length16(data) else if code == 127 then Length64(data) else code)
      && r.header.maskOffset == (if mask then Some(start) else None)
      && r.header.headerSize == (if mask then start + 4 else start)
  }

  lemma HeaderByOctets(data: seq<byte>)
    ensures HeaderSays(data, HeaderOf(data))
  {
    if |data| >= 4 {
      BigEndianTwo(data[2..4]);
    }
    if |data| >= 10 {
      BigEndianEight(data[2..10]);
      assert data[2..10][..4] == data[2..6] && data[2..10][4..] == data[6..10];
    }
  }

  lemma BigEndianTwo(bs: seq<byte>)
    requires |bs| == 2
    ensures BigEndian(bs) == 256 * (bs[0] as int) + bs[1]
  {
    assert bs[..1] == [bs[0]] && bs[..1][..0] == [];
    assert BigEndian(bs[..1]) == bs[0];
  }

  lemma BigEndianStep(bs: seq<byte>, k: nat)
    requires k < |bs|
    ensures BigEndian(bs[..k + 1]) == BigEndian(bs[..k]) * 256 + bs[k]
  {
    assert bs[..k + 1][..k] == bs[..k];
  }

  lemma BigEndianFour(bs: seq<byte>, k: nat)
    requires k + 4 <= |bs|
    ensures BigEndian(bs[..k + 4]) == BigEndian(bs[..k]) * 0x1_0000_0000 + Length32(bs[k..k + 4])
  {
    BigEndianStep(bs, k);
    BigEndianStep(bs, k + 1);
    BigEndianStep(bs, k + 2);
    BigEndianStep(bs, k + 3);
  }

  lemma BigEndianEight(bs: seq<byte>)
    requires |bs| == 8
    ensures BigEndian(bs) == 0x1_0000_0000 * Length32(bs[..4]) + Length32(bs[4..])
  {
    assert bs[..0] == [] && bs[..8] == bs && bs[4..8] == bs[4..];
    BigEndianFour(bs, 0);
    BigEndianFour(bs, 4);
  }

  /** Octet i of the payload is octet i behind the header, combined with key octet i
      modulo 4 when there is a key. */
  ghost predicate PayloadSays(data: seq<byte>, h: Header, payload: seq<byte>)
    requires HeaderOf(data) == Parsed(h) && |data| >= h.headerSize + h.payloadLen
  {
    && |payload| == h.payloadLen
    && (h.maskOffset.None? ==> forall i | 0 <= i < |payload| :: payload[i] == data[h.headerSize + i])
    && (h.maskOffset.Some? ==> forall i | 0 <= i < |payload| ::
          BitwiseSum(payload[i], data[h.headerSize + i], data[h.headerSize - 4 + i % 4]))
  }

  lemma PayloadByOctets(data: seq<byte>, h: Header)
    requires HeaderOf(data) == Parsed(h) && |data| >= TotalFrameLength(h)
    ensures PayloadSays(data, h, PayloadOf(data, h))
  {
    HeaderByOctets(data);
    if h.maskOffset.Some? {
      forall i | 0 <= i < h.payloadLen
        ensures BitwiseSum(PayloadOf(data, h)[i], data[h.headerSize + i], data[h.headerSize - 4 + i % 4])
      {
        XorIsBitwise(data[h.headerSize + i], data[h.headerSize - 4 + i % 4]);
      }
    }
  }

  /** A final text frame: `0x81`, the shortest length with the mask bit, the key, and
      each octet of the payload combined with key octet i modulo 4. */
  ghost predicate FrameSays(frame: seq<byte>, payload: seq<byte>, key: seq<byte>)
    requires |key| == 4
  {
    var n, start := |payload|, KeyStart(|payload|);
    && |frame| == start + 4 + n && LengthSays(frame, n) && frame[start..start + 4] == key
    && forall i | 0 <= i < n :: BitwiseSum(frame[start + 4 + i], payload[i], key[i % 4])
  }

  /** Where the key starts. */
  function KeyStart(n: nat): (start: nat)
  {
    if n <= 125 then 2 else if n <= 65535 then 4 else 10
  }

  lemma LengthByOctets(n: nat, rest: seq<byte>)
    requires n < 0x1_0000_0000
    ensures var size := LengthBytes(n, 0x80, MinimalForm(n));
      |size| == KeyStart(n) - 1 && LengthSays([0x81] + size + rest, n)
  {
    if n > 65535 {
      LongLength(n, rest);
    } else if n > 125 {
      TwoBytes(n);
    }
  }

  lemma LongLength(n: nat, rest: seq<byte>)
    requires 65535 < n < 0x1_0000_0000
    ensures var size := LengthBytes(n, 0x80, Len64);
      |size| == 9 && LengthSays([0x81] + size + rest, n)
  {
    EightBytes(n);
    FourOctets(n);
    LongLengthSays([0x81] + LengthBytes(n, 0x80, Len64) + rest, n);
  }

  lemma FourOctets(n: nat)
    requires n < 0x1_0000_0000
    ensures n / 0x100_0000 < 256
    ensures 0x100_0000 * (n / 0x100_0000) + 0x1_0000 * (n / 0x1_0000 % 256) + 0x100 * (n / 256 % 256) + n % 256 == n
  {
    assert n == 256 * (n / 256) + n % 256;
    assert n / 256 == 256 * (n / 0x1_0000) + n / 256 % 256;
    assert n / 0x1_0000 == 256 * (n / 0x100_0000) + n / 0x1_0000 % 256;
  }

  lemma LongLengthSays(frame: seq<byte>, n: nat)
    requires 65535 < n < 0x1_0000_0000 && |frame| >= 10 && n / 0x100_0000 < 256
    requires frame[0] == 0x81 && frame[1] == 0xFF && frame[2..6] == [0, 0, 0, 0]
    requires frame[6..10] == [(n / 0x100_0000), (n / 0x1_0000 % 256), (n / 256 % 256), (n % 256)]
    ensures LengthSays(frame, n)
  {
    FourOctets(n);
  }

  predicate LengthSays(frame: seq<byte>, n: nat)
  {
    && |frame| >= KeyStart(n) && frame[0] == 0x81
    && (if n <= 125 then frame[1] == 0x80 + n
        else if n <= 65535 then frame[1] == 0xFE && Length16(frame) == n
        else frame[1] == 0xFF && Length64(frame) == n)
  }

  lemma TextFrameByOctets(payload: seq<byte>, key: seq<byte>)
    requires |key| == 4 && |payload| < 0x1_0000_0000
    ensures FrameSays(Encode(TextFrame(payload, key), MinimalForm(|payload|)), payload, key)
  {
    var n, masked := |payload|, Mask(payload, key);
    var start := [0x81] + LengthBytes(n, 0x80, MinimalForm(n));
    LengthByOctets(n, key + masked);
    assert Encode(TextFrame(payload, key), MinimalForm(n)) == start + (key + masked);
    MaskByOctets(start, payload, key);
  }

  lemma MaskByOctets(start: seq<byte>, payload: seq<byte>, key: seq<byte>)
    requires |key| == 4
    ensures var frame, k := start + (key + Mask(payload, key)), |start|;
      && |frame| == k + 4 + |payload| && frame[k..k + 4] == key
      && forall i | 0 <= i < |payload| :: BitwiseSum(frame[k + 4 + i], payload[i], key[i % 4])
  {
    var frame, k := start + (key + Mask(payload, key)), |start|;
    forall i | 0 <= i < |payload|
      ensures BitwiseSum(frame[k + 4 + i], payload[i], key[i % 4])
    {
      assert frame[k + 4 + i] == Mask(payload, key)[i];
      XorIsBitwise(payload[i], key[i % 4]);
    }
  }

  // --------------------------------------------------------------- round trip

  lemma {:induction false} BytesRoundTrip(n: nat, width: nat)
    requires n < Pow256(width)
    ensures BigEndian(Bytes(n, width)) == n
  {
    if width > 0 {
      BytesRoundTrip(n / 256, width - 1);
      assert Bytes(n, width)[..width - 1] == Bytes(n / 256, width - 1);
    }
  }

  lemma MaskInvolution(payload: seq<byte>, key: seq<byte>)
    requires |key| == 4
    ensures Mask(Mask(payload, key), key) == payload
  {
    forall i | 0 <= i < |payload|
      ensures Mask(Mask(payload, key), key)[i] == payload[i]
    {
      XorTwice(payload[i], key[i % 4], 8);
    }
  }

  /** The header that starts an encoded frame. */
  function HeaderFor(f: Frame, form: LengthForm): (h: Header)
  {
    var width := if form == Len7 then 0 else if form == Len16 then 2 else 8;
    Header(f.fin, f.opcode, f.key.Some?, |f.payload|, 2 + width + (if f.key.Some? then 4 else 0),
           if f.key.Some? then Some(2 + width) else None)
  }

  /** The extended length of an encoded frame reads back as the payload size. */
  lemma ExtendedLength(data: seq<byte>, n: nat, maskBit: byte, form: LengthForm, rest: seq<byte>)
    requires form == Len7 ==> n <= 125
    requires form == Len16 ==> n < 0x1_0000
    requires form == Len64 ==> n < 0x8000_0000_0000_0000
    requires maskBit == 0 || maskBit == 0x80
    requires |data| >= 1 && data[1..] == LengthBytes(n, maskBit, form) + rest
    ensures |data| >= 2
    ensures (data[1] / 128 == 1) == (maskBit == 0x80)
    ensures var len7 := data[1] % 128;
            var width := ExtendedWidth(len7);
            && width == (if form == Len7 then 0 else if form == Len16 then 2 else 8)
            && |data| == 2 + width + |rest|
            && data[2 + width..] == rest
            && n == if width == 0 then len7 else BigEndian(data[2..2 + width])
  {
    var code := if form == Len7 then n else if form == Len16 then 126 else 127;
    var width := if form == Len7 then 0 else if form == Len16 then 2 else 8;
    assert data[1] == LengthBytes(n, maskBit, form)[0] == maskBit + code;
    assert data[2..2 + width] == LengthBytes(n, maskBit, form)[1..];
    assert data[2 + width..] == rest;
    if form != Len7 {
      assert LengthBytes(n, maskBit, form)[1..] == Bytes(n, width);
      assert Pow256(2) == 0x1_0000 && Pow256(8) == 0x1_0000_0000_0000_0000;
      BytesRoundTrip(n, width);
    }
  }

  /** Everything after the length octets. */
  function Body(f: Frame): (bs: seq<byte>)
    requires f.key.Some? ==> |f.key.value| == 4
    ensures |bs| == |f.payload| + (if f.key.Some? then 4 else 0)
  {
    if f.key.Some? then f.key.value + Mask(f.payload, f.key.value) else f.payload
  }

  lemma FirstByteBits(f: Frame)
    requires f.rsv in {0, 16, 32, 48, 64, 80, 96, 112} && f.opcode < 16
    ensures (FirstByte(f) / 128 == 1) == f.fin && FirstByte(f) % 16 == f.opcode
  {
  }

  lemma EncodedParts(f: Frame, form: LengthForm, rest: seq<byte>)
    requires WellFormed(f, form)
    ensures var maskBit: byte := if f.key.Some? then 0x80 else 0;
            var data := Encode(f, form) + rest;
            && |data| >= 1 && data[0] == FirstByte(f)
            && data[1..] == LengthBytes(|f.payload|, maskBit, form) + (Body(f) + rest)
  {
    var maskBit: byte := if f.key.Some? then 0x80 else 0;
    assert Encode(f, form) + rest == [FirstByte(f)] + (LengthBytes(|f.payload|, maskBit, form) + (Body(f) + rest));
  }

  lemma HeaderRoundTrip(f: Frame, form: LengthForm, rest: seq<byte>)
    requires WellFormed(f, form)
    ensures var data := Encode(f, form) + rest;
            var start := HeaderFor(f, form).headerSize - (if f.key.Some? then 4 else 0);
            && HeaderOf(data) ==
                 (if form == Len64 && |f.payload| > MAX_FRAME_BYTES then TooLong else Parsed(HeaderFor(f, form)))
            && start <= |data| && data[start..] == Body(f) + rest
    ensures TotalFrameLength(HeaderFor(f, form)) == |Encode(f, form)|
  {
    var data := Encode(f, form) + rest;
    var maskBit: byte := if f.key.Some? then 0x80 else 0;
    EncodedParts(f, form, rest);
    FirstByteBits(f);
    ExtendedLength(data, |f.payload|, maskBit, form, Body(f) + rest);
  }

  /** The parse of any frame, in any length form, with anything after it:
      refused exactly when a 64-bit length announces more than 8 MiB, and
      otherwise every field, the exact frame length and the payload come back. */
  lemma RoundTrip(f: Frame, form: LengthForm, rest: seq<byte>)
    requires WellFormed(f, form)
    ensures HeaderOf(Encode(f, form) + rest) ==
            if form == Len64 && |f.payload| > MAX_FRAME_BYTES then TooLong else Parsed(HeaderFor(f, form))
    ensures TotalFrameLength(HeaderFor(f, form)) == |Encode(f, form)|
    ensures HeaderOf(Encode(f, form) + rest).Parsed? ==>
              PayloadOf(Encode(f, form) + rest, HeaderFor(f, form)) == f.payload
  {
    HeaderRoundTrip(f, form, rest);
    var start := HeaderFor(f, form).headerSize - (if f.key.Some? then 4 else 0);
    PayloadAfter(f, Encode(f, form) + rest, start, rest);
  }

  lemma PayloadAfter(f: Frame, data: seq<byte>, k: nat, rest: seq<byte>)
    requires f.key.Some? ==> |f.key.value| == 4
    requires k <= |data|
    requires data[k..] == Body(f) + rest
    ensures f.key.Some? ==>
              && |data| >= k + 4 + |f.payload|
              && data[k..k + 4] == f.key.value
              && Mask(data[k + 4..k + 4 + |f.payload|], f.key.value) == f.payload
    ensures f.key.None? ==> |data| >= k + |f.payload| && data[k..k + |f.payload|] == f.payload
  {
    if f.key.Some? {
      var masked := Mask(f.payload, f.key.value);
      assert data[k..][..4] == f.key.value;
      assert data[k..][4..4 + |masked|] == masked;
      assert data[k + 4..k + 4 + |masked|] == masked;
      MaskInvolution(f.payload, f.key.value);
    } else {
      assert data[k..][..|f.payload|] == f.payload;
    }
  }

  /** What the client writes, a conforming reader gets back: for every payload
      the source can frame, the parse recovers FIN, opcode 1, the exact length
      and the payload if and only if the payload is at most 8 MiB. */
  lemma TextFrameRoundTrip(payload: seq<byte>, key: seq<byte>, rest: seq<byte>)
    requires |key| == 4 && |payload| < 0x1_0000_0000
    ensures var data := Encode(TextFrame(payload, key), MinimalForm(|payload|)) + rest;
            var r := HeaderOf(data);
            && (|payload| <= MAX_FRAME_BYTES <==> r.Parsed?)
            && (r.Parsed? ==>
                  && r.header.fin && r.header.opcode == 1 && r.header.masked
                  && TotalFrameLength(r.header) == |data| - |rest|
                  && PayloadOf(data, r.header) == payload)
  {
    RoundTrip(TextFrame(payload, key), MinimalForm(|payload|), rest);
  }
}
