/**
 WebSocket framing of the plain client (sections 5.2 and 5.3 of RFC 6455): the frames it sends,
 the frames it accepts, and the masking between them.
 */
module WsCodec {
  import opened Bytes
  import opened Options

  const CONTINUATION: byte := 0x0
  const TEXT: byte := 0x1
  const CLOSE: byte := 0x8
  const PING: byte := 0x9
  const PONG: byte := 0xA
  const MAX_INCOMING: nat := 4 * 1024 * 1024
  const SIZE_LIMIT: nat := 0x1_0000_0000_0000_0000

  type Mask = m: seq<byte> | |m| == 4 witness [0, 0, 0, 0]

  // ---------------------------------------------------------------------------
  // Masking
  // ---------------------------------------------------------------------------

  function Pow2(n: nat): nat {
    if n == 0 then 1 else 2 * Pow2(n - 1)
  }

  /** Exclusive or of the low `n` bits. */
  function XorBits(a: nat, b: nat, n: nat): (r: nat)
    ensures r < Pow2(n)
  {
    if n == 0 then 0
    else (if a % 2 == b % 2 then 0 else 1) + 2 * XorBits(a / 2, b / 2, n - 1)
  }

  function Xor(a: byte, b: byte): byte {
    assert Pow2(8) == 256;
    XorBits(a, b, 8)
  }

  /** Bit k of a number, counted from the least significant one. */
  function Bit(n: nat, k: nat): nat {
    if k == 0 then n % 2 else Bit(n / 2, k - 1)
  }

  /** A bit of the exclusive or is set exactly when the two bits differ. */
  lemma {:induction false} XorBitsAreDifferences(a: nat, b: nat, n: nat, k: nat)
    requires k < n
    ensures Bit(XorBits(a, b, n), k) == if Bit(a, k) == Bit(b, k) then 0 else 1
  {
    var x := XorBits(a, b, n);
    assert x / 2 == XorBits(a / 2, b / 2, n - 1);
    if k > 0 { XorBitsAreDifferences(a / 2, b / 2, n - 1, k - 1); }
  }

  /** The bits of a number determine it. */
  lemma {:induction false} SameBits(a: nat, b: nat, n: nat)
    requires a < Pow2(n) && b < Pow2(n) && forall k: nat :: k < n ==> Bit(a, k) == Bit(b, k)
    ensures a == b
  {
    if n > 0 {
      assert Bit(a, 0) == Bit(b, 0);
      forall k: nat | k < n - 1 ensures Bit(a / 2, k) == Bit(b / 2, k) {
        assert Bit(a, k + 1) == Bit(b, k + 1);
      }
      SameBits(a / 2, b / 2, n - 1);
    }
  }

  ghost predicate BitsDiffer(r: byte, a: byte, b: byte) {
    forall k: nat :: k < 8 ==> (Bit(r, k) == 1 <==> Bit(a, k) != Bit(b, k))
  }

  lemma {:induction false} BitIsZeroOrOne(n: nat, k: nat)
    ensures 0 <= Bit(n, k) <= 1
  {
    if k > 0 { BitIsZeroOrOne(n / 2, k - 1); }
  }

  /** The exclusive or of two bytes is the byte whose set bits are those in which they differ. */
  lemma {:induction false} XorIsBitwise(r: byte, a: byte, b: byte)
    ensures r == Xor(a, b) <==> BitsDiffer(r, a, b)
  {
    var x := Xor(a, b);
    forall k: nat | k < 8 ensures Bit(x, k) == if Bit(a, k) == Bit(b, k) then 0 else 1 {
      XorBitsAreDifferences(a, b, 8, k);
    }
    if BitsDiffer(r, a, b) {
      forall k: nat | k < 8 ensures Bit(r, k) == Bit(x, k) { BitIsZeroOrOne(r, k); }
      assert Pow2(8) == 256;
      SameBits(r, x, 8);
    }
  }

  lemma {:induction false} XorBitsTwice(a: nat, b: nat, n: nat)
    requires a < Pow2(n)
    ensures XorBits(XorBits(a, b, n), b, n) == a
  {
    if n > 0 {
      XorBitsTwice(a / 2, b / 2, n - 1);
      var x := XorBits(a, b, n);
      assert x / 2 == XorBits(a / 2, b / 2, n - 1);
    }
  }

  lemma XorTwice(a: byte, b: byte)
    ensures Xor(Xor(a, b), b) == a
  {
    assert Pow2(8) == 256;
    XorBitsTwice(a, b, 8);
  }

  function Masked(payload: seq<byte>, mask: Mask): (r: seq<byte>)
    ensures |r| == |payload|
    ensures forall i :: 0 <= i < |payload| ==> r[i] == Xor(payload[i], mask[i % 4])
  {
    seq(|payload|, i requires 0 <= i < |payload| => Xor(payload[i], mask[i % 4]))
  }

  /** Each byte differs from the payload in the bits that are set in its byte of the mask. */
  ghost predicate MaskedBitwise(r: seq<byte>, payload: seq<byte>, mask: Mask) {
    |r| == |payload| && forall i :: 0 <= i < |payload| ==> BitsDiffer(r[i], payload[i], mask[i % 4])
  }

  /** Masking is that and nothing else; so a mask of zeros changes nothing. */
  lemma {:induction false} MaskIsBitwise(r: seq<byte>, payload: seq<byte>, mask: Mask)
    ensures r == Masked(payload, mask) <==> MaskedBitwise(r, payload, mask)
    ensures Masked(payload, [0, 0, 0, 0]) == payload
  {
    var m := Masked(payload, mask);
    forall i | 0 <= i < |payload| ensures BitsDiffer(m[i], payload[i], mask[i % 4]) {
      XorIsBitwise(m[i], payload[i], mask[i % 4]);
    }
    if MaskedBitwise(r, payload, mask) {
      forall i | 0 <= i < |payload| ensures r[i] == m[i] { XorIsBitwise(r[i], payload[i], mask[i % 4]); }
    }
    forall i | 0 <= i < |payload| ensures Xor(payload[i], 0) == payload[i] { XorWithZero(payload[i]); }
  }

  lemma {:induction false} XorWithZero(a: byte)
    ensures Xor(a, 0) == a && Xor(a, a) == 0
  {
    forall k: nat ensures Bit(0, k) == 0 { ZeroHasNoBits(k); }
    forall k: nat ensures 0 <= Bit(a, k) <= 1 { BitIsZeroOrOne(a, k); }
    XorIsBitwise(a, a, 0);
    XorIsBitwise(0, a, a);
  }

  lemma {:induction false} ZeroHasNoBits(k: nat)
    ensures Bit(0, k) == 0
  {
    if k > 0 { ZeroHasNoBits(k - 1); }
  }

  lemma {:induction false} MaskTwice(payload: seq<byte>, mask: Mask)
    ensures Masked(Masked(payload, mask), mask) == payload && MaskedBitwise(Masked(payload, mask), payload, mask)
  {
    MaskIsBitwise(Masked(payload, mask), payload, mask);
    forall i | 0 <= i < |payload|
      ensures Masked(Masked(payload, mask), mask)[i] == payload[i]
    {
      XorTwice(payload[i], mask[i % 4]);
    }
  }

  /** The receiver's unmasking, in place. */
  method Unmask(a: array<byte>, mask: Mask)
    modifies a
    ensures a[..] == Masked(old(a[..]), mask) && MaskedBitwise(a[..], old(a[..]), mask)
  {
    for i := 0 to a.Length
      invariant forall k :: 0 <= k < i ==> a[k] == Xor(old(a[k]), mask[k % 4])
      invariant forall k :: i <= k < a.Length ==> a[k] == old(a[k])
    {
      a[i] := Xor(a[i], mask[i % 4]);
    }
    MaskIsBitwise(a[..], old(a[..]), mask);
  }

  // ---------------------------------------------------------------------------
  // Big-endian lengths
  // ---------------------------------------------------------------------------

  /** n >> (8 * k) */
  function ShiftedRight(n: nat, k: nat): nat {
    if k == 0 then n else ShiftedRight(n, k - 1) / 256
  }

  function BigEndian(n: nat, k: nat): (s: seq<byte>)
    ensures |s| == k
  {
    if k == 0 then [] else BigEndian(n / 256, k - 1) + [n % 256]
  }

  function FromBigEndian(s: seq<byte>): nat {
    if s == [] then 0 else FromBigEndian(s[..|s| - 1]) * 256 + s[|s| - 1]
  }

  lemma {:induction false} BigEndianRoundTrip(n: nat, k: nat)
    requires ShiftedRight(n, k) == 0
    ensures FromBigEndian(BigEndian(n, k)) == n
  {
    if k > 0 {
      ShiftTwice(n, k - 1);
      BigEndianRoundTrip(n / 256, k - 1);
      assert BigEndian(n, k)[..k - 1] == BigEndian(n / 256, k - 1);
    }
  }

  lemma {:induction false} ShiftTwice(n: nat, k: nat)
    ensures ShiftedRight(n, k + 1) == ShiftedRight(n / 256, k)
  {
    if k > 0 { ShiftTwice(n, k - 1); }
  }

  /** Byte i of the number, counted from the least significant one, is byte i from the end. */
  lemma {:induction false} BigEndianPlaces(n: nat, k: nat, i: nat)
    requires i < k
    ensures BigEndian(n, k)[k - 1 - i] == ByteOf(n, i)
  {
    if i > 0 { BigEndianPlaces(n / 256, k - 1, i - 1); }
  }

  /** The bytes `s` hold n, most significant byte first. */
  ghost predicate HoldsNumber(s: seq<byte>, n: nat) {
    ShiftedRight(n, |s|) == 0 && forall i: nat :: i < |s| ==> s[|s| - 1 - i] == ByteOf(n, i)
  }

  lemma {:induction false} BigEndianHolds(s: seq<byte>, n: nat)
    requires ShiftedRight(n, |s|) == 0 && s == BigEndian(n, |s|)
    ensures HoldsNumber(s, n)
  {
    forall i: nat | i < |s| ensures s[|s| - 1 - i] == ByteOf(n, i) { BigEndianPlaces(n, |s|, i); }
  }

  lemma QuotientOf(q: nat, b: byte)
    ensures (q * 256 + b) / 256 == q && (q * 256 + b) % 256 == b
  {
  }

  lemma {:induction false} BigEndianInverse(s: seq<byte>)
    ensures BigEndian(FromBigEndian(s), |s|) == s
  {
    if s != [] {
      var front, last := s[..|s| - 1], s[|s| - 1];
      assert FromBigEndian(s) / 256 == FromBigEndian(front) && FromBigEndian(s) % 256 == last by {
        QuotientOf(FromBigEndian(front), last);
      }
      assert BigEndian(FromBigEndian(front), |front|) == front by { BigEndianInverse(front); }
      assert s == front + [last];
    }
  }

  lemma {:induction false} FromBigEndianHolds(s: seq<byte>)
    ensures HoldsNumber(s, FromBigEndian(s))
  {
    FromBigEndianFits(s);
    BigEndianInverse(s);
    BigEndianHolds(s, FromBigEndian(s));
  }

  lemma {:induction false} FromBigEndianFits(s: seq<byte>)
    ensures ShiftedRight(FromBigEndian(s), |s|) == 0
  {
    if s != [] {
      var front, last := s[..|s| - 1], s[|s| - 1];
      FromBigEndianFits(front);
      QuotientOf(FromBigEndian(front), last);
      ShiftTwice(FromBigEndian(s), |front|);
    }
  }

  lemma ShiftedAway(n: nat)
    ensures n < 0x1_0000 ==> ShiftedRight(n, 2) == 0
    ensures n < SIZE_LIMIT ==> ShiftedRight(n, 8) == 0
  {
    ShiftByTwo(n, 0);
    ShiftByTwo(n, 2);
    ShiftByTwo(n, 4);
    ShiftByTwo(n, 6);
  }

  lemma ShiftByTwo(n: nat, k: nat)
    ensures ShiftedRight(n, k + 2) == ShiftedRight(n, k) / 0x1_0000
  {
    var m := ShiftedRight(n, k);
    assert ShiftedRight(n, k + 1) == m / 256;
    assert m / 256 / 256 == m / 0x1_0000;
  }

  // ---------------------------------------------------------------------------
  // Frames on the wire
  // ---------------------------------------------------------------------------

  datatype Frame = Frame(opcode: byte, fin: bool, payload: seq<byte>)

  datatype LengthForm = Short | Medium | Long

  /** One frame as it can appear on the wire: any first byte, length form and masking. */
  datatype Wire = Wire(first: byte, form: LengthForm, mask: Option<Mask>, payload: seq<byte>)

  predicate IsControl(opcode: byte) {
    opcode == CLOSE || opcode == PING || opcode == PONG
  }

  predicate LengthAllowed(opcode: byte, fin: bool, n: nat) {
    n <= MAX_INCOMING && (IsControl(opcode) ==> fin && n <= 125)
  }

  function FrameOf(w: Wire): Frame {
    Frame(w.first % 16, w.first >= 0x80, w.payload)
  }

  /** The payload length fits its length form. */
  predicate Fits(w: Wire) {
    && |w.payload| < SIZE_LIMIT
    && (w.form.Short? ==> |w.payload| < 126)
    && (w.form.Medium? ==> |w.payload| < 0x1_0000)
  }

  predicate Acceptable(w: Wire) {
    Fits(w) && LengthAllowed(w.first % 16, w.first >= 0x80, |w.payload|)
  }

  /** The second byte, without the mask bit, and the extended length that follows it. */
  function LengthBytes(form: LengthForm, n: nat): (byte, seq<byte>)
    requires form.Short? ==> n < 126
  {
    match form
    case Short => (n, [])
    case Medium => (126, BigEndian(n, 2))
    case Long => (127, BigEndian(n, 8))
  }

  function Header(w: Wire): seq<byte>
    requires Fits(w)
  {
    var (code, ext) := LengthBytes(w.form, |w.payload|);
    [w.first, if w.mask.Some? then 0x80 + code else code] + ext
  }

  function Body(w: Wire): seq<byte> {
    if w.mask.Some? then w.mask.value + Masked(w.payload, w.mask.value) else w.payload
  }

  function WireBytes(w: Wire): seq<byte>
    requires Fits(w)
  {
    Header(w) + Body(w)
  }

  function HeaderSize(form: LengthForm): nat {
    match form
    case Short => 2
    case Medium => 4
    case Long => 10
  }

  /** The length code and the bytes that extend it. */
  ghost predicate LengthLaidOut(s: seq<byte>, form: LengthForm, n: nat) {
    && |s| >= HeaderSize(form)
    && (form.Short? ==> s[1] % 128 == n)
    && (form.Medium? ==> s[1] % 128 == 126 && HoldsNumber(s[2..4], n))
    && (form.Long? ==> s[1] % 128 == 127 && HoldsNumber(s[2..10], n))
  }

  /** Section 5.2 of RFC 6455, bit by bit: first byte, mask bit, length, mask, payload. */
  ghost predicate LaidOut(s: seq<byte>, w: Wire) {
    var at := HeaderSize(w.form);
    && LengthLaidOut(s, w.form, |w.payload|)
    && s[0] == w.first && (Bit(s[1], 7) == 1 <==> w.mask.Some?)
    && (w.mask.None? ==> s[at..] == w.payload)
    && (w.mask.Some? ==> |s| >= at + 4 && s[at..at + 4] == w.mask.value && MaskedBitwise(s[at + 4..], w.payload, w.mask.value))
  }

  lemma {:induction false} WireIsLaidOut(w: Wire)
    requires Fits(w)
    ensures LaidOut(WireBytes(w), w)
  {
    var s, h, at := WireBytes(w), Header(w), HeaderSize(w.form);
    assert |h| == at && s[..at] == h && s[at..] == Body(w);
    assert s[0] == h[0] && s[1] == h[1];
    TopBit(s[1]);
    assert LengthLaidOut(s, w.form, |w.payload|) by { LengthIsLaidOut(s, w); }
    if w.mask.Some? {
      assert s[at..at + 4] == Body(w)[..4] && s[at + 4..] == Body(w)[4..];
      MaskIsBitwise(s[at + 4..], w.payload, w.mask.value);
    }
  }

  lemma {:induction false} LengthIsLaidOut(s: seq<byte>, w: Wire)
    requires Fits(w) && |s| >= |Header(w)| && s[..|Header(w)|] == Header(w)
    ensures LengthLaidOut(s, w.form, |w.payload|)
  {
    var h, n, ext := Header(w), |w.payload|, LengthBytes(w.form, |w.payload|).1;
    assert s[1] == h[1] && s[2..|h|] == h[2..] == ext;
    ShiftedAway(n);
    if ext != [] { BigEndianHolds(ext, n); }
  }

  lemma {:induction false} TopBit(b: byte)
    ensures Bit(b, 7) == 1 <==> b >= 0x80
  {
    var c := b / 2 / 2 / 2;
    assert c == b / 8 && c / 2 / 2 / 2 / 2 == b / 128;
    assert Bit(b, 7) == Bit(b / 2, 6) == Bit(b / 2 / 2, 5) == Bit(c, 4);
    assert Bit(c, 4) == Bit(c / 2, 3) == Bit(c / 2 / 2, 2) == Bit(c / 2 / 2 / 2, 1) == Bit(c / 2 / 2 / 2 / 2, 0);
  }

  /** FIN is the top bit of the first byte and the opcode its four low bits. */
  lemma {:induction false} FrameFieldsAreBits(w: Wire, k: nat)
    requires k < 4
    ensures FrameOf(w).fin <==> Bit(w.first, 7) == 1
    ensures FrameOf(w).opcode < 16 && Bit(FrameOf(w).opcode, k) == Bit(w.first, k)
  {
    TopBit(w.first);
    LowBits(w.first / 16, w.first % 16, k);
  }

  /** Adding multiples of sixteen does not change the four low bits. */
  lemma {:induction false} LowBits(q: nat, m: nat, k: nat)
    requires k < 4
    ensures Bit(16 * q + m, k) == Bit(m, k)
  {
    Halves(8 * q, m);
    Halves(4 * q, m / 2);
    Halves(2 * q, m / 2 / 2);
    Halves(q, m / 2 / 2 / 2);
    if k == 2 {
      assert Bit(8 * q + m / 2, 1) == Bit(m / 2, 1);
    } else if k == 3 {
      assert Bit(4 * q + m / 2 / 2, 1) == Bit(m / 2 / 2, 1);
      assert Bit(8 * q + m / 2, 2) == Bit(m / 2, 2);
    }
  }

  lemma Halves(q: nat, m: nat)
    ensures (2 * q + m) / 2 == q + m / 2 && (2 * q + m) % 2 == m % 2
  {
  }

  // ---------------------------------------------------------------------------
  // Sending
  // ---------------------------------------------------------------------------

  function ShortestForm(n: nat): LengthForm {
    if n < 126 then Short else if n < 0x1_0000 then Medium else Long
  }

  /** What the client sends for an opcode and a payload. */
  function ClientFrame(opcode: byte, payload: seq<byte>, mask: Mask): Wire {
    Wire(0x80 + opcode % 16, ShortestForm(|payload|), Some(mask), payload)
  }

  method SendClientFrame(opcode: byte, payload: seq<byte>, mask: Mask) returns (frame: seq<byte>)
    requires |payload| < SIZE_LIMIT
    ensures frame == WireBytes(ClientFrame(opcode, payload, mask))
    ensures LaidOut(frame, ClientFrame(opcode, payload, mask)) && frame[0] == 0x80 + opcode % 16
    ensures var n := |payload|; frame[1] == 0x80 + if n < 126 then n else if n < 0x1_0000 then 126 else 127
  {
    ghost var w := ClientFrame(opcode, payload, mask);
    frame := [0x80 + opcode % 16];
    var n := |payload|;
    if n < 126 {
      frame := frame + [0x80 + n];
    } else if n < 0x1_0000 {
      frame := frame + [0x80 + 126];
      frame := frame + [n / 256 % 256, n % 256];
      assert BigEndian(n / 256, 1) == [n / 256 % 256];
    } else {
      frame := frame + [0x80 + 127];
      var i := 8;
      while i > 0
        invariant 0 <= i <= 8
        invariant frame == [0x80 + opcode % 16, 0x80 + 127] + BigEndian(ShiftedRight(n, i), 8 - i)
      {
        i := i - 1;
        frame := frame + [ShiftedRight(n, i) % 256];
      }
    }
    assert frame == Header(w);
    frame := frame + mask;
    for i := 0 to n
      invariant frame == Header(w) + mask + Masked(payload, mask)[..i]
    {
      frame := frame + [Xor(payload[i], mask[i % 4])];
    }
    assert Masked(payload, mask)[..n] == Masked(payload, mask);
    ConcatAssoc(Header(w), mask, Masked(payload, mask));
    WireIsLaidOut(w);
  }

  // ---------------------------------------------------------------------------
  // Receiving
  // ---------------------------------------------------------------------------

  /** Payload length and number of bytes before mask and payload; None when bytes are missing. */
  function DecodeLength(s: seq<byte>): (r: Option<(nat, nat)>)
    requires |s| >= 2
    ensures r.Some? ==> 2 <= r.value.1 <= |s|
  {
    var code := s[1] % 128;
    if code == 126 then
      if |s| < 4 then None else Some((FromBigEndian(s[2..4]), 4))
    else if code == 127 then
      if |s| < 10 then None else Some((FromBigEndian(s[2..10]), 10))
    else Some((code, 2))
  }

  /** The frame at the front of a stream and what follows it; None is a dead connection. */
  function Decode(s: seq<byte>): (r: Option<(Frame, seq<byte>)>)
    ensures r.Some? ==> |r.value.1| <= |s| - 2 && |r.value.0.payload| <= MAX_INCOMING
  {
    if |s| < 2 then None
    else
      var fin, opcode, masked := s[0] >= 0x80, s[0] % 16, s[1] >= 0x80;
      var length := DecodeLength(s);
      if length.None? then None
      else
        var (n, at) := length.value;
        if !LengthAllowed(opcode, fin, n) then None
        else
          match DecodeBody(s[at..], n, masked)
          case None => None
          case Some((payload, rest)) => Some((Frame(opcode, fin, payload), rest))
  }

  /** Mask and payload at the front of `t`, and what follows them. */
  function DecodeBody(t: seq<byte>, n: nat, masked: bool): (r: Option<(seq<byte>, seq<byte>)>)
    ensures r.Some? ==> |r.value.0| == n && |r.value.1| <= |t|
  {
    if masked then
      if 4 + n > |t| then None else Some((Masked(t[4..4 + n], t[..4]), t[4 + n..]))
    else if n > |t| then None
    else Some((t[..n], t[n..]))
  }

  method ReceiveLength(s: seq<byte>) returns (r: Option<(nat, nat)>)
    requires |s| >= 2
    ensures r == DecodeLength(s)
    ensures r.Some? ==> exists form :: LengthLaidOut(s, form, r.value.0) && r.value.1 == HeaderSize(form)
  {
    var n := s[1] % 128;
    if n == 126 {
      if |s| < 4 { return None; }
      assert s[2..4] == [s[2], s[3]] && [s[2], s[3]][..1] == [s[2]] && [s[2]][..0] == [];
      assert FromBigEndian([s[2]]) == s[2];
      FromBigEndianHolds(s[2..4]);
      assert LengthLaidOut(s, Medium, FromBigEndian(s[2..4]));
      return Some((s[2] as int * 256 + s[3], 4));
    }
    if n == 127 {
      if |s| < 10 { return None; }
      var ext := s[2..10];
      var size: nat := 0;
      for i := 0 to 8
        invariant size == FromBigEndian(ext[..i])
      {
        assert ext[..i + 1][..i] == ext[..i];
        size := size * 256 + ext[i];
      }
      assert ext[..8] == ext;
      FromBigEndianHolds(ext);
      assert LengthLaidOut(s, Long, size);
      return Some((size, 10));
    }
    assert LengthLaidOut(s, Short, n);
    r := Some((n, 2));
  }

  method ReceiveWsFrame(s: seq<byte>) returns (r: Option<(Frame, seq<byte>)>)
    ensures r == Decode(s)
  {
    if |s| < 2 { return None; }
    var fin, opcode, masked := s[0] >= 0x80, s[0] % 16, s[1] >= 0x80;
    var length := ReceiveLength(s);
    if length.None? { return None; }
    var (n, at) := length.value;
    var controlFrame := opcode == CLOSE || opcode == PING || opcode == PONG;
    if controlFrame && (!fin || n > 125) { return None; }
    if n > MAX_INCOMING { return None; }
    var body := ReceiveBody(s[at..], n, masked);
    if body.None? { return None; }
    r := Some((Frame(opcode, fin, body.value.0), body.value.1));
  }

  method ReceiveBody(t: seq<byte>, n: nat, masked: bool) returns (r: Option<(seq<byte>, seq<byte>)>)
    ensures r == DecodeBody(t, n, masked)
    ensures r.Some? <==> |t| >= if masked then 4 + n else n
    ensures r.Some? && masked ==> MaskedBitwise(r.value.0, t[4..4 + n], t[..4]) && r.value.1 == t[4 + n..]
    ensures r.Some? && !masked ==> r.value.0 + r.value.1 == t && |r.value.0| == n
  {
    if !masked {
      if n > |t| { return None; }
      return Some((t[..n], t[n..]));
    }
    if 4 > |t| { return None; }
    if 4 + n > |t| { return None; }
    var payload := Unmasked(t[4..4 + n], t[..4]);
    r := Some((payload, t[4 + n..]));
  }

  method Unmasked(payload: seq<byte>, mask: Mask) returns (r: seq<byte>)
    ensures r == Masked(payload, mask) && MaskedBitwise(r, payload, mask)
  {
    var a := new byte[|payload|](i requires 0 <= i < |payload| => payload[i]);
    assert a[..] == payload;
    Unmask(a, mask);
    r := a[..];
  }

  // ---------------------------------------------------------------------------
  // Both directions
  // ---------------------------------------------------------------------------

  lemma LengthFieldRoundTrip(n: nat)
    ensures n < 0x1_0000 ==> FromBigEndian(BigEndian(n, 2)) == n
    ensures n < SIZE_LIMIT ==> FromBigEndian(BigEndian(n, 8)) == n
  {
    ShiftedAway(n);
    if n < 0x1_0000 { BigEndianRoundTrip(n, 2); }
    if n < SIZE_LIMIT { BigEndianRoundTrip(n, 8); }
  }

  lemma LengthOfHeader(w: Wire, t: seq<byte>)
    requires Fits(w)
    ensures var s := Header(w) + t;
            |s| >= 2 && DecodeLength(s) == Some((|w.payload|, |Header(w)|))
  {
    var s, n, code, ext := Header(w) + t, |w.payload|, LengthBytes(w.form, |w.payload|).0, LengthBytes(w.form, |w.payload|).1;
    assert s[1] % 128 == code;
    assert s[2..2 + |ext|] == ext;
    LengthFieldRoundTrip(n);
  }

  /** Every frame, whatever its form, decodes to what it carries and leaves what follows it, or is refused. */
  lemma DecodeOfWire(w: Wire, rest: seq<byte>)
    requires Fits(w)
    ensures Decode(WireBytes(w) + rest) == if Acceptable(w) then Some((FrameOf(w), rest)) else None
  {
    var h, t := Header(w), Body(w) + rest;
    assert WireBytes(w) + rest == h + t by { ConcatAssoc(h, Body(w), rest); }
    LengthOfHeader(w, t);
    assert (h + t)[0] == w.first && (h + t)[1] == h[1] && (h + t)[|h|..] == t;
    BodyDecodes(w, rest);
  }

  lemma BodyDecodes(w: Wire, rest: seq<byte>)
    ensures DecodeBody(Body(w) + rest, |w.payload|, w.mask.Some?) == Some((w.payload, rest))
  {
    var t, n := Body(w) + rest, |w.payload|;
    if w.mask.Some? {
      assert t[..4] == w.mask.value && t[4..4 + n] == Masked(w.payload, w.mask.value) && t[4 + n..] == rest;
      MaskTwice(w.payload, w.mask.value);
    } else {
      assert t[..n] == w.payload && t[n..] == rest;
    }
  }

  /** Conversely, only acceptable frames decode: the stream starts with one that carries the result. */
  lemma DecodeIsSound(s: seq<byte>) returns (w: Wire)
    requires Decode(s).Some?
    ensures Acceptable(w) && FrameOf(w) == Decode(s).value.0
    ensures s == WireBytes(w) + Decode(s).value.1
  {
    var (frame, rest) := Decode(s).value;
    var (n, at) := DecodeLength(s).value;
    var form := HeaderForm(s);
    var masked := s[1] >= 0x80;
    var t := s[at..];
    assert DecodeBody(t, n, masked) == Some((frame.payload, rest));
    w := Wire(s[0], form, if masked then Some(t[..4]) else None, frame.payload);
    assert |w.payload| == n && Fits(w);
    assert Header(w) == s[..at];
    assert Body(w) + rest == t by { BodyOf(t, n, masked, w.mask); }
    assert s == s[..at] + s[at..];
    ConcatAssoc(Header(w), Body(w), rest);
  }

  /** The same down to the bits: what decodes was laid out like that at the front of the stream. */
  lemma {:induction false} DecodeReadsBits(s: seq<byte>, k: nat) returns (w: Wire)
    requires Decode(s).Some? && k < 4
    ensures var (frame, rest) := Decode(s).value;
            && |rest| <= |s| && s[|s| - |rest|..] == rest && LaidOut(s[..|s| - |rest|], w)
            && frame.payload == w.payload && frame.opcode < 16
            && (frame.fin <==> Bit(s[0], 7) == 1) && Bit(frame.opcode, k) == Bit(s[0], k)
  {
    w := DecodeIsSound(s);
    assert s[..|WireBytes(w)|] == WireBytes(w);
    WireIsLaidOut(w);
    FrameFieldsAreBits(w, k);
  }

  lemma BodyOf(t: seq<byte>, n: nat, masked: bool, mask: Option<Mask>)
    requires DecodeBody(t, n, masked).Some? && mask == if masked then Some(t[..4]) else None
    ensures var (payload, rest) := DecodeBody(t, n, masked).value;
            Body(Wire(0, Short, mask, payload)) + rest == t
  {
    if masked {
      MaskTwice(t[4..4 + n], t[..4]);
      assert t == t[..4] + t[4..4 + n] + t[4 + n..];
    }
  }

  /** The length form used by a stream, which determines its header. */
  lemma HeaderForm(s: seq<byte>) returns (form: LengthForm)
    requires |s| >= 2 && DecodeLength(s).Some?
    ensures var (n, at) := DecodeLength(s).value;
            && (form.Short? ==> n < 126) && (form.Medium? ==> n < 0x1_0000)
            && s[..at] == [s[0], s[1] - s[1] % 128 + LengthBytes(form, n).0] + LengthBytes(form, n).1
  {
    var code := s[1] % 128;
    if code == 126 {
      form := Medium;
      assert s[2..4] == [s[2], s[3]];
      FromTwoBytes(s[2], s[3]);
      BigEndianInverse(s[2..4]);
      assert s[..4] == [s[0], s[1]] + s[2..4];
    } else if code == 127 {
      form := Long;
      BigEndianInverse(s[2..10]);
      assert s[..10] == [s[0], s[1]] + s[2..10];
    } else {
      form := Short;
    }
  }

  lemma FromTwoBytes(a: byte, b: byte)
    ensures FromBigEndian([a, b]) == a as int * 256 + b < 0x1_0000
  {
    assert [a, b][..1] == [a] && [a][..0] == [];
    assert FromBigEndian([a]) == a;
  }

  /** Decoding frame after frame, while it works. */
  function DecodeFrames(s: seq<byte>, count: nat): Option<(seq<Frame>, seq<byte>)> {
    if count == 0 then Some(([], s))
    else
      match Decode(s)
      case None => None
      case Some((f, rest)) =>
        match DecodeFrames(rest, count - 1)
        case None => None
        case Some((fs, end)) => Some(([f] + fs, end))
  }

  function WireStream(ws: seq<Wire>): seq<byte>
    requires forall i :: 0 <= i < |ws| ==> Acceptable(ws[i])
  {
    if ws == [] then []
    else
      assert Acceptable(ws[0]);
      WireBytes(ws[0]) + WireStream(ws[1..])
  }

  function FramesOf(ws: seq<Wire>): (fs: seq<Frame>)
    ensures |fs| == |ws|
  {
    if ws == [] then [] else [FrameOf(ws[0])] + FramesOf(ws[1..])
  }

  /** The concatenation of any frames decodes to the same opcodes and payloads, to the last byte. */
  lemma {:induction false} DecodeOfStream(ws: seq<Wire>, rest: seq<byte>)
    requires forall i :: 0 <= i < |ws| ==> Acceptable(ws[i])
    ensures DecodeFrames(WireStream(ws) + rest, |ws|) == Some((FramesOf(ws), rest))
  {
    if ws == [] {
      assert WireStream(ws) + rest == rest;
    } else {
      var tail := WireStream(ws[1..]) + rest;
      ConcatAssoc(WireBytes(ws[0]), WireStream(ws[1..]), rest);
      DecodeOfWire(ws[0], tail);
      DecodeOfStream(ws[1..], rest);
    }
  }

  /** What the client may send is acceptable, so it decodes to its opcode and payload for every mask. */
  lemma ClientFrameRoundTrip(opcode: byte, payload: seq<byte>, mask: Mask, rest: seq<byte>)
    requires opcode < 16 && |payload| <= MAX_INCOMING && (IsControl(opcode) ==> |payload| <= 125)
    ensures Acceptable(ClientFrame(opcode, payload, mask))
    ensures Decode(WireBytes(ClientFrame(opcode, payload, mask)) + rest) == Some((Frame(opcode, true, payload), rest))
  {
    var w := ClientFrame(opcode, payload, mask);
    assert w.first == 0x80 + opcode;
    assert Acceptable(w) && FrameOf(w) == Frame(opcode, true, payload);
    DecodeOfWire(w, rest);
  }
}
