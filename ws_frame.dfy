/** The base framing of RFC 6455 (section 5.2) as the std `ws` module implements it:
    `unmask`, `writeFrame` and `readFrame`. */
module WsFrame {
  import opened Wrappers
  import opened Bytes

  /** An opcode is the low nibble of a frame's first byte. */
  type Opcode = x: int | 0 <= x < 16

  const Continue: Opcode := 0
  const TextFrame: Opcode := 1
  const BinaryFrame: Opcode := 2
  const Close: Opcode := 8
  const Ping: Opcode := 9
  const Pong: Opcode := 10

  /** One frame as the codec sees it; `mask` is absent for unmasked frames. */
  datatype Frame = Frame(isLastFrame: bool, opcode: Opcode, mask: Option<seq<Byte>>, payload: seq<Byte>)

  datatype FrameError =
    | InvalidMask(length: nat)   // writeFrame: "invalid mask. mask must be 4 bytes"
    | InvalidSignature           // readFrame: top nibble neither 0b1000 nor 0b0000
    | UnexpectedEof              // the stream ended before the frame was complete

  /** A frame read from the front of a byte stream, and how many bytes it took. */
  datatype Decoded = Decoded(frame: Frame, consumed: nat)

  // ---------------------------------------------------------------- masking

  /** The key byte XORed into payload byte `i`: `mask[i & 3]`.  An index past a
      short mask reads `undefined`, which XORs as 0. */
  function KeyByte(m: seq<Byte>, i: nat): Byte {
    if i % 4 < |m| then m[i % 4] else 0
  }

  /** The payload after `unmask(payload, mask)`: without a mask it is left alone. */
  function Masked(p: seq<Byte>, mask: Option<seq<Byte>>): (r: seq<Byte>)
    ensures |r| == |p|
  {
    match mask
    case None => p
    case Some(m) => seq(|p|, k requires 0 <= k < |p| => Xor(p[k], KeyByte(m, k)))
  }

  /** XOR with the same repeating key is its own inverse (section 5.3 of RFC 6455). */
  lemma MaskedTwice(p: seq<Byte>, mask: Option<seq<Byte>>)
    ensures Masked(Masked(p, mask), mask) == p
  {
    if mask.Some? {
      var q := Masked(Masked(p, mask), mask);
      forall k | 0 <= k < |p| ensures q[k] == p[k] {
        XorTwice(p[k], KeyByte(mask.value, k));
      }
    }
  }

  /** `unmask`: XOR byte i of the payload, in place, with `mask[i & 3]`. */
  method Unmask(payload: array<Byte>, mask: Option<seq<Byte>>)
    modifies payload
    ensures payload[..] == Masked(old(payload[..]), mask)
  {
    if mask.Some? {
      var i := 0;
      while i < payload.Length
        invariant 0 <= i <= payload.Length
        invariant forall k :: 0 <= k < i ==> payload[k] == Xor(old(payload[k]), KeyByte(mask.value, k))
        invariant forall k :: i <= k < payload.Length ==> payload[k] == old(payload[k])
      {
        payload[i] := Xor(payload[i], KeyByte(mask.value, i));
        i := i + 1;
      }
    }
  }

  // --------------------------------------------------------------- encoding

  /** The 7-bit length field: the length itself, or the marker 126 (16-bit
      extension) or 127 (64-bit extension).  The 16-bit form only covers
      lengths below 0xffff, so 65535 itself takes the 64-bit form. */
  function LengthField(len: nat): (l: nat)
    ensures l < 128
  {
    if len < 126 then len else if len < 0xffff then 126 else 127
  }

  /** The extended length bytes that follow the two-byte base header. */
  function ExtendedLength(len: nat): seq<Byte> {
    if len < 126 then [] else if len < 0xffff then BigEndian(len, 2) else BigEndian(len, 8)
  }

  /** The first two bytes: FIN is always set (`0x80 | opcode`), then the
      mask bit and the 7-bit length field.  The bits OR-ed together are
      disjoint, so the OR is a sum. */
  function BaseHeader(opcode: Opcode, masked: bool, len: nat): seq<Byte> {
    [0x80 + opcode, (if masked then 0x80 else 0) + LengthField(len)]
  }

  /** The bytes `writeFrame` sends for `f`, or its mask error.  `isLastFrame`
      is ignored: every frame goes out with FIN set. */
  function EncodeFrame(f: Frame): (r: Result<seq<Byte>, FrameError>)
    ensures r.Err? <==> f.mask.Some? && |f.mask.value| != 4
    ensures r.Err? ==> r.error == InvalidMask(|f.mask.value|)
  {
    if f.mask.Some? && |f.mask.value| != 4 then Err(InvalidMask(|f.mask.value|))
    else
      var key := if f.mask.Some? then f.mask.value else [];
      Ok(BaseHeader(f.opcode, f.mask.Some?, |f.payload|) + ExtendedLength(|f.payload|)
         + key + Masked(f.payload, f.mask))
  }

  /** The two base header bytes carry FIN, the opcode, the mask bit and the length field. */
  lemma BaseHeaderFields(opcode: Opcode, masked: bool, len: nat)
    ensures var h := BaseHeader(opcode, masked, len);
      && h[0] / 16 == 8 && h[0] % 16 == opcode
      && (h[1] / 128 == 1) == masked
      && h[1] % 128 == LengthField(len)
  {
  }

  /** The extended length bytes hold the payload length, big-endian. */
  lemma ExtendedLengthValue(len: nat)
    requires len < Pow256(8)
    ensures |ExtendedLength(len)| == (if len < 126 then 0 else if len < 0xffff then 2 else 8)
    ensures len >= 126 ==> FromBigEndian(ExtendedLength(len)) == len
  {
    if 126 <= len < 0xffff {
      assert Pow256(2) == 0x1_0000;
      BigEndianRoundTrip(len, 2);
    } else if len >= 0xffff {
      BigEndianRoundTrip(len, 8);
    }
  }

  /** The layout of an encoded frame: base header, extended length, key, masked payload. */
  lemma EncodeFrameLayout(f: Frame)
    requires f.mask.None? || |f.mask.value| == 4
    requires |f.payload| < Pow256(8)
    ensures EncodeFrame(f).Ok?
    ensures var bs := EncodeFrame(f).value;
      var len := |f.payload|;
      var ext := |ExtendedLength(len)|;
      var keyLen := if f.mask.Some? then 4 else 0;
      && ext == (if len < 126 then 0 else if len < 0xffff then 2 else 8)
      && |bs| == 2 + ext + keyLen + len
      && bs[0] / 16 == 8 && bs[0] % 16 == f.opcode
      && (bs[1] / 128 == 1) == f.mask.Some?
      && bs[1] % 128 == LengthField(len)
      && (ext > 0 ==> FromBigEndian(bs[2..2 + ext]) == len)
      && (f.mask.Some? ==> bs[2 + ext..2 + ext + 4] == f.mask.value)
      && bs[2 + ext + keyLen..] == Masked(f.payload, f.mask)
  {
    var len := |f.payload|;
    var h := BaseHeader(f.opcode, f.mask.Some?, len);
    var e := ExtendedLength(len);
    var key := if f.mask.Some? then f.mask.value else [];
    var bs := EncodeFrame(f).value;
    assert bs == h + e + key + Masked(f.payload, f.mask);
    BaseHeaderFields(f.opcode, f.mask.Some?, len);
    ExtendedLengthValue(len);
    Slices(h, e, key, Masked(f.payload, f.mask));
  }

  /** The four parts of `a + b + c + d`, sliced back out. */
  lemma Slices<T>(a: seq<T>, b: seq<T>, c: seq<T>, d: seq<T>)
    ensures var s := a + b + c + d;
      && s[..|a|] == a
      && s[|a|..|a| + |b|] == b
      && s[|a| + |b|..|a| + |b| + |c|] == c
      && s[|a| + |b| + |c|..] == d
  {
    var s := a + b + c + d;
    assert s[..|a| + |b| + |c|] == a + b + c;
    assert (a + b + c)[..|a| + |b|] == a + b;
  }

  /** `writeFrame`: throws for a mask of the wrong size; otherwise masks the
      caller's payload buffer in place and emits header, key and payload. */
  method WriteFrame(isLastFrame: bool, opcode: Opcode, mask: Option<seq<Byte>>, payload: array<Byte>)
      returns (r: Result<seq<Byte>, FrameError>)
    modifies payload
    ensures r == EncodeFrame(Frame(isLastFrame, opcode, mask, old(payload[..])))
    ensures payload[..] == if r.Ok? then Masked(old(payload[..]), mask) else old(payload[..])
  {
    var payloadLength := payload.Length;
    if mask.Some? && |mask.value| != 4 {
      return Err(InvalidMask(|mask.value|));
    }
    var header := BaseHeader(opcode, mask.Some?, payloadLength) + ExtendedLength(payloadLength);
    if mask.Some? {
      header := header + mask.value;
    }
    ghost var original := payload[..];
    Unmask(payload, mask);
    if mask.None? {
      assert header == header + [];
    }
    header := header + payload[..];
    assert payload[..] == Masked(original, mask);
    r := Ok(header);
  }

  /** The same buffer written twice with a 4-byte mask, as a client's two
      `send(buf)` calls do once the first write has run: the first write
      leaves the buffer masked, so the second frame carries the original
      bytes unmasked and the buffer ends as it started. */
  method WriteTwice(opcode: Opcode, mask: seq<Byte>, payload: array<Byte>)
      returns (first: Result<seq<Byte>, FrameError>, second: Result<seq<Byte>, FrameError>)
    requires |mask| == 4
    modifies payload
    ensures first == EncodeFrame(Frame(true, opcode, Some(mask), old(payload[..])))
    ensures second == EncodeFrame(Frame(true, opcode, Some(mask), Masked(old(payload[..]), Some(mask))))
    ensures second.Ok? && second.value[|second.value| - payload.Length..] == old(payload[..])
    ensures payload[..] == old(payload[..])
  {
    ghost var original := payload[..];
    first := WriteFrame(true, opcode, Some(mask), payload);
    second := WriteFrame(true, opcode, Some(mask), payload);
    MaskedTwice(original, Some(mask));
    var m := Masked(Masked(original, Some(mask)), Some(mask));
    var head := BaseHeader(opcode, true, |original|) + ExtendedLength(|original|) + mask;
    assert second.value == head + m;
    assert (head + m)[|head + m| - |m|..] == m;
  }

  // --------------------------------------------------------------- decoding

  /** `readFrame` applied to the bytes still to be read.  The payload is
      returned as read, still masked; the caller unmasks it. */
  function ReadFrame(input: seq<Byte>): (r: Result<Decoded, FrameError>)
    ensures r.Ok? ==> 2 <= r.value.consumed <= |input|
    ensures |input| > 0 && input[0] / 16 != 8 && input[0] / 16 != 0 ==> r == Err(InvalidSignature)
    ensures r.Ok? ==> r.value.frame.isLastFrame == (input[0] / 16 == 8)
    ensures r.Ok? ==> r.value.frame.opcode == input[0] % 16
    ensures r.Ok? ==> r.value.frame.mask.Some? == (input[1] / 128 == 1)
    ensures r.Ok? ==> var n := r.value.consumed; var p := r.value.frame.payload;
      |p| <= n && input[n - |p|..n] == p
  {
    if |input| < 1 then Err(UnexpectedEof)
    else if input[0] / 16 != 8 && input[0] / 16 != 0 then Err(InvalidSignature)
    else if |input| < 2 then Err(UnexpectedEof)
    else ReadAfterHeader(input, input[0] / 16 == 8, input[0] % 16,
                         input[1] / 128 == 1, input[1] % 128)
  }

  /** The rest of `readFrame` once the two base header bytes are decoded:
      marker 126 reads a 16-bit length, 127 a 64-bit one; then the key if the
      mask bit is set; then exactly the payload length in bytes. */
  function ReadAfterHeader(input: seq<Byte>, fin: bool, opcode: Opcode, hasMask: bool, len7: nat)
      : (r: Result<Decoded, FrameError>)
    requires |input| >= 2
    ensures r.Ok? ==> 2 <= r.value.consumed <= |input|
    ensures r.Ok? ==> r.value.frame.isLastFrame == fin && r.value.frame.opcode == opcode
    ensures r.Ok? ==> r.value.frame.mask.Some? == hasMask
    ensures r.Ok? ==> var n := r.value.consumed; var p := r.value.frame.payload;
      |p| <= n && input[n - |p|..n] == p
  {
    var ext := if len7 == 126 then 2 else if len7 == 127 then 8 else 0;
    if |input| < 2 + ext then Err(UnexpectedEof)
    else
      var len := if ext == 0 then len7 else FromBigEndian(input[2..2 + ext]);
      var keyEnd := 2 + ext + (if hasMask then 4 else 0);
      if |input| < keyEnd + len then Err(UnexpectedEof)
      else
        var mask := if hasMask then Some(input[2 + ext..keyEnd]) else None;
        Ok(Decoded(Frame(fin, opcode, mask, input[keyEnd..keyEnd + len]), keyEnd + len))
  }

  /** Reading back what writeFrame wrote, followed by anything at all, gives the
      same opcode and mask, FIN set, the masked payload (which unmasks to the
      original, see MaskedTwice), and consumes exactly the encoded bytes. */
  lemma ReadFrameOfEncodeFrame(f: Frame, rest: seq<Byte>)
    requires f.mask.None? || |f.mask.value| == 4
    requires |f.payload| < Pow256(8)
    ensures EncodeFrame(f).Ok?
    ensures ReadFrame(EncodeFrame(f).value + rest)
         == Ok(Decoded(Frame(true, f.opcode, f.mask, Masked(f.payload, f.mask)), |EncodeFrame(f).value|))
  {
    var input := EncodeFrame(f).value + rest;
    var len := |f.payload|;
    var ext := |ExtendedLength(len)|;
    var len7 := LengthField(len);
    EncodedInput(f, rest);
    assert ReadFrame(input) == ReadAfterHeader(input, true, f.opcode, f.mask.Some?, len7);
    ReadAfterHeaderOk(input, true, f.opcode, f.mask.Some?, len7, len, ext);
  }

  /** The layout facts of EncodeFrameLayout, read through any trailing bytes. */
  lemma EncodedInput(f: Frame, rest: seq<Byte>)
    requires f.mask.None? || |f.mask.value| == 4
    requires |f.payload| < Pow256(8)
    ensures EncodeFrame(f).Ok?
    ensures var input := EncodeFrame(f).value + rest;
      var len := |f.payload|;
      var ext := |ExtendedLength(len)|;
      var keyLen := if f.mask.Some? then 4 else 0;
      var len7 := LengthField(len);
      && ext == (if len7 == 126 then 2 else if len7 == 127 then 8 else 0)
      && |input| >= 2 + ext + keyLen + len
      && input[0] / 16 == 8 && input[0] % 16 == f.opcode
      && (input[1] / 128 == 1) == f.mask.Some?
      && input[1] % 128 == len7
      && (ext == 0 ==> len7 == len)
      && (ext > 0 ==> FromBigEndian(input[2..2 + ext]) == len)
      && (f.mask.Some? ==> input[2 + ext..2 + ext + 4] == f.mask.value)
      && input[2 + ext + keyLen..2 + ext + keyLen + len] == Masked(f.payload, f.mask)
  {
    EncodeFrameLayout(f);
    var bs := EncodeFrame(f).value;
    var input := bs + rest;
    var len := |f.payload|;
    var ext := |ExtendedLength(len)|;
    var keyLen := if f.mask.Some? then 4 else 0;
    assert input[0] == bs[0] && input[1] == bs[1];
    SliceOfPrefix(bs, rest, 2, 2 + ext);
    SliceOfPrefix(bs, rest, 2 + ext, 2 + ext + keyLen);
    SliceOfPrefix(bs, rest, 2 + ext + keyLen, |bs|);
  }

  /** A slice within `a` reads the same through anything appended to `a`. */
  lemma SliceOfPrefix<T>(a: seq<T>, b: seq<T>, i: nat, j: nat)
    requires i <= j <= |a|
    ensures (a + b)[i..j] == a[i..j]
  {
  }

  /** ReadAfterHeader succeeds once the length fields agree and enough bytes follow. */
  lemma ReadAfterHeaderOk(input: seq<Byte>, fin: bool, opcode: Opcode, hasMask: bool, len7: nat, len: nat, ext: nat)
    requires |input| >= 2
    requires ext == (if len7 == 126 then 2 else if len7 == 127 then 8 else 0)
    requires |input| >= 2 + ext + (if hasMask then 4 else 0) + len
    requires ext == 0 ==> len7 == len
    requires ext > 0 ==> FromBigEndian(input[2..2 + ext]) == len
    ensures var keyEnd := 2 + ext + (if hasMask then 4 else 0);
      ReadAfterHeader(input, fin, opcode, hasMask, len7)
      == Ok(Decoded(Frame(fin, opcode, if hasMask then Some(input[2 + ext..keyEnd]) else None,
                          input[keyEnd..keyEnd + len]), keyEnd + len))
  {
  }

  /** The round trip in terms of the payload the receiver sees after unmasking. */
  lemma ReceivedPayload(f: Frame, rest: seq<Byte>)
    requires f.mask.None? || |f.mask.value| == 4
    requires |f.payload| < Pow256(8)
    ensures EncodeFrame(f).Ok? && ReadFrame(EncodeFrame(f).value + rest).Ok?
    ensures var d := ReadFrame(EncodeFrame(f).value + rest).value.frame;
      Masked(d.payload, d.mask) == f.payload
  {
    ReadFrameOfEncodeFrame(f, rest);
    MaskedTwice(f.payload, f.mask);
  }
}
