/** The WebSocket framing of ws_server.py (section 5.2 of RFC 6455 for the
    frame header, section 5.3 for masking). Socket reads are taken from a
    byte sequence: `recv(n)` hands out the next min(n, remaining) bytes and
    an empty result means the peer has closed. */
module WsFraming {

  /** A byte, as Python's `bytes` indexes it. */
  type Byte = x: int | 0 <= x < 256

  // ---------------------------------------------------------------------------
  // Bit operations on bytes, stated arithmetically

  function Pow2(k: nat): (p: nat)
    ensures p > 0
  {
    if k == 0 then 1 else 2 * Pow2(k - 1)
  }

  /** XOR of the low k bits of a and b, from the least significant bit up. */
  function XorBits(a: nat, b: nat, k: nat): (r: nat)
    ensures r < Pow2(k)
  {
    if k == 0 then 0 else (a % 2 + b % 2) % 2 + 2 * XorBits(a / 2, b / 2, k - 1)
  }

  /** `a ^ b` on bytes. */
  function Xor(a: Byte, b: Byte): Byte
  {
    assert Pow2(8) == 256;
    XorBits(a, b, 8)
  }

  /** XOR with the same bits twice is the identity. */
  lemma {:induction false} XorBitsTwice(a: nat, m: nat, k: nat)
    requires a < Pow2(k)
    ensures XorBits(XorBits(a, m, k), m, k) == a
  {
    if k > 0 {
      var a0, m0 := a % 2, m % 2;
      var c0 := (a0 + m0) % 2;
      HalfBound(a, k);
      var x := XorBits(a / 2, m / 2, k - 1);
      var c := c0 + 2 * x;
      assert c == XorBits(a, m, k);
      Digits(c0, x);
      XorBitsTwice(a / 2, m / 2, k - 1);
      BitTwice(a0, m0);
      assert c % 2 == c0 && c / 2 == x;
      var y := XorBits(x, m / 2, k - 1);
      assert y == a / 2;
      assert XorBits(c, m, k) == a0 + 2 * y;
    }
  }

  /** Halving a k-bit number leaves a (k-1)-bit number. */
  lemma HalfBound(a: nat, k: nat)
    requires k > 0 && a < Pow2(k)
    ensures a / 2 < Pow2(k - 1)
  {
  }

  /** XOR of single bits is undone by a second XOR. */
  lemma BitTwice(x: nat, y: nat)
    requires x < 2 && y < 2
    ensures ((x + y) % 2 + y) % 2 == x
  {
    if x == 0 {
      if y == 0 { } else { assert (0 + 1) % 2 == 1; assert (1 + 1) % 2 == 0; }
    } else {
      if y == 0 { } else { assert (1 + 1) % 2 == 0; assert (0 + 1) % 2 == 1; }
    }
  }

  /** The low bit and the rest of `b + 2 * q` for a bit b. */
  lemma Digits(b: nat, q: nat)
    requires b < 2
    ensures (b + 2 * q) % 2 == b && (b + 2 * q) / 2 == q
  {
  }

  lemma XorTwice(a: Byte, m: Byte)
    ensures Xor(Xor(a, m), m) == a
  {
    assert Pow2(8) == 256;
    XorBitsTwice(a, m, 8);
  }

  /** `b & 0x0F`: the low four bits (the opcode of a first header byte). */
  function Low4(b: Byte): Byte { b % 16 }

  /** `b & 0x7F`: the low seven bits (the length code of a second header byte). */
  function Low7(b: Byte): Byte { b % 128 }

  /** `b & 0x80 != 0`: the top bit (the mask bit of a second header byte). */
  predicate TopBit(b: Byte) { b >= 128 }

  // ---------------------------------------------------------------------------
  // Big-endian integers (`int.to_bytes(k, "big")`, `int.from_bytes(s, "big")`)

  function Pow256(k: nat): (p: nat)
    ensures p > 0
  {
    if k == 0 then 1 else 256 * Pow256(k - 1)
  }

  /** The two widths the frame header uses. */
  lemma Widths()
    ensures Pow256(2) == 0x1_0000 && Pow256(8) == Limit64
  {
    assert Pow256(2) == 0x1_0000;
    assert Pow256(4) == 0x1_0000_0000;
    assert Pow256(6) == 0x1_0000_0000_0000;
  }

  /** `n.to_bytes(k, "big")`: k bytes, most significant first. */
  function ToBigEndian(n: nat, k: nat): (s: seq<Byte>)
    requires n < Pow256(k)
    ensures |s| == k
  {
    if k == 0 then []
    else ToBigEndian(n / 256, k - 1) + [n % 256]
  }

  /** `int.from_bytes(s, "big")`; the empty sequence is 0. */
  function FromBigEndian(s: seq<Byte>): nat
  {
    if s == [] then 0 else FromBigEndian(s[..|s| - 1]) * 256 + s[|s| - 1]
  }

  /** Decoding the k big-endian bytes of n gives back n. */
  lemma {:induction false} BigEndianRoundTrip(n: nat, k: nat)
    requires n < Pow256(k)
    ensures FromBigEndian(ToBigEndian(n, k)) == n
  {
    if k > 0 {
      BigEndianRoundTrip(n / 256, k - 1);
      var s := ToBigEndian(n, k);
      assert s[..|s| - 1] == ToBigEndian(n / 256, k - 1);
    }
  }

  // ---------------------------------------------------------------------------
  // Frames

  /** 2^64: `to_bytes(8, "big")` cannot hold a larger length. */
  const Limit64: nat := 0x1_0000_0000_0000_0000

  /** The payload length field: one byte of 0-125, or 126 and two
      big-endian bytes up to 65535, or 127 and eight big-endian bytes; the
      top bit of the first byte is the mask bit. */
  function LengthField(l: nat, masked: bool): (s: seq<Byte>)
    requires l < Limit64
    ensures |s| == (if l <= 125 then 1 else if l <= 65535 then 3 else 9)
  {
    Widths();
    var bit := if masked then 0x80 else 0x00;
    if l <= 125 then [bit + l]
    else if l <= 65535 then [bit + 126] + ToBigEndian(l, 2)
    else [bit + 127] + ToBigEndian(l, 8)
  }

  /** The bytes `send_text` puts on the wire for the UTF-8 bytes `data`. */
  function TextFrame(data: seq<Byte>): (f: seq<Byte>)
    requires |data| < Limit64
  {
    [0x81] + LengthField(|data|, false) + data
  }

  /** `send_text(conn, text)` for text whose UTF-8 encoding is `data`: a
      final text frame, unmasked, header then payload. */
  method SendText(data: seq<Byte>) returns (frame: seq<Byte>)
    requires |data| < Limit64
    ensures frame == TextFrame(data)
    ensures frame[0] == 0x81 && !TopBit(frame[1])
    ensures frame[|frame| - |data|..] == data
    ensures |frame| - |data| == (if |data| <= 125 then 2 else if |data| <= 65535 then 4 else 10)
  {
    Widths();
    var header: seq<Byte> := [];
    header := header + [0x81];
    var l := |data|;
    if l <= 125 {
      header := header + [l];
    } else if l <= 65535 {
      header := header + [126];
      header := header + ToBigEndian(l, 2);
    } else {
      header := header + [127];
      header := header + ToBigEndian(l, 8);
    }
    frame := header + data;
    assert frame[|frame| - |data|..] == data;
  }

  /** The masking of section 5.3 of RFC 6455: byte i is XORed with
      `mask[i % 4]`; the source indexes the mask that way, so every index
      it reaches must exist. */
  function Unmask(mask: seq<Byte>, p: seq<Byte>): (r: seq<Byte>)
    requires forall i :: 0 <= i < |p| ==> i % 4 < |mask|
    ensures |r| == |p|
    ensures forall i :: 0 <= i < |p| ==> r[i] == Xor(p[i], mask[i % 4])
  {
    seq(|p|, i requires 0 <= i < |p| => Xor(p[i], mask[i % 4]))
  }

  /** Masking twice with the same key gives the payload back. */
  lemma UnmaskTwice(mask: seq<Byte>, p: seq<Byte>)
    requires |mask| == 4
    ensures Unmask(mask, Unmask(mask, p)) == p
  {
    var once := Unmask(mask, p);
    forall i | 0 <= i < |p|
      ensures Unmask(mask, once)[i] == p[i]
    {
      XorTwice(p[i], mask[i % 4]);
    }
  }

  /** The next min(n, |s|) bytes of a stream, and what is left after them. */
  function Take(s: seq<Byte>, n: nat): seq<Byte>
  {
    if n <= |s| then s[..n] else s
  }

  function Drop(s: seq<Byte>, n: nat): seq<Byte>
  {
    if n <= |s| then s[n..] else []
  }

  /** What `read_frame` returns: `None` when the peer has closed; a failure
      when the two header bytes are cut short (`h[1]` raises); otherwise
      the opcode and the (unmasked) payload. */
  datatype Read = Closed | Failed | Frame(opcode: Byte, payload: seq<Byte>)

  /** The payload length and the stream after the extended length bytes,
      for the length code `code` of the second header byte. */
  function PayloadLength(code: nat, r0: seq<Byte>): (nat, seq<Byte>)
  {
    if code == 126 then (FromBigEndian(Take(r0, 2)), Drop(r0, 2))
    else if code == 127 then (FromBigEndian(Take(r0, 8)), Drop(r0, 8))
    else (code, r0)
  }

  /** `read_frame` on a stream holding `input`: the result and the bytes
      still unread. */
  function DecodeFrame(input: seq<Byte>): (Read, seq<Byte>)
  {
    var h, r0 := Take(input, 2), Drop(input, 2);
    if |h| == 0 then (Closed, r0)
    else if |h| == 1 then (Failed, r0)
    else
      var (length, r1) := PayloadLength(Low7(h[1]), r0);
      DecodeBody(Low4(h[0]), TopBit(h[1]), length, r1)
  }

  /** The rest of `read_frame` once the header is read: the mask key when
      the mask bit is set, then up to `length` payload bytes, unmasked
      when a key was read. */
  function DecodeBody(opcode: Byte, masked: bool, length: nat, r1: seq<Byte>): (Read, seq<Byte>)
  {
    var mask := if masked then Take(r1, 4) else [];
    var r2 := if masked then Drop(r1, 4) else r1;
    var payload := Take(r2, length);
    assert masked && |mask| < 4 ==> payload == [];
    (Frame(opcode, if masked && mask != [] then Unmask(mask, payload) else payload), Drop(r2, length))
  }

  /** A frame as a client must send it (section 5.3 of RFC 6455): mask bit
      set, the four key bytes, then the masked payload. */
  function MaskedFrame(b1: Byte, mask: seq<Byte>, data: seq<Byte>): seq<Byte>
    requires |mask| == 4 && |data| < Limit64
  {
    [b1] + LengthField(|data|, true) + mask + Unmask(mask, data)
  }

  /** The length field reads back as the length it encodes, and the mask
      bit as the mask flag. */
  lemma LengthFieldRoundTrip(l: nat, masked: bool, rest: seq<Byte>)
    requires l < Limit64
    ensures var s := LengthField(l, masked) + rest;
      TopBit(s[0]) == masked && PayloadLength(Low7(s[0]), s[1..]) == (l, rest)
  {
    Widths();
    var s := LengthField(l, masked) + rest;
    if l <= 125 {
      assert s[1..] == rest;
    } else if l <= 65535 {
      BigEndianRoundTrip(l, 2);
      assert Take(s[1..], 2) == ToBigEndian(l, 2);
      assert Drop(s[1..], 2) == rest;
    } else {
      BigEndianRoundTrip(l, 8);
      assert Take(s[1..], 8) == ToBigEndian(l, 8);
      assert Drop(s[1..], 8) == rest;
    }
  }

  /** A header byte followed by a length field reads back as that byte's
      opcode, the field's mask flag and its length. */
  lemma HeaderRoundTrip(b1: Byte, l: nat, masked: bool, rest: seq<Byte>)
    requires l < Limit64
    ensures DecodeFrame([b1] + LengthField(l, masked) + rest) == DecodeBody(Low4(b1), masked, l, rest)
  {
    var field := LengthField(l, masked);
    var input := [b1] + field + rest;
    LengthFieldRoundTrip(l, masked, rest);
    assert input == [b1] + (field + rest);
    assert Take(input, 2) == [b1, field[0]];
    assert Drop(input, 2) == (field + rest)[1..];
  }

  /** Reading back a frame `send_text` wrote gives opcode 1 (text) and
      exactly the bytes sent, and leaves what follows it unread. */
  lemma TextFrameRoundTrip(data: seq<Byte>, rest: seq<Byte>)
    requires |data| < Limit64
    ensures DecodeFrame(TextFrame(data) + rest) == (Frame(0x1, data), rest)
  {
    HeaderRoundTrip(0x81, |data|, false, data + rest);
    assert TextFrame(data) + rest == [0x81] + LengthField(|data|, false) + (data + rest);
    assert Take(data + rest, |data|) == data && Drop(data + rest, |data|) == rest;
  }

  /** Reading back a masked frame gives the opcode of its first byte and
      the payload before masking, and leaves what follows it unread. */
  lemma MaskedFrameRoundTrip(b1: Byte, mask: seq<Byte>, data: seq<Byte>, rest: seq<Byte>)
    requires |mask| == 4 && |data| < Limit64
    ensures DecodeFrame(MaskedFrame(b1, mask, data) + rest) == (Frame(Low4(b1), data), rest)
  {
    var field, masked := LengthField(|data|, true), Unmask(mask, data);
    HeaderRoundTrip(b1, |data|, true, mask + masked + rest);
    Regroup([b1], field, mask, masked, rest);
    MaskedBody(Low4(b1), mask, data, rest);
  }

  lemma Regroup(a: seq<Byte>, b: seq<Byte>, c: seq<Byte>, d: seq<Byte>, e: seq<Byte>)
    ensures a + b + c + d + e == a + b + (c + d + e)
  {
  }

  /** After the header, a mask key and a masked payload read back as the
      payload before masking. */
  lemma MaskedBody(opcode: Byte, mask: seq<Byte>, data: seq<Byte>, rest: seq<Byte>)
    requires |mask| == 4
    ensures DecodeBody(opcode, true, |data|, mask + Unmask(mask, data) + rest) == (Frame(opcode, data), rest)
  {
    var masked := Unmask(mask, data);
    var after := mask + masked + rest;
    assert Take(after, 4) == mask && Drop(after, 4) == masked + rest;
    assert Take(masked + rest, |data|) == masked && Drop(masked + rest, |data|) == rest;
    UnmaskTwice(mask, data);
  }

  /** The socket a frame is read from: the bytes the peer has sent and
      the server has not read yet. */
  class Conn {
    var pending: seq<Byte>

    constructor (input: seq<Byte>)
      ensures pending == input
    {
      pending := input;
    }

    /** `conn.recv(n)`: the next min(n, remaining) bytes. */
    method Recv(n: nat) returns (chunk: seq<Byte>)
      modifies this
      ensures chunk == Take(old(pending), n) && pending == Drop(old(pending), n)
    {
      chunk := Take(pending, n);
      pending := Drop(pending, n);
    }
  }

  /** `read_frame(conn)`: the result and the bytes it leaves unread are
      those of `DecodeFrame` on the bytes pending before the call. */
  method ReadFrame(conn: Conn) returns (r: Read)
    modifies conn
    ensures (r, conn.pending) == DecodeFrame(old(conn.pending))
  {
    var h := conn.Recv(2);
    if h == [] {
      return Closed;
    }
    if |h| < 2 {
      return Failed;
    }
    var b1, b2 := h[0], h[1];
    var opcode := Low4(b1);
    var masked := TopBit(b2);
    var length: nat := Low7(b2);
    if length == 126 {
      var l := conn.Recv(2);
      length := FromBigEndian(l);
    } else if length == 127 {
      var l := conn.Recv(8);
      length := FromBigEndian(l);
    }
    var mask: seq<Byte> := [];
    if masked {
      mask := conn.Recv(4);
    }
    var payload := ReadPayload(conn, length);
    if masked && mask != [] {
      payload := Unmask(mask, payload);
    }
    r := Frame(opcode, payload);
  }

  /** The payload loop of `read_frame`: up to `length` bytes, fewer when
      the peer closes first. */
  method ReadPayload(conn: Conn, length: nat) returns (payload: seq<Byte>)
    modifies conn
    ensures payload == Take(old(conn.pending), length) && conn.pending == Drop(old(conn.pending), length)
  {
    ghost var start := conn.pending;
    payload := [];
    while |payload| < length
      invariant |payload| <= length
      invariant payload + conn.pending == start
      decreases length - |payload|
    {
      var chunk := conn.Recv(length - |payload|);
      if chunk == [] {
        assert conn.pending == [];
        break;
      }
      payload := payload + chunk;
    }
    TakeConcat(payload, conn.pending, length);
  }

  /** Taking `n` bytes of `p + q` is `p` when `q` is empty or `p` has
      exactly `n` bytes. */
  lemma TakeConcat(p: seq<Byte>, q: seq<Byte>, n: nat)
    requires |p| <= n && (q == [] || |p| == n)
    ensures Take(p + q, n) == p && Drop(p + q, n) == q
  {
    if q == [] {
      assert p + q == p;
    } else {
      assert (p + q)[..n] == p && (p + q)[n..] == q;
    }
  }
}
