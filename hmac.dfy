/** HMAC-SHA-256 in lowercase hex (src/lib/security/hmac.ts and its .js twin).
    The MAC itself (RFC 2104 over the SHA-256 of FIPS 180-4, computed by Web
    Crypto) is a parameter; what is modelled is the UTF-8 key and message bytes
    handed to it and the base16 encoding (RFC 4648, section 8, lowercase
    alphabet) of the tag it returns. */
module Hmac {
  import opened Wrappers
  import Utf8

  type Byte = Utf8.Byte
  type Bytes = Utf8.Bytes

  /** A MAC of SHA-256's output size: every tag is 32 bytes long. */
  ghost predicate IsMac(mac: (Bytes, Bytes) -> Bytes) {
    forall key, message :: |mac(key, message)| == 32
  }

  // ---------------------------------------------------------------------------
  // Hex digits

  predicate IsLowerHex(c: char) {
    '0' <= c <= '9' || 'a' <= c <= 'f'
  }

  predicate AllLowerHex(s: string) {
    forall i :: 0 <= i < |s| ==> IsLowerHex(s[i])
  }

  /** The lowercase digit for a value below 16, as `Number.prototype.toString(16)`
      writes it. */
  function HexDigit(d: nat): (c: char)
    requires d < 16
    ensures IsLowerHex(c)
  {
    if d < 10 then ('0' as int + d) as char else ('a' as int + d - 10) as char
  }

  /** The value of a lowercase hex digit; `None` for any other character. */
  function HexValue(c: char): (r: Option<nat>)
    ensures r.Some? <==> IsLowerHex(c)
    ensures r.Some? ==> r.value < 16 && HexDigit(r.value) == c
  {
    if '0' <= c <= '9' then Some(c as int - '0' as int)
    else if 'a' <= c <= 'f' then Some(c as int - 'a' as int + 10)
    else None
  }

  /** `n.toString(16)`: the hex digits of `n`, most significant first. */
  function ToHexString(n: nat): string
    decreases n
  {
    if n < 16 then [HexDigit(n)] else ToHexString(n / 16) + [HexDigit(n % 16)]
  }

  /** `s.padStart(width, fill)` for a one-character `fill`. */
  function PadStart(s: string, width: nat, fill: char): (r: string)
    ensures |r| == if |s| >= width then |s| else width
    ensures r[|r| - |s|..] == s
    ensures forall i :: 0 <= i < |r| - |s| ==> r[i] == fill
  {
    if |s| >= width then s else seq(width - |s|, _ => fill) + s
  }

  /** `b.toString(16).padStart(2, '0')`: the two characters of one byte. */
  function ByteHex(b: Byte): string {
    PadStart(ToHexString(b), 2, '0')
  }

  /** A byte is written as its high nibble then its low nibble, with a leading
      '0' for bytes below 16. */
  lemma ByteHexDigits(b: Byte)
    ensures ByteHex(b) == Nibbles(b)
    ensures b < 16 ==> ByteHex(b)[0] == '0'
  {
    if b >= 16 {
      assert ToHexString(b / 16) == [HexDigit(b / 16)];
    }
  }

  // ---------------------------------------------------------------------------
  // Base16

  /** The two base16 characters of one byte: high nibble, then low nibble. */
  function Nibbles(b: Byte): string {
    [HexDigit(b / 16), HexDigit(b % 16)]
  }

  /** Base16 in the lowercase alphabet: each byte's pair of digits, left to
      right. */
  function Base16(bytes: Bytes): string {
    if |bytes| == 0 then "" else Base16(bytes[..|bytes| - 1]) + Nibbles(bytes[|bytes| - 1])
  }

  /** `hex(buffer)`: the loop appends each byte's two digits to `out`. */
  method Hex(bytes: Bytes) returns (out: string)
    ensures out == Base16(bytes)
  {
    out := "";
    for i := 0 to |bytes|
      invariant out == Base16(bytes[..i])
    {
      assert bytes[..i + 1][..i] == bytes[..i];
      ByteHexDigits(bytes[i]);
      out := out + ByteHex(bytes[i]);
    }
    assert bytes[..|bytes|] == bytes;
  }

  lemma {:induction false} Base16Length(bytes: Bytes)
    ensures |Base16(bytes)| == 2 * |bytes|
    decreases |bytes|
  {
    if |bytes| > 0 {
      Base16Length(bytes[..|bytes| - 1]);
    }
  }

  /** Characters 2i and 2i+1 are the high and the low nibble of byte i. */
  lemma {:induction false} Base16At(bytes: Bytes, i: nat)
    requires i < |bytes|
    ensures |Base16(bytes)| == 2 * |bytes|
    ensures Base16(bytes)[2 * i] == HexDigit(bytes[i] / 16)
    ensures Base16(bytes)[2 * i + 1] == HexDigit(bytes[i] % 16)
    decreases |bytes|
  {
    var n := |bytes|;
    var init := bytes[..n - 1];
    Base16Length(bytes);
    Base16Length(init);
    if i < n - 1 {
      Base16At(init, i);
      assert Base16(bytes)[2 * i] == Base16(init)[2 * i];
      assert Base16(bytes)[2 * i + 1] == Base16(init)[2 * i + 1];
    }
  }

  /** Every character is a lowercase hex digit. */
  lemma AllLowerHexBase16(bytes: Bytes)
    ensures AllLowerHex(Base16(bytes))
  {
    Base16Length(bytes);
    forall k | 0 <= k < |Base16(bytes)| ensures IsLowerHex(Base16(bytes)[k]) {
      Base16At(bytes, k / 2);
    }
  }

  /** The empty buffer encodes to the empty string, and the encoding
      distributes over concatenation. */
  lemma {:induction false} Base16Concat(a: Bytes, b: Bytes)
    ensures Base16([]) == ""
    ensures Base16(a + b) == Base16(a) + Base16(b)
    decreases |b|
  {
    if |b| == 0 {
      assert a + b == a;
    } else {
      assert (a + b)[..|a + b| - 1] == a + b[..|b| - 1];
      Base16Concat(a, b[..|b| - 1]);
    }
  }

  /** Pair-wise decoding of a lowercase hex string; `None` for an odd length or
      a character outside `0-9a-f`. */
  function DecodeHex(s: string): Option<Bytes>
    decreases |s|
  {
    if |s| == 0 then Some([])
    else if |s| == 1 then None
    else match (HexValue(s[0]), HexValue(s[1]), DecodeHex(s[2..]))
      case (Some(hi), Some(lo), Some(rest)) => Some([hi * 16 + lo] + rest)
      case _ => None
  }

  /** Decoding the pairs recovers the bytes. */
  lemma {:induction false} DecodeBase16(bytes: Bytes)
    ensures DecodeHex(Base16(bytes)) == Some(bytes)
    decreases |bytes|
  {
    if |bytes| > 0 {
      var tail := bytes[1..];
      Base16Concat([bytes[0]], tail);
      assert [bytes[0]] + tail == bytes;
      assert Base16([bytes[0]]) == Nibbles(bytes[0]) by {
        assert [bytes[0]][..0] == [];
      }
      var s := Base16(bytes);
      assert s == Nibbles(bytes[0]) + Base16(tail);
      assert s[2..] == Base16(tail);
      DecodeBase16(tail);
      assert HexValue(s[0]) == Some(bytes[0] / 16) && HexValue(s[1]) == Some(bytes[0] % 16);
      assert bytes == [(bytes[0] / 16) * 16 + bytes[0] % 16] + tail;
    }
  }

  /** Conversely, a string that decodes is the encoding of what it decodes to. */
  lemma {:induction false} Base16OfDecode(s: string, bytes: Bytes)
    requires DecodeHex(s) == Some(bytes)
    ensures Base16(bytes) == s
    decreases |s|
  {
    if |s| > 0 {
      var hi := HexValue(s[0]).value;
      var lo := HexValue(s[1]).value;
      var rest := DecodeHex(s[2..]).value;
      Base16OfDecode(s[2..], rest);
      var b: Byte := hi * 16 + lo;
      assert bytes == [b] + rest;
      assert b / 16 == hi && b % 16 == lo;
      assert Nibbles(b) == [s[0], s[1]];
      Base16Concat([b], rest);
      assert Base16([b]) == Nibbles(b) by {
        assert [b][..0] == [];
      }
      assert s == [s[0], s[1]] + s[2..];
    }
  }

  /** Distinct buffers have distinct encodings. */
  lemma Base16Injective(a: Bytes, b: Bytes)
    requires Base16(a) == Base16(b)
    ensures a == b
  {
    DecodeBase16(a);
    DecodeBase16(b);
  }

  // ---------------------------------------------------------------------------
  // The bytes handed to the MAC

  /** A `Uint8Array`: a window of `byteLength` bytes at `byteOffset` into its
      underlying `ArrayBuffer`. */
  datatype ByteView = ByteView(buffer: Bytes, byteOffset: nat, byteLength: nat)

  predicate ValidView(v: ByteView) {
    v.byteOffset + v.byteLength <= |v.buffer|
  }

  /** `ArrayBuffer.prototype.slice(start, end)`: negative positions count from
      the end, both are clamped to the buffer, and an inverted range is empty. */
  function SliceBuffer(buffer: Bytes, start: int, end: int): (r: Bytes)
    ensures |r| <= |buffer|
    ensures 0 <= start <= end <= |buffer| ==> r == buffer[start..end]
  {
    var n := |buffer|;
    var first := if start < 0 then (if n + start < 0 then 0 else n + start)
                 else (if start < n then start else n);
    var last := if end < 0 then (if n + end < 0 then 0 else n + end)
                else (if end < n then end else n);
    if first < last then buffer[first..last] else []
  }

  /** `bytes.buffer.slice(bytes.byteOffset, bytes.byteOffset + bytes.byteLength)`:
      a standalone buffer holding exactly the viewed bytes. */
  function ViewToBuffer(v: ByteView): (r: Bytes)
    requires ValidView(v)
    ensures |r| == v.byteLength
    ensures forall i :: 0 <= i < v.byteLength ==> r[i] == v.buffer[v.byteOffset + i]
  {
    SliceBuffer(v.buffer, v.byteOffset, v.byteOffset + v.byteLength)
  }

  /** `new TextEncoder().encode(s)`: a fresh array over the UTF-8 bytes of `s`. */
  function TextEncode(s: string): (v: ByteView)
    ensures ValidView(v)
    ensures ViewToBuffer(v) == Utf8.Encode(s)
    ensures v.byteOffset == 0 && v.byteLength == |v.buffer|
  {
    var bytes := Utf8.Encode(s);
    ByteView(bytes, 0, |bytes|)
  }

  /** `utf8Buffer(s)`: the UTF-8 bytes of `s`, no more and no fewer. */
  function Utf8Buffer(s: string): (r: Bytes)
    ensures r == Utf8.Encode(s)
  {
    ViewToBuffer(TextEncode(s))
  }

  /** `hmacSha256Hex(secret, message)`: the tag of `mac` keyed with the UTF-8
      bytes of `secret` over those of `message`, in lowercase hex. The tag can be
      read back from the result, and a 32-byte tag gives 64 characters. */
  function HmacSha256Hex(mac: (Bytes, Bytes) -> Bytes, secret: string, message: string): (r: string)
    ensures DecodeHex(r) == Some(mac(Utf8.Encode(secret), Utf8.Encode(message)))
    ensures AllLowerHex(r)
    ensures IsMac(mac) ==> |r| == 64
  {
    var tag := mac(Utf8Buffer(secret), Utf8Buffer(message));
    DecodeBase16(tag);
    AllLowerHexBase16(tag);
    Base16Length(tag);
    Base16(tag)
  }
}
