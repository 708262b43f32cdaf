/** UTF-8, the byte encoding of Rust's `String`: byte lengths (what `str::len`
    counts), the encoding of a string, and the strict decoder
    `String::from_utf8` (which refuses overlong forms, surrogates and code
    points above U+10FFFF). */
module Utf8 {
  import opened Wrappers

  type byte = x: int | 0 <= x < 256

  /** Number of bytes UTF-8 uses for `c`. */
  function Width(c: char): (w: nat)
    ensures 1 <= w <= 4
  {
    var n := c as int;
    if n < 0x80 then 1 else if n < 0x800 then 2 else if n < 0x10000 then 3 else 4
  }

  /** `str::len`: the length of `s` in bytes. */
  function ByteLen(s: string): (n: nat)
    ensures |s| <= n <= 4 * |s|
  {
    if s == [] then 0 else Width(s[0]) + ByteLen(s[1..])
  }

  lemma {:induction false} ByteLenAppend(a: string, b: string)
    ensures ByteLen(a + b) == ByteLen(a) + ByteLen(b)
  {
    if a != [] {
      assert (a + b)[0] == a[0] && (a + b)[1..] == a[1..] + b;
      ByteLenAppend(a[1..], b);
    } else {
      assert a + b == b;
    }
  }

  predicate IsContinuation(b: byte)
  {
    0x80 <= b <= 0xBF
  }

  function EncodeChar(c: char): (bs: seq<byte>)
    ensures |bs| == Width(c)
    ensures bs[0] < 0x80 || 0xC2 <= bs[0] <= 0xF4
    ensures forall i :: 1 <= i < |bs| ==> IsContinuation(bs[i])
  {
    var n := c as int;
    if n < 0x80 then [n]
    else if n < 0x800 then [0xC0 + n / 64, 0x80 + n % 64]
    else if n < 0x10000 then [0xE0 + n / 4096, 0x80 + (n / 64) % 64, 0x80 + n % 64]
    else [0xF0 + n / 262144, 0x80 + (n / 4096) % 64, 0x80 + (n / 64) % 64, 0x80 + n % 64]
  }

  function Encode(s: string): (bs: seq<byte>)
    ensures |bs| == ByteLen(s)
  {
    if s == [] then [] else EncodeChar(s[0]) + Encode(s[1..])
  }

  lemma {:induction false} EncodeAppend(a: string, b: string)
    ensures Encode(a + b) == Encode(a) + Encode(b)
  {
    if a != [] {
      assert (a + b)[0] == a[0] && (a + b)[1..] == a[1..] + b;
      EncodeAppend(a[1..], b);
    } else {
      assert a + b == b;
    }
  }

  /** The scalar value that the well-formed sequence at the head of `bs`
      encodes, with its width; `None` when the head is not well formed. */
  function DecodeFirst(bs: seq<byte>): (r: Option<(char, nat)>)
    ensures r.Some? ==> 1 <= r.value.1 <= |bs| && r.value.1 <= 4
  {
    if bs == [] then None
    else
      var b0: int := bs[0];
      var b1: int := if |bs| > 1 then bs[1] else 0;
      var b2: int := if |bs| > 2 then bs[2] else 0;
      var b3: int := if |bs| > 3 then bs[3] else 0;
      if b0 < 0x80 then Some((b0 as char, 1))
      else if 0xC2 <= b0 <= 0xDF then
        if |bs| < 2 || !IsContinuation(bs[1]) then None
        else Some((((b0 - 0xC0) * 64 + (b1 - 0x80)) as char, 2))
      else if 0xE0 <= b0 <= 0xEF then
        var lo := if b0 == 0xE0 then 0xA0 else 0x80;
        var hi := if b0 == 0xED then 0x9F else 0xBF;
        if |bs| < 3 || !(lo <= bs[1] <= hi) || !IsContinuation(bs[2]) then None
        else
          var n := (b0 - 0xE0) * 4096 + (b1 - 0x80) * 64 + (b2 - 0x80);
          Some((n as char, 3))
      else if 0xF0 <= b0 <= 0xF4 then
        var lo := if b0 == 0xF0 then 0x90 else 0x80;
        var hi := if b0 == 0xF4 then 0x8F else 0xBF;
        if |bs| < 4 || !(lo <= bs[1] <= hi) || !IsContinuation(bs[2]) || !IsContinuation(bs[3]) then None
        else
          var n := (b0 - 0xF0) * 262144 + (b1 - 0x80) * 4096 + (b2 - 0x80) * 64 + (b3 - 0x80);
          Some((n as char, 4))
      else None
  }

  /** `String::from_utf8`: the decoded string, or `None` for invalid UTF-8. */
  function Decode(bs: seq<byte>): Option<string>
    decreases |bs|
  {
    if bs == [] then Some("")
    else
      match DecodeFirst(bs)
      case None => None
      case Some((c, w)) =>
        match Decode(bs[w..])
        case None => None
        case Some(rest) => Some([c] + rest)
  }

  lemma DecodeFirstEncodeChar(c: char, rest: seq<byte>)
    ensures DecodeFirst(EncodeChar(c) + rest) == Some((c, Width(c)))
  {
    var n := c as int;
    if n < 0x80 {
    } else if n < 0x800 {
      DecodeTwo(c, rest);
    } else if n < 0x10000 {
      DecodeThree(c, rest);
    } else {
      DecodeFour(c, rest);
    }
  }

  lemma DecodeTwo(c: char, rest: seq<byte>)
    requires 0x80 <= c as int < 0x800
    ensures DecodeFirst(EncodeChar(c) + rest) == Some((c, 2))
  {
    var n := c as int;
    var bs := EncodeChar(c) + rest;
    assert bs[0] == 0xC0 + n / 64 && bs[1] == 0x80 + n % 64;
    assert (n / 64) * 64 + n % 64 == n;
  }

  lemma DecodeThree(c: char, rest: seq<byte>)
    requires 0x800 <= c as int < 0x10000
    ensures DecodeFirst(EncodeChar(c) + rest) == Some((c, 3))
  {
    var n := c as int;
    var bs := EncodeChar(c) + rest;
    var q, m := n / 64, n % 64;
    var h, k := q / 64, q % 64;
    assert n == q * 64 + m && q == h * 64 + k;
    assert n / 4096 == h;
    assert bs[0] == 0xE0 + h && bs[1] == 0x80 + k && bs[2] == 0x80 + m;
    assert h == 0 ==> k >= 32;
    assert h == 13 ==> k <= 31;
    assert h * 4096 + k * 64 + m == n;
  }

  lemma DecodeFour(c: char, rest: seq<byte>)
    requires 0x10000 <= c as int
    ensures DecodeFirst(EncodeChar(c) + rest) == Some((c, 4))
  {
    var n := c as int;
    var bs := EncodeChar(c) + rest;
    var q, m := n / 64, n % 64;
    var p, k := q / 64, q % 64;
    var h, j := p / 64, p % 64;
    assert n == q * 64 + m && q == p * 64 + k && p == h * 64 + j;
    assert n / 4096 == p && n / 262144 == h;
    assert bs[0] == 0xF0 + h && bs[1] == 0x80 + j && bs[2] == 0x80 + k && bs[3] == 0x80 + m;
    assert h == 0 ==> j >= 16;
    assert h == 4 ==> j <= 15;
    assert h * 262144 + j * 4096 + k * 64 + m == n;
  }

  /** Decoding undoes encoding: every Rust `String` is valid UTF-8 and reads
      back as itself. */
  lemma {:induction false} DecodeEncode(s: string)
    ensures Decode(Encode(s)) == Some(s)
  {
    if s != [] {
      var bs := Encode(s);
      assert bs == EncodeChar(s[0]) + Encode(s[1..]);
      DecodeFirstEncodeChar(s[0], Encode(s[1..]));
      assert bs[Width(s[0])..] == Encode(s[1..]);
      DecodeEncode(s[1..]);
      assert [s[0]] + s[1..] == s;
    }
  }

  lemma DivMod64(q: int, r: int)
    requires 0 <= q && 0 <= r < 64
    ensures (q * 64 + r) / 64 == q && (q * 64 + r) % 64 == r
  {
  }

  /** A well-formed head is the encoding of the scalar value it decodes to. */
  lemma DecodeFirstIsEncoding(bs: seq<byte>)
    requires DecodeFirst(bs).Some?
    ensures Width(DecodeFirst(bs).value.0) == DecodeFirst(bs).value.1
    ensures bs[..DecodeFirst(bs).value.1] == EncodeChar(DecodeFirst(bs).value.0)
  {
    var w := DecodeFirst(bs).value.1;
    if w == 2 {
      HeadOfTwo(bs);
    } else if w == 3 {
      HeadOfThree(bs);
    } else if w == 4 {
      HeadOfFour(bs);
    }
  }

  lemma HeadOfTwo(bs: seq<byte>)
    requires DecodeFirst(bs).Some? && DecodeFirst(bs).value.1 == 2
    ensures Width(DecodeFirst(bs).value.0) == 2
    ensures bs[..2] == EncodeChar(DecodeFirst(bs).value.0)
  {
    var c := DecodeFirst(bs).value.0;
    var n := c as int;
    var b0: int, b1: int := bs[0], bs[1];
    assert n == (b0 - 0xC0) * 64 + (b1 - 0x80);
    DivMod64(b0 - 0xC0, b1 - 0x80);
    assert EncodeChar(c) == [b0, b1];
  }

  lemma HeadOfThree(bs: seq<byte>)
    requires DecodeFirst(bs).Some? && DecodeFirst(bs).value.1 == 3
    ensures Width(DecodeFirst(bs).value.0) == 3
    ensures bs[..3] == EncodeChar(DecodeFirst(bs).value.0)
  {
    var c := DecodeFirst(bs).value.0;
    var n := c as int;
    var b0: int, b1: int, b2: int := bs[0], bs[1], bs[2];
    var q := (b0 - 0xE0) * 64 + (b1 - 0x80);
    assert n == q * 64 + (b2 - 0x80);
    DivMod64(q, b2 - 0x80);
    DivMod64(b0 - 0xE0, b1 - 0x80);
    assert n / 4096 == b0 - 0xE0;
    assert EncodeChar(c) == [b0, b1, b2];
  }

  lemma HeadOfFour(bs: seq<byte>)
    requires DecodeFirst(bs).Some? && DecodeFirst(bs).value.1 == 4
    ensures Width(DecodeFirst(bs).value.0) == 4
    ensures bs[..4] == EncodeChar(DecodeFirst(bs).value.0)
  {
    var c := DecodeFirst(bs).value.0;
    var n := c as int;
    var b0: int, b1: int, b2: int, b3: int := bs[0], bs[1], bs[2], bs[3];
    var p := (b0 - 0xF0) * 64 + (b1 - 0x80);
    var q := p * 64 + (b2 - 0x80);
    assert n == q * 64 + (b3 - 0x80);
    DivMod64(q, b3 - 0x80);
    DivMod64(p, b2 - 0x80);
    DivMod64(b0 - 0xF0, b1 - 0x80);
    assert n / 4096 == p;
    assert n / 262144 == b0 - 0xF0;
    assert EncodeChar(c) == [b0, b1, b2, b3];
  }

  /** Encoding undoes decoding: the decoded string's encoding is exactly the
      bytes it came from. */
  lemma {:induction false} EncodeDecode(bs: seq<byte>)
    requires Decode(bs).Some?
    ensures Encode(Decode(bs).value) == bs
    decreases |bs|
  {
    if bs != [] {
      var w := DecodeStep(bs);
      var c, t := DecodeFirst(bs).value.0, Decode(bs[w..]).value;
      calc {
        Encode(Decode(bs).value);
        Encode([c] + t);
        { EncodeCons(c, t); }
        EncodeChar(c) + Encode(t);
        { DecodeFirstIsEncoding(bs); EncodeDecode(bs[w..]); }
        bs[..w] + bs[w..];
        bs;
      }
    }
  }

  /** A successful decode is the head's scalar value followed by the decode
      of the rest. */
  lemma DecodeStep(bs: seq<byte>) returns (w: nat)
    requires bs != [] && Decode(bs).Some?
    ensures DecodeFirst(bs).Some? && w == DecodeFirst(bs).value.1 && w <= |bs|
    ensures Decode(bs[w..]).Some?
    ensures Decode(bs).value == [DecodeFirst(bs).value.0] + Decode(bs[w..]).value
  {
    w := DecodeFirst(bs).value.1;
  }

  lemma EncodeCons(c: char, t: string)
    ensures Encode([c] + t) == EncodeChar(c) + Encode(t)
  {
    assert ([c] + t)[0] == c && ([c] + t)[1..] == t;
  }
}
