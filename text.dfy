/** Character and string helpers shared by the handlers: Rust's notion of
    whitespace, `trim`, `join`, decimal formatting of `usize`, and the
    newline-terminated line framing used by the progress stream. */
module Text {

  /** The characters with the Unicode White_Space property. */
  const WhiteSpace: set<char> := {
    '\U{9}', '\U{A}', '\U{B}', '\U{C}', '\U{D}', ' ', '\U{85}', '\U{A0}', '\U{1680}',
    '\U{2000}', '\U{2001}', '\U{2002}', '\U{2003}', '\U{2004}', '\U{2005}', '\U{2006}',
    '\U{2007}', '\U{2008}', '\U{2009}', '\U{200A}', '\U{2028}', '\U{2029}', '\U{202F}',
    '\U{205F}', '\U{3000}'
  }

  /** Rust's `char::is_whitespace`. */
  predicate IsWhitespace(c: char)
  {
    c in WhiteSpace
  }

  /** How many characters `str::trim_start` drops: the leading run of
      whitespace. */
  function LeadingWhitespace(s: string): (k: nat)
    ensures k <= |s|
  {
    if |s| > 0 && IsWhitespace(s[0]) then 1 + LeadingWhitespace(s[1..]) else 0
  }

  /** How many characters `str::trim_end` drops. */
  function TrailingWhitespace(s: string): (k: nat)
    ensures k <= |s|
  {
    if |s| > 0 && IsWhitespace(s[|s| - 1]) then 1 + TrailingWhitespace(s[..|s| - 1]) else 0
  }

  /** `str::trim_start`. */
  function TrimStart(s: string): string
  {
    s[LeadingWhitespace(s)..]
  }

  /** `str::trim_end`. */
  function TrimEnd(s: string): string
  {
    s[..|s| - TrailingWhitespace(s)]
  }

  /** `str::trim`. */
  function Trim(s: string): string
  {
    TrimEnd(TrimStart(s))
  }

  /** `trim_start` drops whitespace only, and all of the leading run. */
  lemma {:induction false} TrimStartCutsWhitespace(s: string)
    ensures forall i :: 0 <= i < LeadingWhitespace(s) ==> IsWhitespace(s[i])
    ensures TrimStart(s) == [] || !IsWhitespace(TrimStart(s)[0])
  {
    if |s| > 0 && IsWhitespace(s[0]) {
      TrimStartCutsWhitespace(s[1..]);
      assert TrimStart(s) == TrimStart(s[1..]);
    }
  }

  /** `trim_end` drops whitespace only, and all of the trailing run. */
  lemma {:induction false} TrimEndCutsWhitespace(s: string)
    ensures forall i :: |s| - TrailingWhitespace(s) <= i < |s| ==> IsWhitespace(s[i])
    ensures TrimEnd(s) == [] || !IsWhitespace(TrimEnd(s)[|TrimEnd(s)| - 1])
  {
    if |s| > 0 && IsWhitespace(s[|s| - 1]) {
      var s' := s[..|s| - 1];
      TrimEndCutsWhitespace(s');
      assert TrimEnd(s) == TrimEnd(s');
    }
  }

  /** `trim` keeps one contiguous piece of `s`, starting where the leading
      whitespace ends; that piece neither starts nor ends with whitespace,
      and everything cut off around it is whitespace. */
  lemma TrimCutsWhitespace(s: string)
    ensures var lo := LeadingWhitespace(s);
            var r := Trim(s);
            lo + |r| <= |s| && r == s[lo..lo + |r|]
            && (r == [] || (!IsWhitespace(r[0]) && !IsWhitespace(r[|r| - 1])))
            && (forall i :: 0 <= i < lo ==> IsWhitespace(s[i]))
            && (forall i :: lo + |r| <= i < |s| ==> IsWhitespace(s[i]))
  {
    var t := TrimStart(s);
    var lo := LeadingWhitespace(s);
    TrimStartCutsWhitespace(s);
    TrimEndCutsWhitespace(t);
    var r := Trim(s);
    assert r == s[lo..lo + |r|];
    assert r == [] || r[0] == t[0];
    forall i | lo + |r| <= i < |s|
      ensures IsWhitespace(s[i])
    {
      assert s[i] == t[i - lo];
    }
  }

  /** A string with no whitespace at either end is its own trim. */
  lemma TrimOfTrimmed(s: string)
    requires s == [] || (!IsWhitespace(s[0]) && !IsWhitespace(s[|s| - 1]))
    ensures Trim(s) == s
  {
    assert LeadingWhitespace(s) == 0;
    assert TrimStart(s) == s;
    assert TrailingWhitespace(s) == 0;
  }

  /** `str::replace` of one character by another, here `"\n"` by `" "`. */
  function ReplaceChar(s: string, from: char, to: char): (r: string)
    ensures |r| == |s|
    ensures forall i :: 0 <= i < |s| ==> r[i] == (if s[i] == from then to else s[i])
  {
    if s == [] then [] else [if s[0] == from then to else s[0]] + ReplaceChar(s[1..], from, to)
  }

  /** `slice.join(sep)` over strings. */
  function Join(parts: seq<string>, sep: string): string
  {
    if |parts| == 0 then ""
    else if |parts| == 1 then parts[0]
    else parts[0] + sep + Join(parts[1..], sep)
  }

  function DigitChar(d: nat): (c: char)
    requires d < 10
    ensures '0' <= c <= '9' && c as int - '0' as int == d
  {
    ['0', '1', '2', '3', '4', '5', '6', '7', '8', '9'][d]
  }

  /** Decimal rendering of a `usize` as `format!("{}", n)` writes it: digits
      only, no sign, no leading zero. */
  function NatToString(n: nat): (r: string)
    ensures 1 <= |r|
    ensures forall i :: 0 <= i < |r| ==> '0' <= r[i] <= '9'
    ensures |r| > 1 ==> r[0] != '0'
  {
    if n < 10 then [DigitChar(n)] else NatToString(n / 10) + [DigitChar(n % 10)]
  }

  /** The number a string of decimal digits denotes, most significant
      digit first. */
  function DigitsValue(r: string): nat
    requires forall i :: 0 <= i < |r| ==> '0' <= r[i] <= '9'
  {
    if r == [] then 0
    else 10 * DigitsValue(r[..|r| - 1]) + (r[|r| - 1] as int - '0' as int)
  }

  /** The digits `NatToString` writes spell `n`. */
  lemma {:induction false} NatToStringValue(n: nat)
    ensures DigitsValue(NatToString(n)) == n
  {
    var r := NatToString(n);
    if n >= 10 {
      NatToStringValue(n / 10);
      assert r[..|r| - 1] == NatToString(n / 10);
    }
  }

  /** Each message framed as one line: the message followed by exactly one
      `"\n"` (`format!("{}\n", msg)`), all concatenated in order. */
  function Framed(msgs: seq<string>): (body: string)
  {
    if msgs == [] then "" else msgs[0] + "\n" + Framed(msgs[1..])
  }

  /** Framing distributes over concatenation of message lists. */
  lemma {:induction false} FramedAppend(a: seq<string>, b: seq<string>)
    ensures Framed(a + b) == Framed(a) + Framed(b)
  {
    if a != [] {
      assert (a + b)[0] == a[0] && (a + b)[1..] == a[1..] + b;
      FramedAppend(a[1..], b);
    } else {
      assert a + b == b;
    }
  }

  /** Index of the first `'\n'` in `s`, or `|s|` when there is none. */
  function LineEnd(s: string): (k: nat)
    ensures k <= |s|
    ensures forall i :: 0 <= i < k ==> s[i] != '\n'
    ensures k < |s| ==> s[k] == '\n'
  {
    if s == [] || s[0] == '\n' then 0 else 1 + LineEnd(s[1..])
  }

  /** Reads newline-terminated lines back out of a stream body, as a client
      of the line-per-event stream does. */
  function SplitLines(s: string): seq<string>
    decreases |s|
  {
    if s == [] then []
    else
      var k := LineEnd(s);
      if k == |s| then [s] else [s[..k]] + SplitLines(s[k + 1..])
  }

  predicate NoNewline(m: string)
  {
    forall i :: 0 <= i < |m| ==> m[i] != '\n'
  }

  /** Framing is lossless: a client splitting the body at newlines gets every
      message back, in order, as long as no message itself holds a newline. */
  lemma {:induction false} SplitFramed(msgs: seq<string>)
    requires forall j :: 0 <= j < |msgs| ==> NoNewline(msgs[j])
    ensures SplitLines(Framed(msgs)) == msgs
  {
    if msgs != [] {
      var m := msgs[0];
      var rest := Framed(msgs[1..]);
      var s := m + "\n" + rest;
      assert Framed(msgs) == s;
      LineEndAt(m, rest);
      assert s[..|m|] == m;
      assert s[|m| + 1..] == rest;
      SplitFramed(msgs[1..]);
    }
  }

  lemma {:induction false} LineEndAt(m: string, rest: string)
    requires NoNewline(m)
    ensures LineEnd(m + "\n" + rest) == |m|
  {
    if m != [] {
      assert (m + "\n" + rest)[1..] == m[1..] + "\n" + rest;
      LineEndAt(m[1..], rest);
    }
  }

  /** Associativity of concatenation, for proofs that regroup a sum of
      strings one step at a time. */
  lemma AppendAssoc(a: string, b: string, c: string)
    ensures (a + b) + c == a + (b + c)
  {
  }
}
