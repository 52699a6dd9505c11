/** Well-formed UTF-8 byte sequences, following the table of section 4 of
    RFC 3629.  A Rust `String` is exactly such a byte sequence, so the
    model represents strings by their bytes (`Str`) and `String::from_utf8`
    by the test `Valid`. */
module Utf8 {
  import opened Ints

  predicate IsContinuation(b: byte) {
    0x80 <= b <= 0xBF
  }

  /** The number of bytes of the well-formed character at the start of `s`,
      or 0 when `s` does not start with one. */
  function CharWidth(s: seq<byte>): (n: nat)
    ensures n <= 4 && n <= |s|
    ensures n > 0 ==> (n == 1 <==> s[0] < 0x80)
  {
    if |s| == 0 then 0
    else
      var b := s[0];
      if b < 0x80 then 1
      else if 0xC2 <= b <= 0xDF then
        if |s| >= 2 && IsContinuation(s[1]) then 2 else 0
      else if b == 0xE0 then
        if |s| >= 3 && 0xA0 <= s[1] <= 0xBF && IsContinuation(s[2]) then 3 else 0
      else if (0xE1 <= b <= 0xEC) || (0xEE <= b <= 0xEF) then
        if |s| >= 3 && IsContinuation(s[1]) && IsContinuation(s[2]) then 3 else 0
      else if b == 0xED then
        if |s| >= 3 && 0x80 <= s[1] <= 0x9F && IsContinuation(s[2]) then 3 else 0
      else if b == 0xF0 then
        if |s| >= 4 && 0x90 <= s[1] <= 0xBF && IsContinuation(s[2]) && IsContinuation(s[3]) then 4 else 0
      else if 0xF1 <= b <= 0xF3 then
        if |s| >= 4 && IsContinuation(s[1]) && IsContinuation(s[2]) && IsContinuation(s[3]) then 4 else 0
      else if b == 0xF4 then
        if |s| >= 4 && 0x80 <= s[1] <= 0x8F && IsContinuation(s[2]) && IsContinuation(s[3]) then 4 else 0
      else 0
  }

  /** `s` is a sequence of well-formed characters. */
  predicate Valid(s: seq<byte>)
    decreases |s|
  {
    |s| == 0 || (CharWidth(s) > 0 && Valid(s[CharWidth(s)..]))
  }

  type Str = s: seq<byte> | Valid(s) witness []

  predicate IsAscii(s: seq<byte>) {
    forall i :: 0 <= i < |s| ==> s[i] < 0x80
  }

  /** The bytes of a string literal.  Every literal of the model is ASCII,
      whose UTF-8 bytes are the character codes; any other character
      becomes 0 so that the result is ASCII for any argument. */
  function Ascii(s: string): (r: seq<byte>)
    ensures |r| == |s| && IsAscii(r)
    ensures forall i :: 0 <= i < |s| ==> r[i] == if s[i] < 0x80 as char then s[i] as int else 0
  {
    if |s| == 0 then [] else [if s[0] < 0x80 as char then s[0] as int else 0] + Ascii(s[1..])
  }

  /** A string literal as a well-formed string. */
  function AsciiStr(s: string): (r: Str)
    ensures r == Ascii(s)
  {
    AsciiIsValid(Ascii(s));
    Ascii(s)
  }

  /** The width of a character only depends on its own bytes. */
  lemma {:induction false} WidthOfExtension(s: seq<byte>, t: seq<byte>)
    requires CharWidth(s) > 0
    ensures CharWidth(s + t) == CharWidth(s)
  {
    assert (s + t)[0] == s[0];
    if |s| >= 2 { assert (s + t)[1] == s[1]; }
    if |s| >= 3 { assert (s + t)[2] == s[2]; }
    if |s| >= 4 { assert (s + t)[3] == s[3]; }
  }

  /** Every byte of a character but its first is a continuation byte, so it
      is never an ASCII byte. */
  lemma {:induction false} InnerBytesAreNotAscii(s: seq<byte>, k: nat)
    requires 0 < k < CharWidth(s)
    ensures s[k] >= 0x80
  {
  }

  lemma {:induction false} AsciiIsValid(s: seq<byte>)
    requires IsAscii(s)
    ensures Valid(s)
    decreases |s|
  {
    if |s| > 0 {
      assert CharWidth(s) == 1;
      AsciiIsValid(s[1..]);
    }
  }

  /** Well-formed strings are closed under concatenation. */
  lemma {:induction false} ConcatValid(a: seq<byte>, b: seq<byte>)
    requires Valid(a) && Valid(b)
    ensures Valid(a + b)
    decreases |a|
  {
    if |a| > 0 {
      var n := CharWidth(a);
      WidthOfExtension(a, b);
      assert (a + b)[n..] == a[n..] + b;
      ConcatValid(a[n..], b);
    } else {
      assert a + b == b;
    }
  }

  /** The first character of a string is a well-formed string by itself. */
  lemma {:induction false} FirstCharValid(s: seq<byte>)
    requires CharWidth(s) > 0
    ensures Valid(s[..CharWidth(s)])
  {
    var n := CharWidth(s);
    var c := s[..n];
    assert c == s[..n] + [];
    assert c[..n] == s[..n];
    WidthOfPrefix(s, n);
    assert c[n..] == [];
  }

  lemma {:induction false} WidthOfPrefix(s: seq<byte>, n: nat)
    requires CharWidth(s) > 0 && n == CharWidth(s)
    ensures CharWidth(s[..n]) == n
  {
    assert s == s[..n] + s[n..];
    var c := s[..n];
    assert c[0] == s[0];
    if n >= 2 { assert c[1] == s[1]; }
    if n >= 3 { assert c[2] == s[2]; }
    if n >= 4 { assert c[3] == s[3]; }
  }

  /** Cutting a well-formed string at an ASCII byte leaves two well-formed
      strings: an ASCII byte always sits on a character boundary. */
  lemma {:induction false} SplitAtAscii(s: seq<byte>, k: nat)
    requires Valid(s) && k < |s| && s[k] < 0x80
    ensures Valid(s[..k]) && Valid(s[k + 1..])
    decreases |s|
  {
    var n := CharWidth(s);
    if k == 0 {
      assert n == 1;
      assert s[..0] == [];
    } else if k < n {
      InnerBytesAreNotAscii(s, k);
    } else {
      SplitAtAscii(s[n..], k - n);
      SplitPastFirstChar(s, k);
    }
  }

  /** The step of `SplitAtAscii` for a cut past the first character. */
  lemma {:induction false} SplitPastFirstChar(s: seq<byte>, k: nat)
    requires Valid(s) && 0 < CharWidth(s) <= k < |s|
    requires var t := s[CharWidth(s)..];
             Valid(t[..k - CharWidth(s)]) && Valid(t[k - CharWidth(s) + 1..])
    ensures Valid(s[..k]) && Valid(s[k + 1..])
  {
    var n := CharWidth(s);
    SliceOfSuffix(s, n, k);
    FirstCharValid(s);
    ConcatValid(s[..n], s[n..k]);
  }

  lemma {:induction false} SliceOfSuffix(s: seq<byte>, n: nat, k: nat)
    requires n <= k < |s|
    ensures s[n..][..k - n] == s[n..k]
    ensures s[n..][k - n + 1..] == s[k + 1..]
    ensures s[..k] == s[..n] + s[n..k]
  {
  }
}
