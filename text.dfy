/**
 * The Python `str` operations the retrieval script relies on, written out
 * over `seq<char>`: `strip()`, `split(sep)`, `replace(from, to)` for single
 * characters, `str(int)` and `int(str)`.
 */
module Text {
  import opened Base

  /** Python's `str.isspace()` for one character. */
  predicate IsSpace(c: char)
    ensures c == ' ' || c == '\t' || c == '\n' || c == '\r' ==> IsSpace(c)
    ensures IsSpace(c) ==> !('0' <= c <= '9') && c != '-' && c != '+' && c != ','
  {
    var n := c as int;
    (9 <= n <= 13) || (28 <= n <= 32) || n == 0x85 || n == 0xA0 || n == 0x1680
    || (0x2000 <= n <= 0x200A) || n == 0x2028 || n == 0x2029 || n == 0x202F
    || n == 0x205F || n == 0x3000
  }

  /**
   * The file, group, record and unit separators (U+001C to U+001F):
   * whitespace to `str.isspace()`, but characters `int()` refuses.
   */
  predicate IsInfoSeparator(c: char)
    ensures IsInfoSeparator(c) ==> IsSpace(c)
  {
    28 <= c as int <= 31
  }

  /** Drops leading whitespace. */
  function StripLeft(s: string): (r: string)
    ensures |r| <= |s| && r == s[|s| - |r|..]
    ensures forall k :: 0 <= k < |s| - |r| ==> IsSpace(s[k])
    ensures r != [] ==> !IsSpace(r[0])
  {
    if s != [] && IsSpace(s[0]) then
      var r := StripLeft(s[1..]);
      assert r == s[|s| - |r|..];
      r
    else s
  }

  /** Drops trailing whitespace. */
  function StripRight(s: string): (r: string)
    ensures |r| <= |s| && r == s[..|r|]
    ensures forall k :: |r| <= k < |s| ==> IsSpace(s[k])
    ensures r != [] ==> !IsSpace(r[|r| - 1])
  {
    if s != [] && IsSpace(s[|s| - 1]) then
      var r := StripRight(s[..|s| - 1]);
      assert r == s[..|r|];
      r
    else s
  }

  /**
   * Python's `str.strip()`: what is left after removing all whitespace at
   * both ends; it neither starts nor ends with whitespace.
   */
  function Strip(s: string): (r: string)
    ensures |r| <= |s|
    ensures r != [] ==> !IsSpace(r[0]) && !IsSpace(r[|r| - 1])
  {
    StripRight(StripLeft(s))
  }

  /** `r` is `s[lo..hi]`, and everything of `s` outside it is whitespace. */
  predicate PaddedInfix(s: string, r: string, lo: int, hi: int) {
    0 <= lo <= hi <= |s| && r == s[lo..hi]
    && (forall k :: 0 <= k < lo ==> IsSpace(s[k]))
    && (forall k :: hi <= k < |s| ==> IsSpace(s[k]))
  }

  /** The strip of `s` is an infix of `s` with only whitespace around it. */
  lemma StripIsInfix(s: string)
    ensures exists lo, hi :: PaddedInfix(s, Strip(s), lo, hi)
  {
    var left := StripLeft(s);
    var r := StripRight(left);
    var lo := |s| - |left|;
    var hi := lo + |r|;
    assert r == s[lo..hi] by {
      assert left == s[lo..] && r == left[..|r|];
    }
    forall k | hi <= k < |s| ensures IsSpace(s[k]) {
      assert s[k] == left[k - lo];
    }
    assert Strip(s) == r;
    assert PaddedInfix(s, Strip(s), lo, hi);
  }

  /** A string without whitespace is its own strip. */
  lemma StripNoSpace(s: string)
    requires forall k :: 0 <= k < |s| ==> !IsSpace(s[k])
    ensures Strip(s) == s
  {
  }

  /** Text that neither starts nor ends with whitespace is its own strip. */
  lemma StripUnpadded(s: string)
    requires s != [] && !IsSpace(s[0]) && !IsSpace(s[|s| - 1])
    ensures Strip(s) == s
  {
    assert StripLeft(s) == s;
    assert StripRight(s) == s;
  }

  /** The first position of `c` in `s`. */
  function IndexOf(s: string, c: char): (i: nat)
    requires c in s
    ensures i < |s| && s[i] == c && c !in s[..i]
  {
    if s[0] == c then 0 else
      var j := IndexOf(s[1..], c);
      assert s[..j + 1] == [s[0]] + s[1..][..j];
      1 + j
  }

  /**
   * Python's `s.split(sep)`: the pieces between occurrences of `sep`, in
   * order. There is always at least one piece, and the first is the text
   * before the first `sep` (all of `s` when there is none).
   */
  function Split(s: string, sep: char): (pieces: seq<string>)
    ensures |pieces| >= 1
    ensures forall p :: p in pieces ==> sep !in p
    ensures |pieces[0]| <= |s| && pieces[0] == s[..|pieces[0]|]
    ensures |pieces[0]| == |s| || s[|pieces[0]|] == sep
    decreases |s|
  {
    if sep !in s then [s]
    else
      var i := IndexOf(s, sep);
      [s[..i]] + Split(s[i + 1..], sep)
  }

  /** Python's `sep.join(pieces)`. */
  function Join(pieces: seq<string>, sep: char): string
  {
    if pieces == [] then ""
    else if |pieces| == 1 then pieces[0]
    else pieces[0] + [sep] + Join(pieces[1..], sep)
  }

  /** Joining the pieces of a split gives back the original text. */
  lemma {:induction false} JoinSplit(s: string, sep: char)
    ensures Join(Split(s, sep), sep) == s
    decreases |s|
  {
    if sep in s {
      var i := IndexOf(s, sep);
      var pieces := Split(s, sep);
      var rest := Split(s[i + 1..], sep);
      assert pieces == [s[..i]] + rest;
      assert |pieces| > 1 && pieces[0] == s[..i] && pieces[1..] == rest;
      assert Join(pieces, sep) == s[..i] + [sep] + Join(rest, sep);
      JoinSplit(s[i + 1..], sep);
      assert s == s[..i] + [sep] + s[i + 1..];
    }
  }

  /** In `p + [sep] + rest` with no `sep` in `p`, the first `sep` follows `p`. */
  lemma {:induction false} IndexOfAfterPiece(p: string, sep: char, rest: string)
    requires sep !in p
    ensures sep in p + [sep] + rest && IndexOf(p + [sep] + rest, sep) == |p|
  {
    var s := p + [sep] + rest;
    assert s[|p|] == sep;
    if p != [] {
      assert s[0] == p[0] && p[0] in p;
      assert s[1..] == p[1..] + [sep] + rest;
      IndexOfAfterPiece(p[1..], sep, rest);
    }
  }

  /** Splitting `p + [sep] + rest` with no `sep` in `p` yields `p`, then the pieces of `rest`. */
  lemma SplitAfterPiece(p: string, sep: char, rest: string)
    requires sep !in p
    ensures Split(p + [sep] + rest, sep) == [p] + Split(rest, sep)
  {
    var s := p + [sep] + rest;
    IndexOfAfterPiece(p, sep, rest);
    assert s[..|p|] == p;
    assert s[|p| + 1..] == rest;
  }

  /** Splitting a join of separator-free pieces gives back the pieces. */
  lemma {:induction false} SplitJoin(pieces: seq<string>, sep: char)
    requires |pieces| >= 1
    requires forall p :: p in pieces ==> sep !in p
    ensures Split(Join(pieces, sep), sep) == pieces
    decreases |pieces|
  {
    if |pieces| > 1 {
      var tail := pieces[1..];
      assert pieces[0] in pieces;
      assert forall q :: q in tail ==> q in pieces;
      SplitJoin(tail, sep);
      SplitAfterPiece(pieces[0], sep, Join(tail, sep));
      assert pieces == [pieces[0]] + tail;
    }
  }

  /** Text with one separator splits into the two sides. */
  lemma SplitTwo(first: string, second: string, sep: char)
    requires sep !in first && sep !in second
    ensures Split(first + [sep] + second, sep) == [first, second]
  {
    var pieces := [first, second];
    assert pieces[1..] == [second];
    assert Join(pieces, sep) == first + [sep] + second;
    assert forall p :: p in pieces ==> sep !in p;
    SplitJoin(pieces, sep);
  }

  /** Python's `s.replace(from, to)` for single characters. */
  function ReplaceChar(s: string, from: char, to: char): (r: string)
    ensures |r| == |s|
    ensures forall k :: 0 <= k < |s| ==> r[k] == if s[k] == from then to else s[k]
  {
    if s == [] then []
    else [if s[0] == from then to else s[0]] + ReplaceChar(s[1..], from, to)
  }

  /** Python's `s.replace(c, '')`: every `c` is dropped. */
  function RemoveChar(s: string, c: char): (r: string)
    ensures c !in r
    ensures |r| <= |s|
  {
    if s == [] then []
    else (if s[0] == c then [] else [s[0]]) + RemoveChar(s[1..], c)
  }

  /** Removal keeps every other character as often as it occurs. */
  lemma {:induction false} RemoveCharCounts(s: string, c: char)
    ensures forall x :: x != c ==> multiset(RemoveChar(s, c))[x] == multiset(s)[x]
  {
    if s != [] {
      assert s == [s[0]] + s[1..];
      RemoveCharCounts(s[1..], c);
    }
  }

  /** Removal works piecewise, so the kept characters keep their order. */
  lemma {:induction false} RemoveCharAppend(a: string, b: string, c: char)
    ensures RemoveChar(a + b, c) == RemoveChar(a, c) + RemoveChar(b, c)
  {
    if a != [] {
      assert (a + b)[0] == a[0] && (a + b)[1..] == a[1..] + b;
      RemoveCharAppend(a[1..], b, c);
    } else {
      assert a + b == b;
    }
  }

  predicate IsDigit(c: char) {
    '0' <= c <= '9'
  }

  predicate IsDigits(s: string) {
    |s| >= 1 && forall k :: 0 <= k < |s| ==> IsDigit(s[k])
  }

  function DigitChar(d: nat): (c: char)
    requires d < 10
    ensures IsDigit(c) && c as int - '0' as int == d
  {
    (d + '0' as int) as char
  }

  /** The decimal digits of `n`, without leading zeros. */
  function NatToString(n: nat): (s: string)
    ensures IsDigits(s)
    ensures |s| > 1 ==> s[0] != '0'
  {
    if n < 10 then [DigitChar(n)] else NatToString(n / 10) + [DigitChar(n % 10)]
  }

  /** Python's `str(i)` for an integer. */
  function IntToString(i: int): (s: string)
    ensures |s| >= 1 && (IsDigits(s) || (s[0] == '-' && IsDigits(s[1..])))
    ensures s[0] == '-' <==> i < 0
    ensures |s| > 1 && s[0] != '-' ==> s[0] != '0'
  {
    if i < 0 then "-" + NatToString(-i) else NatToString(i)
  }

  /** The value of a string of decimal digits (leading zeros allowed). */
  function ParseNat(s: string): nat
    requires IsDigits(s)
  {
    var d := s[|s| - 1] as int - '0' as int;
    if |s| == 1 then d else ParseNat(s[..|s| - 1]) * 10 + d
  }

  /** An optional sign followed by decimal digits. */
  function ParseSigned(t: string): Option<int>
  {
    if t == [] then None
    else if t[0] == '-' || t[0] == '+' then
      if IsDigits(t[1..]) then
        var n: int := ParseNat(t[1..]);
        Some(if t[0] == '-' then -n else n)
      else None
    else if IsDigits(t) then Some(ParseNat(t))
    else None
  }

  /**
   * Python's `int(s)` on text: surrounding whitespace, an optional sign,
   * then decimal digits; anything else is refused. `int()` pads with the
   * whitespace of `strip()` less the four separator controls, and those,
   * being neither digits nor signs, spoil the text wherever they occur.
   */
  function ParseInt(s: string): (r: Option<int>)
    ensures var t := Strip(s);
            r.Some? <==> (forall k :: 0 <= k < |s| ==> !IsInfoSeparator(s[k]))
                         && (IsDigits(t) || (|t| >= 1 && (t[0] == '-' || t[0] == '+') && IsDigits(t[1..])))
    ensures r.Some? && IsDigits(Strip(s)) ==> r.value >= 0
  {
    if exists k :: 0 <= k < |s| && IsInfoSeparator(s[k]) then None
    else ParseSigned(Strip(s))
  }

  lemma {:induction false} ParseNatToString(n: nat)
    ensures ParseNat(NatToString(n)) == n
  {
    if n >= 10 {
      var s := NatToString(n);
      assert s[..|s| - 1] == NatToString(n / 10);
      ParseNatToString(n / 10);
    }
  }

  /** No character of a decimal rendering is whitespace. */
  lemma NumberHasNoSpace(s: string)
    requires IsDigits(s) || (|s| >= 1 && s[0] == '-' && IsDigits(s[1..]))
    ensures forall k :: 0 <= k < |s| ==> !IsSpace(s[k])
  {
    forall k | 0 <= k < |s| ensures !IsSpace(s[k]) {
      if !IsDigits(s) && k > 0 {
        assert s[k] == s[1..][k - 1];
      }
    }
  }

  lemma ParseSignedToString(i: int)
    ensures ParseSigned(IntToString(i)) == Some(i)
  {
    var s := IntToString(i);
    if i < 0 {
      var t := NatToString(-i);
      assert s == "-" + t && s[0] == '-' && s[1..] == t;
      ParseNatToString(-i);
    } else {
      var t := NatToString(i);
      assert s == t && IsDigits(t) && t[0] != '-' && t[0] != '+';
      ParseNatToString(i);
    }
  }

  /** `int('\x1c42')` and `int('42\x1f')` are refused, though `strip()` removes the padding. */
  lemma SeparatorPaddingRefused()
    ensures Strip([28 as char, '4', '2']) == "42" && ParseInt([28 as char, '4', '2']) == None
    ensures ParseInt(['4', '2', 31 as char]) == None
  {
    assert StripLeft([28 as char, '4', '2']) == "42";
    assert IsInfoSeparator([28 as char, '4', '2'][0]);
    assert IsInfoSeparator(['4', '2', 31 as char][2]);
  }

  /** `int(str(i)) == i`: the decimal rendering of an integer identifies it. */
  lemma ParseIntToString(i: int)
    ensures ParseInt(IntToString(i)) == Some(i)
  {
    var s := IntToString(i);
    NumberHasNoSpace(s);
    StripNoSpace(s);
    ParseSignedToString(i);
  }
}
