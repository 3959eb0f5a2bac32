/**
 * The Python string built-ins the modelled code relies on: strip, lower,
 * title, split on one character, join, zfill, int() and str() on integers.
 * Characters are compared as code points; case mapping and whitespace are
 * the ASCII ones.
 */
module Strings {
  import opened Wrappers

  /** The characters Python's str.strip() removes (ASCII whitespace). */
  predicate IsSpace(c: char)
  {
    c == ' ' || c == '\t' || c == '\n' || c == '\r' || c == 11 as char || c == 12 as char
  }

  predicate IsUpper(c: char) { 'A' <= c <= 'Z' }
  predicate IsLower(c: char) { 'a' <= c <= 'z' }
  /** A character with a case (str.title() treats only these as letters). */
  predicate IsCased(c: char) { IsUpper(c) || IsLower(c) }
  predicate IsDigit(c: char) { '0' <= c <= '9' }

  function Lower(c: char): (r: char)
    ensures IsSpace(r) <==> IsSpace(c)
    ensures !IsUpper(r)
    ensures IsCased(r) <==> IsCased(c)
  {
    if IsUpper(c) then (c as int + 32) as char else c
  }

  function Upper(c: char): (r: char)
    ensures !IsLower(r)
    ensures IsCased(r) <==> IsCased(c)
  {
    if IsLower(c) then (c as int - 32) as char else c
  }

  /** str.lower() */
  function LowerString(s: string): (r: string)
    ensures |r| == |s|
    ensures forall i :: 0 <= i < |s| ==> r[i] == Lower(s[i])
  {
    if s == [] then [] else [Lower(s[0])] + LowerString(s[1..])
  }

  /** str.lstrip() */
  function StripLeft(s: string): (r: string)
    ensures |r| <= |s| && r == s[|s| - |r|..]
    ensures r != [] ==> !IsSpace(r[0])
    ensures forall i :: 0 <= i < |s| - |r| ==> IsSpace(s[i])
  {
    if s != [] && IsSpace(s[0]) then StripLeft(s[1..]) else s
  }

  /** str.rstrip() */
  function StripRight(s: string): (r: string)
    ensures |r| <= |s| && r == s[..|r|]
    ensures r != [] ==> !IsSpace(r[|r| - 1])
    ensures forall i :: |r| <= i < |s| ==> IsSpace(s[i])
  {
    if s != [] && IsSpace(s[|s| - 1]) then StripRight(s[..|s| - 1]) else s
  }

  /** str.strip() */
  function Strip(s: string): string
  {
    StripRight(StripLeft(s))
  }

  /** The normal form both series names and search hits are compared in: s.strip().lower(). */
  function Normalize(s: string): string
  {
    LowerString(Strip(s))
  }

  predicate Trimmed(s: string)
  {
    s != [] ==> !IsSpace(s[0]) && !IsSpace(s[|s| - 1])
  }

  lemma {:induction false} StripKeepsTrimmed(s: string)
    requires Trimmed(s)
    ensures Strip(s) == s
  {
  }

  lemma {:induction false} StripIsTrimmed(s: string)
    ensures Trimmed(Strip(s))
  {
    var l := StripLeft(s);
    var r := StripRight(l);
    if r != [] {
      assert r[0] == l[0];
    }
  }

  /** Normalizing twice is normalizing once. */
  lemma {:induction false} NormalizeIdempotent(s: string)
    ensures Normalize(Normalize(s)) == Normalize(s)
  {
    var t := Strip(s);
    StripIsTrimmed(s);
    var n := LowerString(t);
    LowerKeepsTrimmed(t);
    StripKeepsTrimmed(n);
    LowerStringIdempotent(t);
  }

  lemma {:induction false} LowerKeepsTrimmed(t: string)
    requires Trimmed(t)
    ensures Trimmed(LowerString(t))
  {
    var n := LowerString(t);
    if n != [] {
      assert n[0] == Lower(t[0]) && n[|n| - 1] == Lower(t[|t| - 1]);
    }
  }

  lemma {:induction false} LowerStringIdempotent(t: string)
    ensures LowerString(LowerString(t)) == LowerString(t)
  {
    var n := LowerString(t);
    var m := LowerString(n);
    assert |m| == |n|;
    forall i | 0 <= i < |n| ensures m[i] == n[i] {
      assert m[i] == Lower(n[i]);
    }
  }

  /** Normalize never makes a string longer. */
  lemma {:induction false} NormalizeShorter(s: string)
    ensures |Normalize(s)| <= |s|
  {
  }

  /**
   * str.title(): a cased character is upper-cased when the character before
   * it is not cased and lower-cased when it is; other characters are kept.
   */
  function TitleFrom(s: string, afterCased: bool): (r: string)
    ensures |r| == |s|
    ensures forall i :: 0 <= i < |s| ==> (r[i] == ' ' <==> s[i] == ' ')
  {
    if s == [] then []
    else
      var c := s[0];
      var t := if !IsCased(c) then c else if afterCased then Lower(c) else Upper(c);
      [t] + TitleFrom(s[1..], IsCased(c))
  }

  function Title(s: string): string
  {
    TitleFrom(s, false)
  }

  /** What str.title() puts at position i, given whether the text before s ended in a cased character. */
  function TitleAt(s: string, afterCased: bool, i: nat): char
    requires i < |s|
  {
    if !IsCased(s[i]) then s[i]
    else if (if i == 0 then afterCased else IsCased(s[i - 1])) then Lower(s[i])
    else Upper(s[i])
  }

  /**
   * Every position of the title-cased text: uncased characters are kept, a
   * cased character following a cased one is lowered, any other cased
   * character (the start of a run of letters) is raised.
   */
  lemma {:induction false} TitleFromCases(s: string, afterCased: bool)
    ensures forall i :: 0 <= i < |s| ==> TitleFrom(s, afterCased)[i] == TitleAt(s, afterCased, i)
  {
    if s != [] {
      var r := TitleFrom(s, afterCased);
      var tail := s[1..];
      TitleFromCases(tail, IsCased(s[0]));
      assert r[1..] == TitleFrom(tail, IsCased(s[0]));
      forall i | 1 <= i < |s| ensures r[i] == TitleAt(s, afterCased, i) {
        assert r[i] == TitleFrom(tail, IsCased(s[0]))[i - 1];
        assert tail[i - 1] == s[i];
        if i >= 2 {
          assert tail[i - 2] == s[i - 1];
        }
      }
    }
  }

  /** Title over a whole string: the same per-position rule, nothing cased before it. */
  lemma {:induction false} TitleCases(s: string)
    ensures forall i :: 0 <= i < |s| ==> Title(s)[i] == TitleAt(s, false, i)
  {
    TitleFromCases(s, false);
  }

  /** str.split(sep) with an explicit one-character separator: never empty. */
  function Split(s: string, sep: char): (parts: seq<string>)
    ensures |parts| >= 1
    ensures forall i :: 0 <= i < |parts| ==> sep !in parts[i]
    ensures sep !in s ==> parts == [s]
    ensures sep in s ==> |parts| > 1
  {
    if s == [] then [[]]
    else
      var rest := Split(s[1..], sep);
      assert s == [s[0]] + s[1..];
      if s[0] == sep then [[]] + rest
      else [[s[0]] + rest[0]] + rest[1..]
  }

  /** sep.join(parts) */
  function Join(sep: char, parts: seq<string>): string
  {
    if parts == [] then []
    else if |parts| == 1 then parts[0]
    else parts[0] + [sep] + Join(sep, parts[1..])
  }

  /** Every occurrence of a character replaced by another, positions kept. */
  function Replace(s: string, a: char, b: char): (r: string)
    ensures |r| == |s|
    ensures forall i :: 0 <= i < |s| ==> r[i] == if s[i] == a then b else s[i]
  {
    if s == [] then [] else [if s[0] == a then b else s[0]] + Replace(s[1..], a, b)
  }

  /** Regrouping a concatenation of four strings. */
  lemma {:induction false} ConcatRegroup(w: string, x: string, y: string, z: string)
    ensures w + x + y + z == w + (x + y + z)
  {
  }

  /** sep.join(parts) for more than one part: the first part, the separator, then the rest joined. */
  lemma {:induction false} JoinCons(sep: char, parts: seq<string>)
    requires |parts| > 1
    ensures Join(sep, parts) == parts[0] + [sep] + Join(sep, parts[1..])
  {
  }

  /** Joining the pieces of a split with another character replaces the separator by it. */
  lemma {:induction false} JoinSplit(s: string, a: char, b: char)
    ensures Join(b, Split(s, a)) == Replace(s, a, b)
  {
    if s != [] {
      var rest := Split(s[1..], a);
      var parts := Split(s, a);
      JoinSplit(s[1..], a, b);
      var c := if s[0] == a then b else s[0];
      assert Replace(s, a, b) == [c] + Replace(s[1..], a, b);
      if s[0] == a {
        assert parts == [[]] + rest;
        assert |parts| > 1 && parts[0] == [] && parts[1..] == rest;
        assert Join(b, parts) == [] + [b] + Join(b, rest);
      } else {
        var head := [s[0]] + rest[0];
        assert parts == [head] + rest[1..];
        if |rest| == 1 {
          assert |parts| == 1 && parts[0] == head;
          assert Join(b, parts) == head;
          assert Join(b, rest) == rest[0];
        } else {
          var tail := Join(b, rest[1..]);
          assert |parts| > 1 && parts[0] == head && parts[1..] == rest[1..];
          assert Join(b, parts) == head + [b] + tail;
          assert Join(b, rest) == rest[0] + [b] + tail by { JoinCons(b, rest); }
          assert head + [b] + tail == [s[0]] + (rest[0] + [b] + tail) by { ConcatRegroup([s[0]], rest[0], [b], tail); }
        }
      }
    }
  }

  /** The text after the last occurrence of sep, the whole string when there is none: s.split(sep)[-1]. */
  function LastPiece(s: string, sep: char): string
  {
    var parts := Split(s, sep);
    parts[|parts| - 1]
  }

  /** LastPiece is a suffix of s without sep, and what precedes it (if anything) is sep. */
  lemma {:induction false} LastPieceIsTextAfterLastSep(s: string, sep: char)
    ensures var r := LastPiece(s, sep);
      && |r| <= |s| && r == s[|s| - |r|..]
      && sep !in r
      && (|r| < |s| ==> s[|s| - |r| - 1] == sep)
  {
    var r := LastPiece(s, sep);
    var parts := Split(s, sep);
    assert sep !in r by { assert r == parts[|parts| - 1]; }
    if s == [] {
    } else if sep !in s {
      assert parts == [s];
    } else {
      var t := s[1..];
      var rest := Split(t, sep);
      if s[0] == sep {
        assert parts == [[]] + rest;
        assert r == LastPiece(t, sep);
      } else {
        assert sep in t;
        assert |rest| > 1;
        assert parts == [[s[0]] + rest[0]] + rest[1..];
        assert r == LastPiece(t, sep);
      }
      LastPieceIsTextAfterLastSep(t, sep);
      assert |r| <= |t| && r == t[|t| - |r|..];
      if |r| == |t| {
        assert r == t;
        assert s[0] == sep;
      }
    }
  }

  /** The text after the last separator of a + sep + e, when e holds no separator, is e. */
  lemma {:induction false} LastPieceAfterSep(a: string, e: string, sep: char)
    requires sep !in e
    ensures LastPiece(a + [sep] + e, sep) == e
  {
    var s := a + [sep] + e;
    var r := LastPiece(s, sep);
    LastPieceIsTextAfterLastSep(s, sep);
    assert s[|s| - |e|..] == e;
    assert s[|s| - |e| - 1] == sep;
    assert |r| == |e|;
  }

  /** str.zfill(width): left-pad with '0' to width, after a leading sign if there is one. */
  function ZFill(s: string, width: nat): (r: string)
    ensures |r| == if |s| >= width then |s| else width
    ensures |s| >= width ==> r == s
    ensures |s| < width && (s == [] || (s[0] != '+' && s[0] != '-')) ==>
      r == Zeros(width - |s|) + s
    ensures |s| < width && s != [] && (s[0] == '+' || s[0] == '-') ==>
      r == [s[0]] + Zeros(width - |s|) + s[1..]
  {
    if |s| >= width then s
    else if s != [] && (s[0] == '+' || s[0] == '-') then [s[0]] + Zeros(width - |s|) + s[1..]
    else Zeros(width - |s|) + s
  }

  function Zeros(n: nat): (r: string)
    ensures |r| == n && forall i :: 0 <= i < n ==> r[i] == '0'
  {
    if n == 0 then [] else "0" + Zeros(n - 1)
  }

  function DigitValue(c: char): nat
    requires IsDigit(c)
  {
    c as int - '0' as int
  }

  function DigitChar(d: nat): (c: char)
    requires d < 10
    ensures IsDigit(c) && DigitValue(c) == d
  {
    ('0' as int + d) as char
  }

  predicate AllDigits(s: string)
  {
    forall i :: 0 <= i < |s| ==> IsDigit(s[i])
  }

  /** The decimal value of a string of digits, most significant first. */
  function DigitsValue(s: string): nat
    requires AllDigits(s)
  {
    if s == [] then 0 else 10 * DigitsValue(s[..|s| - 1]) + DigitValue(s[|s| - 1])
  }

  /** int(s): optional surrounding whitespace, an optional sign, then at least one digit. */
  function ParseInt(s: string): Result<int>
  {
    var t := Strip(s);
    if t != [] && (t[0] == '+' || t[0] == '-') then
      var d := t[1..];
      if d != [] && AllDigits(d) then Ok(if t[0] == '-' then -(DigitsValue(d) as int) else DigitsValue(d))
      else Err(ValueError)
    else if t != [] && AllDigits(t) then Ok(DigitsValue(t))
    else Err(ValueError)
  }

  /** str(n) for a non-negative integer: its decimal digits without leading zeros. */
  function NatToString(n: nat): (r: string)
    ensures r != [] && AllDigits(r)
    ensures DigitsValue(r) == n
    ensures n < 10 <==> |r| == 1
  {
    if n < 10 then [DigitChar(n)]
    else
      var p := NatToString(n / 10);
      var r := p + [DigitChar(n % 10)];
      assert r[..|r| - 1] == p;
      r
  }

  /** str(n) for any integer. */
  function IntToString(n: int): string
  {
    if n < 0 then "-" + NatToString(-n) else NatToString(n)
  }

  /** int(str(n)) == n */
  lemma {:induction false} ParseIntToString(n: int)
    ensures ParseInt(IntToString(n)) == Ok(n)
  {
    var s := IntToString(n);
    if n < 0 {
      var d := NatToString(-n);
      assert s == "-" + d && s[1..] == d;
      assert !IsSpace(s[0]) && !IsSpace(s[|s| - 1]) by {
        assert s[|s| - 1] == d[|d| - 1] && IsDigit(d[|d| - 1]);
      }
      StripKeepsTrimmed(s);
      assert Strip(s) == s;
    } else {
      var d := NatToString(n);
      assert s == d;
      assert IsDigit(s[0]) && IsDigit(s[|s| - 1]);
      StripKeepsTrimmed(s);
    }
  }
}
