/**
 * The helpers of scrappy.py, the first revision of the scraper: removing
 * <...> tags from the text of an XML node, and formatting a season or
 * episode number with its prefix and the name a mapped file is renamed to.
 */
module LegacyText {
  import opened Wrappers
  import opened Strings
  import opened Formatters
  import opened EpisodeMatch

  /**
   * What stripTags leaves of s: outside a tag each character is kept and a
   * '<' opens a tag; inside a tag every character is dropped up to and
   * including the closing '>'. A tag still open at the end runs the inner
   * loop past the end of the list: IndexError.
   */
  function StripFrom(s: string, inTag: bool): Result<string>
    decreases |s|
  {
    if s == [] then (if inTag then Err(IndexError) else Ok([]))
    else if inTag then StripFrom(s[1..], s[0] != '>')
    else if s[0] == '<' then StripFrom(s[1..], true)
    else Prefixed([s[0]], StripFrom(s[1..], false))
  }

  /** p before the text, or the exception unchanged. */
  function Prefixed(p: string, r: Result<string>): (q: Result<string>)
    ensures q.Err? <==> r.Err?
    ensures q.Err? ==> q == r
  {
    if r.Ok? then Ok(p + r.value) else r
  }

  lemma {:induction false} PrefixedTwice(p: string, q: string, r: Result<string>)
    ensures Prefixed(p, Prefixed(q, r)) == Prefixed(p + q, r)
  {
    if r.Ok? {
      assert p + (q + r.value) == (p + q) + r.value;
    }
  }

  lemma {:induction false} PrefixedNothing(r: Result<string>)
    ensures Prefixed([], r) == r
  {
    if r.Ok? {
      assert [] + r.value == r.value;
    }
  }

  function StripTagsSpec(node: string): Result<string>
  {
    StripFrom(node, false)
  }

  /**
   * stripTags: the nested loops pop from the list in place, the outer one
   * stepping past kept characters and the inner one popping a tag.
   */
  method StripTags(node: string) returns (r: Result<string>)
    ensures r == StripTagsSpec(node)
  {
    var nodelist := node;
    var i := 0;
    assert nodelist[..0] == [] && nodelist[0..] == node;
    PrefixedNothing(StripFrom(node, false));
    while i < |nodelist|
      invariant 0 <= i <= |nodelist|
      invariant StripTagsSpec(node) == Prefixed(nodelist[..i], StripFrom(nodelist[i..], false))
      decreases |nodelist| - i
    {
      if nodelist[i] == '<' {
        ghost var n0 := |nodelist|;
        assert StripFrom(nodelist[i..], false) == StripFrom(nodelist[i..], true) by {
          assert nodelist[i..][1..] == nodelist[i + 1..];
        }
        while true
          invariant i <= |nodelist| <= n0
          invariant StripTagsSpec(node) == Prefixed(nodelist[..i], StripFrom(nodelist[i..], true))
          decreases |nodelist|
        {
          if i >= |nodelist| {
            return Err(IndexError);
          }
          if nodelist[i] == '>' {
            break;
          }
          assert nodelist[i..][1..] == (nodelist[..i] + nodelist[i + 1..])[i..];
          assert (nodelist[..i] + nodelist[i + 1..])[..i] == nodelist[..i];
          nodelist := nodelist[..i] + nodelist[i + 1..];
        }
        assert nodelist[i..][1..] == (nodelist[..i] + nodelist[i + 1..])[i..];
        assert (nodelist[..i] + nodelist[i + 1..])[..i] == nodelist[..i];
        nodelist := nodelist[..i] + nodelist[i + 1..];
      } else {
        assert nodelist[i..][1..] == nodelist[i + 1..];
        assert nodelist[..i] + [nodelist[i]] == nodelist[..i + 1];
        PrefixedTwice(nodelist[..i], [nodelist[i]], StripFrom(nodelist[i + 1..], false));
        i := i + 1;
      }
    }
    assert nodelist[i..] == [] && nodelist[..i] == nodelist && nodelist + [] == nodelist;
    return Ok(nodelist);
  }

  /** Text without '<' comes back unchanged. */
  lemma {:induction false} StripTagsKeepsPlainText(s: string)
    requires '<' !in s
    ensures StripFrom(s, false) == Ok(s)
    decreases |s|
  {
    if s != [] {
      assert '<' !in s[1..];
      StripTagsKeepsPlainText(s[1..]);
      assert [s[0]] + s[1..] == s;
    }
  }

  /** No '<' survives. */
  lemma {:induction false} StripTagsRemovesOpeners(s: string, inTag: bool)
    ensures StripFrom(s, inTag).Ok? ==> '<' !in StripFrom(s, inTag).value
    decreases |s|
  {
    if s != [] {
      if inTag {
        StripTagsRemovesOpeners(s[1..], s[0] != '>');
      } else if s[0] == '<' {
        StripTagsRemovesOpeners(s[1..], true);
      } else {
        StripTagsRemovesOpeners(s[1..], false);
      }
    }
  }

  /** Plain text before the rest is kept as it is, before what the rest gives. */
  lemma {:induction false} StripTagsAfterPlainText(a: string, b: string)
    requires '<' !in a
    ensures StripFrom(a + b, false) == Prefixed(a, StripFrom(b, false))
    decreases |a|
  {
    if a != [] {
      assert (a + b)[1..] == a[1..] + b;
      assert '<' !in a[1..];
      StripTagsAfterPlainText(a[1..], b);
      PrefixedTwice([a[0]], a[1..], StripFrom(b, false));
      assert [a[0]] + a[1..] == a;
    } else {
      assert a + b == b;
      PrefixedNothing(StripFrom(b, false));
    }
  }

  /** Inside a tag, everything up to and including the first '>' goes. */
  lemma {:induction false} StripTagsDropsTagBody(t: string, b: string)
    requires '>' !in t
    ensures StripFrom(t + ">" + b, true) == StripFrom(b, false)
    decreases |t|
  {
    if t != [] {
      assert (t + ">" + b)[1..] == t[1..] + ">" + b;
      assert '>' !in t[1..];
      StripTagsDropsTagBody(t[1..], b);
    } else {
      assert (t + ">" + b)[1..] == b;
    }
  }

  /** A whole tag <t> is removed with its delimiters; what is around it stays, in order. */
  lemma {:induction false} StripTagsRemovesTag(a: string, t: string, b: string)
    requires '<' !in a && '>' !in t
    ensures StripFrom(a + "<" + t + ">" + b, false) == Prefixed(a, StripFrom(b, false))
  {
    var rest := "<" + t + ">" + b;
    assert a + "<" + t + ">" + b == a + rest;
    StripTagsAfterPlainText(a, rest);
    assert rest[1..] == t + ">" + b;
    StripTagsDropsTagBody(t, b);
  }

  /** A '<' somewhere with no '>' after it. */
  predicate Unclosed(s: string)
  {
    exists i :: 0 <= i < |s| && s[i] == '<' && '>' !in s[i + 1..]
  }

  /**
   * stripTags raises IndexError exactly when some '<' has no '>' anywhere
   * after it (inside a tag: exactly when no '>' follows at all).
   */
  lemma {:induction false} StripTagsFails(s: string, inTag: bool)
    ensures StripFrom(s, inTag).Err? ==> StripFrom(s, inTag) == Err(IndexError)
    ensures !inTag ==> (StripFrom(s, inTag).Err? <==> Unclosed(s))
    ensures inTag ==> (StripFrom(s, inTag).Err? <==> Unclosed(s) || '>' !in s)
    decreases |s|
  {
    if s != [] {
      var t := s[1..];
      StripTagsFails(t, if inTag then s[0] != '>' else s[0] == '<');
      assert Unclosed(s) <==> (s[0] == '<' && '>' !in t) || Unclosed(t) by {
        if Unclosed(t) {
          var i :| 0 <= i < |t| && t[i] == '<' && '>' !in t[i + 1..];
          assert s[i + 1] == '<' && s[i + 2..] == t[i + 1..];
        }
        if Unclosed(s) {
          var i :| 0 <= i < |s| && s[i] == '<' && '>' !in s[i + 1..];
          if i > 0 {
            assert t[i - 1] == '<' && t[i..] == s[i + 1..];
          } else {
            assert s[1..] == t;
          }
        }
      }
      assert '>' in s <==> s[0] == '>' || '>' in t;
      if !inTag && s[0] != '<' {
        assert StripFrom(s, inTag) == Prefixed([s[0]], StripFrom(t, false));
      }
      if inTag && s[0] == '>' && Unclosed(t) {
        var i :| 0 <= i < |t| && t[i] == '<' && '>' !in t[i + 1..];
        assert '>' in s;
      }
      if inTag && s[0] != '>' && '>' !in t {
        assert '>' !in s;
      }
    } else {
      assert !Unclosed(s);
    }
  }

  /**
   * format(n, prefix): int(n) raises ValueError on text that is not an
   * integer; below 10 a '0' goes in front of the text.
   */
  function Format(n: string, prefix: string): (r: Result<string>)
    ensures r.Err? <==> ParseInt(n).Err?
    ensures r.Err? ==> r == Err(ValueError)
    ensures r.Ok? && ParseInt(n).value < 10 ==> r.value == prefix + "0" + n
    ensures r.Ok? && ParseInt(n).value >= 10 ==> r.value == prefix + n
  {
    var k := ParseInt(n);
    if k.Err? then Err(ValueError)
    else if k.value < 10 then Ok(prefix + "0" + n)
    else Ok(prefix + n)
  }

  /**
   * format of an int goes through str(n): for 0 <= n it is the prefix and
   * the number padded to two digits, as zfill(2) would give.
   */
  lemma {:induction false} FormatOfNumber(n: int, prefix: string)
    requires n >= 0
    ensures Format(IntToString(n), prefix) == Ok(prefix + ZFill(IntToString(n), 2))
  {
    ParseIntToString(n);
    var s := IntToString(n);
    assert s == NatToString(n);
    if n < 10 {
      assert |s| == 1 && s[0] != '-' && s[0] != '+' by {
        assert AllDigits(s);
      }
      assert Zeros(1) == "0";
      assert ZFill(s, 2) == "0" + s;
      assert prefix + "0" + s == prefix + ("0" + s);
    }
  }

  /** format(3, 'S') gives 'S03'. */
  lemma {:induction false} FormatExample(n: int)
    requires n == 3
    ensures Format(IntToString(n), "S") == Ok("S03")
  {
    FormatOfNumber(n, "S");
    assert IntToString(n) == "3";
    assert Zeros(1) == "0";
    assert ZFill("3", 2) == "03";
    assert "S" + "03" == "S03";
  }

  /**
   * A negative number is below 10 and gets its '0' before the sign, where
   * zfill puts the padding after it.
   */
  lemma {:induction false} FormatOfNegative(n: int, prefix: string)
    requires -10 < n < 0
    ensures Format(IntToString(n), prefix) == Ok(prefix + "0-" + NatToString(-n))
    ensures ZFill(IntToString(n), 3) == "-0" + NatToString(-n)
  {
    ParseIntToString(n);
    var s := IntToString(n);
    assert s == "-" + NatToString(-n) && |s| == 2 && s[0] == '-' && s[1..] == NatToString(-n);
    assert Zeros(1) == "0";
    assert prefix + "0" + s == prefix + "0-" + NatToString(-n);
  }

  /**
   * The name renameFiles gives a mapped file: the dotted series name, the
   * season and episode numbers formatted with 'S' and 'E', the dotted
   * episode name and the extension, joined with '.'. It is not joined with
   * the file's directory, so the file moves to the working directory.
   */
  function LegacyTarget(fname: string, rec: Record): (r: Result<string>)
    ensures r.Err? <==> ParseInt(rec.season).Err? || ParseInt(rec.episode).Err?
    ensures r.Err? ==> r == Err(ValueError)
  {
    var sname := FormatDotTitle(rec.seriesName);
    var ename := FormatDotTitle(rec.title);
    var snum := Format(rec.season, "S");
    var enum := Format(rec.episode, "E");
    if snum.Err? then Err(snum.error)
    else if enum.Err? then Err(enum.error)
    else Ok(Join('.', [sname, snum.value, enum.value, ename, rec.ext]))
  }

  /**
   * With numbers from 0 written without padding or sign, the new name reads
   * Series.Sxx.Exx.Title.ext: the season and episode codes are separate
   * dotted parts, each number padded to two digits.
   */
  lemma {:induction false} LegacyTargetLayout(fname: string, rec: Record, season: nat, episode: nat)
    requires rec.season == IntToString(season) && rec.episode == IntToString(episode)
    ensures LegacyTarget(fname, rec) ==
      Ok(FormatDotTitle(rec.seriesName) + "." + ("S" + ZFill(rec.season, 2)) + "." + ("E" + ZFill(rec.episode, 2)) + "." +
         FormatDotTitle(rec.title) + "." + rec.ext)
  {
    FormatOfNumber(season, "S");
    FormatOfNumber(episode, "E");
    var sname, ename := FormatDotTitle(rec.seriesName), FormatDotTitle(rec.title);
    var sn, en := "S" + ZFill(rec.season, 2), "E" + ZFill(rec.episode, 2);
    assert Format(rec.season, "S") == Ok(sn) && Format(rec.episode, "E") == Ok(en);
    assert LegacyTarget(fname, rec) == Ok(Join('.', [sname, sn, en, ename, rec.ext]));
    JoinFive(sname, sn, en, ename, rec.ext);
  }

  lemma {:induction false} JoinFive(a: string, b: string, c: string, d: string, e: string)
    ensures Join('.', [a, b, c, d, e]) == a + "." + b + "." + c + "." + d + "." + e
  {
    assert [d, e][1..] == [e];
    assert Join('.', [d, e]) == d + "." + e;
    assert [c, d, e][1..] == [d, e];
    assert Join('.', [c, d, e]) == c + "." + (d + "." + e);
    assert [b, c, d, e][1..] == [c, d, e];
    assert Join('.', [b, c, d, e]) == b + "." + (c + "." + (d + "." + e));
    assert [a, b, c, d, e][1..] == [b, c, d, e];
    assert Join('.', [a, b, c, d, e]) == a + "." + (b + "." + (c + "." + (d + "." + e)));
  }
}
