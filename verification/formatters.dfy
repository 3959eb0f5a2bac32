/**
 * scrappy/formatters.py: the pieces a new file name is built from and the
 * default layout that orders them.
 */
module Formatters {
  import opened Wrappers
  import opened Strings

  /** formatDotTitle: title-case the text and join its space-separated words with '.'. */
  function FormatDotTitle(s: string): string
  {
    Join('.', Split(Title(s), ' '))
  }

  /**
   * Every space of the input becomes a '.' at the same position, every
   * other character is the title-cased one, so no space is left and the
   * length is kept.
   */
  lemma {:induction false} FormatDotTitleReplacesSpaces(s: string)
    ensures var r := FormatDotTitle(s);
      && |r| == |s|
      && ' ' !in r
      && forall i :: 0 <= i < |s| ==> r[i] == if s[i] == ' ' then '.' else Title(s)[i]
  {
    JoinSplit(Title(s), ' ', '.');
  }

  /** A run of lower-case letters after a cased character is kept as it is. */
  lemma {:induction false} TitleKeepsLowerRun(w: string, rest: string)
    requires forall i :: 0 <= i < |w| ==> IsLower(w[i])
    ensures TitleFrom(w + rest, true) == w + TitleFrom(rest, true)
  {
    if w != [] {
      var c := w[0];
      assert IsLower(c) && Lower(c) == c;
      assert (w + rest)[0] == c && (w + rest)[1..] == w[1..] + rest;
      assert TitleFrom(w + rest, true) == [c] + TitleFrom(w[1..] + rest, true);
      assert forall i :: 0 <= i < |w[1..]| ==> IsLower(w[1..][i]) by {
        forall i | 0 <= i < |w[1..]| ensures IsLower(w[1..][i]) {
          assert w[1..][i] == w[i + 1];
        }
      }
      TitleKeepsLowerRun(w[1..], rest);
      ConsAppend(w, TitleFrom(rest, true));
    } else {
      assert w + rest == rest;
    }
  }

  lemma {:induction false} ConsAppend(w: string, t: string)
    requires w != []
    ensures [w[0]] + (w[1..] + t) == w + t
  {
    var l, r := [w[0]] + (w[1..] + t), w + t;
    forall i | 0 <= i < |r| ensures l[i] == r[i] {
      if i == 0 {
      } else if i < |w| {
        assert l[i] == w[1..][i - 1];
      } else {
        assert l[i] == t[i - |w|];
      }
    }
  }

  lemma {:induction false} ReplaceAppend(a: string, b: string, x: char, y: char)
    ensures Replace(a + b, x, y) == Replace(a, x, y) + Replace(b, x, y)
  {
    var l, r := Replace(a + b, x, y), Replace(a, x, y) + Replace(b, x, y);
    assert forall i :: 0 <= i < |l| ==> l[i] == r[i] by {
      forall i | 0 <= i < |l| ensures l[i] == r[i] {
        if i < |a| {
          assert (a + b)[i] == a[i];
        } else {
          assert (a + b)[i] == b[i - |a|];
        }
      }
    }
  }

  predicate LowerWord(w: string)
  {
    w != [] && forall i :: 0 <= i < |w| ==> IsLower(w[i])
  }

  /** A lower-case word with its first letter upper-cased. */
  function Capitalized(w: string): string
    requires w != []
  {
    [Upper(w[0])] + w[1..]
  }

  /** Title-casing a lower-case word followed by other text capitalizes the word. */
  lemma {:induction false} TitleOfWord(w: string, rest: string, afterCased: bool)
    requires LowerWord(w) && !afterCased
    ensures TitleFrom(w + rest, afterCased) == Capitalized(w) + TitleFrom(rest, true)
  {
    assert (w + rest)[0] == w[0];
    assert (w + rest)[1..] == w[1..] + rest;
    TitleKeepsLowerRun(w[1..], rest);
  }

  /** Two lower-case words separated by a space become the capitalized words joined by '.'. */
  lemma {:induction false} FormatDotTitleTwoWords(w1: string, w2: string)
    requires LowerWord(w1) && LowerWord(w2)
    ensures FormatDotTitle(w1 + " " + w2) == Capitalized(w1) + "." + Capitalized(w2)
  {
    var s := w1 + " " + w2;
    assert s == w1 + (" " + w2);
    TitleOfWord(w1, " " + w2, false);
    assert (" " + w2)[1..] == w2 + [];
    TitleOfWord(w2, [], false);
    var c1, c2 := Capitalized(w1), Capitalized(w2);
    var t := Title(s);
    assert t == c1 + " " + c2;
    JoinSplit(t, ' ', '.');
    assert ' ' !in c1 && ' ' !in c2;
    calc {
      FormatDotTitle(s);
      Replace(c1 + " " + c2, ' ', '.');
      { ReplaceAppend(c1 + " ", c2, ' ', '.'); ReplaceAppend(c1, " ", ' ', '.'); }
      Replace(c1, ' ', '.') + Replace(" ", ' ', '.') + Replace(c2, ' ', '.');
      { ReplaceAbsent(c1, ' ', '.'); ReplaceAbsent(c2, ' ', '.'); ReplaceSpace(); }
      c1 + "." + c2;
    }
  }

  /** The one-space string becomes a single dot. */
  lemma {:induction false} ReplaceSpace()
    ensures Replace(" ", ' ', '.') == "."
  {
    assert " "[1..] == [];
  }

  /** Replacing a character that does not occur changes nothing. */
  lemma {:induction false} ReplaceAbsent(s: string, a: char, b: char)
    requires a !in s
    ensures Replace(s, a, b) == s
  {
    var r := Replace(s, a, b);
    forall i | 0 <= i < |s| ensures r[i] == s[i] {
      assert s[i] != a;
    }
  }

  /** The example of the docstring: "example title" becomes "Example.Title". */
  lemma {:induction false} FormatDotTitleExample(s: string)
    requires s == "example title"
    ensures FormatDotTitle(s) == "Example.Title"
  {
    var w1, w2 := "example", "title";
    assert s == w1 + " " + w2;
    assert LowerWord(w1) by {
      forall i | 0 <= i < |w1| ensures IsLower(w1[i]) { }
    }
    assert LowerWord(w2) by {
      forall i | 0 <= i < |w2| ensures IsLower(w2[i]) { }
    }
    FormatDotTitleTwoWords(w1, w2);
    var c1, c2 := Capitalized(w1), Capitalized(w2);
    assert c1 == "Example" by { assert Upper('e') == 'E'; }
    assert c2 == "Title" by { assert Upper('t') == 'T'; }
    assert c1 + "." + c2 == "Example.Title";
  }

  /** formatSXXEXX: 'S', the season zero-filled to two characters, 'E', the episode zero-filled likewise. */
  function FormatSXXEXX(season: string, episode: string): string
  {
    "S" + ZFill(season, 2) + "E" + ZFill(episode, 2)
  }

  /** The example of the docstring: season "1" and episode "23" give S01E23. */
  lemma {:induction false} FormatSXXEXXExample()
    ensures FormatSXXEXX("1", "23") == "S01E23"
  {
    assert ZFill("1", 2) == "01";
    assert ZFill("23", 2) == "23";
  }

  /** Zero-filling str(n) to two characters keeps its value for every n below 100. */
  lemma {:induction false} ZFillRoundTrip(n: nat)
    requires n < 100
    ensures |ZFill(IntToString(n), 2)| == 2
    ensures ParseInt(ZFill(IntToString(n), 2)) == Ok(n)
  {
    var s := IntToString(n);
    if n < 10 {
      var z := ZFill(s, 2);
      assert z == "0" + s;
      var c := DigitChar(n);
      assert s == [c];
      assert z == ['0', c];
      assert !IsSpace('0') && !IsSpace(c);
      StripKeepsTrimmed(z);
      assert Strip(z) == z;
      assert AllDigits(z);
      assert z[..1] == "0";
      assert DigitsValue("0") == 0 by {
        assert "0"[..0] == [];
      }
      assert DigitsValue(z) == 10 * DigitsValue("0") + DigitValue(c);
    } else {
      assert n / 10 < 10;
      assert |s| == 2;
      ParseIntToString(n);
    }
  }

  /** The two numbers sit at fixed places in a code whose parts are two characters each. */
  lemma {:induction false} CodeLayout(season: string, episode: string)
    requires |ZFill(season, 2)| == 2 && |ZFill(episode, 2)| == 2
    ensures var r := FormatSXXEXX(season, episode);
      && |r| == 6 && r[0] == 'S' && r[3] == 'E'
      && r[1..3] == ZFill(season, 2) && r[4..6] == ZFill(episode, 2)
  {
    var a, b := ZFill(season, 2), ZFill(episode, 2);
    var r := FormatSXXEXX(season, episode);
    assert r == "S" + a + "E" + b;
    assert r[1..3] == a;
    assert r[4..6] == b;
  }

  /** For seasons and episodes below 100 the code is six characters and both numbers read back from it. */
  lemma {:induction false} FormatSXXEXXRoundTrip(season: nat, episode: nat)
    requires season < 100 && episode < 100
    ensures var r := FormatSXXEXX(IntToString(season), IntToString(episode));
      && |r| == 6 && r[0] == 'S' && r[3] == 'E'
      && ParseInt(r[1..3]) == Ok(season)
      && ParseInt(r[4..6]) == Ok(episode)
  {
    ZFillRoundTrip(season);
    ZFillRoundTrip(episode);
    CodeLayout(IntToString(season), IntToString(episode));
  }

  /** The parts a layout can name. */
  datatype Part = SName | ECode | EName

  /** A layout table: the order of the parts and the separator between them. */
  datatype Layout = Layout(order: seq<Part>, sep: char)

  /** The `default` table: series name, episode code, episode name, separated by '.'. */
  const Default: Layout := Layout([SName, ECode, EName], '.')

  /** The file-map fields the table's entries read. */
  datatype Fields = Fields(seriesName: string, episodeName: string, season: string, episode: string)

  /** One part as its table entry computes it: its function applied to the fields its keys name. */
  function RenderPart(p: Part, f: Fields): string
  {
    match p
    case SName => FormatDotTitle(f.seriesName)
    case ECode => FormatSXXEXX(f.season, f.episode)
    case EName => FormatDotTitle(f.episodeName)
  }

  function RenderParts(order: seq<Part>, f: Fields): (r: seq<string>)
    ensures |r| == |order| && forall i :: 0 <= i < |order| ==> r[i] == RenderPart(order[i], f)
  {
    if order == [] then [] else [RenderPart(order[0], f)] + RenderParts(order[1..], f)
  }

  /** A name laid out by a table: its parts in order, joined with its separator. */
  function Render(layout: Layout, f: Fields): string
  {
    Join(layout.sep, RenderParts(layout.order, f))
  }

  /** The default layout gives Series.Name.SxxEyy.Episode.Name. */
  lemma {:induction false} DefaultLayout(f: Fields)
    ensures Render(Default, f) ==
      FormatDotTitle(f.seriesName) + "." + FormatSXXEXX(f.season, f.episode) + "." + FormatDotTitle(f.episodeName)
  {
    var parts := RenderParts(Default.order, f);
    assert |parts| == 3;
    assert parts[1..][1..] == [parts[2]];
    assert Join('.', parts[1..]) == parts[1] + "." + Join('.', [parts[2]]);
    assert Join('.', parts) == parts[0] + "." + Join('.', parts[1..]);
  }
}
