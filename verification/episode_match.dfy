/**
 * The episode scan shared by mapSeriesInfo in scrappy.py and in
 * scrappy/scrape.py: every file's guess is compared with every episode
 * node of the series record, and each match overwrites the file's entry.
 * The text of a node (what stripTags(node.toxml()) or BeautifulSoup's
 * `.string` yields) is given.
 */
module EpisodeMatch {
  import opened Wrappers
  import opened Strings
  import opened Votes

  /** The text of an Episode node: its SeasonNumber, EpisodeNumber and EpisodeName. */
  datatype EpisodeNode = EpisodeNode(season: string, episode: string, name: string)

  /** The series record: the series name and the episode nodes in document order. */
  datatype SeriesXml = SeriesXml(seriesName: string, episodes: seq<EpisodeNode>)

  /** The dictionary stored for a matched file: season and episode text, series and episode names, extension. */
  datatype Record = Record(season: string, episode: string, seriesName: string, title: string, ext: string)

  /** The dictionary built for a file from the node it matched. */
  function RecordOf(ep: EpisodeNode, seriesName: string, fname: string): Record
  {
    Record(ep.season, ep.episode, seriesName, ep.name, LastPiece(fname, '.'))
  }

  /** The extension of a record is the text after the last '.' of the file name, and holds no '.'. */
  lemma {:induction false} RecordExtension(ep: EpisodeNode, seriesName: string, fname: string)
    ensures var e := RecordOf(ep, seriesName, fname).ext;
      && |e| <= |fname| && e == fname[|fname| - |e|..] && '.' !in e
      && (|e| < |fname| ==> fname[|fname| - |e| - 1] == '.')
  {
    LastPieceIsTextAfterLastSep(fname, '.');
  }

  /**
   * The two nested comparisons for one node, in evaluation order: the
   * guess's season (KeyError), int() of the node's season (ValueError), and
   * only when they are equal the episode number likewise.
   */
  function Compare(g: Guess, ep: EpisodeNode): (r: Result<bool>)
    ensures r.Err? ==> r.error == KeyError || r.error == ValueError
  {
    if g.season.None? then Err(KeyError)
    else
      var s := ParseInt(ep.season);
      if s.Err? then Err(ValueError)
      else if s.value != g.season.value then Ok(false)
      else if g.episode.None? then Err(KeyError)
      else
        var e := ParseInt(ep.episode);
        if e.Err? then Err(ValueError) else Ok(e.value == g.episode.value)
  }

  /** The guess names this episode: the comparisons go through and both numbers are equal. */
  predicate Matches(g: Guess, ep: EpisodeNode)
  {
    Compare(g, ep) == Ok(true)
  }

  /** A match is exactly a guess with both numbers equal to the int() of the node's texts. */
  lemma {:induction false} MatchesMeans(g: Guess, ep: EpisodeNode)
    ensures Matches(g, ep) <==>
      && g.season.Some? && g.episode.Some?
      && ParseInt(ep.season) == Ok(g.season.value)
      && ParseInt(ep.episode) == Ok(g.episode.value)
  {
  }

  /** With both numbers guessed and both texts integers, the comparison does not raise. */
  lemma {:induction false} CompareOk(g: Guess, ep: EpisodeNode)
    requires g.season.Some? && g.episode.Some?
    requires ParseInt(ep.season).Ok? && ParseInt(ep.episode).Ok?
    ensures Compare(g, ep).Ok?
  {
  }

  /** The comparison of the guess with a node, as a function of the node. */
  function CompareWith(g: Guess): EpisodeNode -> Result<bool>
  {
    ep => Compare(g, ep)
  }

  /**
   * The inner loop for one file, for any comparison: the record of the
   * latest matching node, and the exception that stopped the loop, with the
   * record assigned before it.
   */
  function ScanWith(cmp: EpisodeNode -> Result<bool>, eps: seq<EpisodeNode>, seriesName: string, fname: string): (Outcome, Option<Record>)
  {
    if eps == [] then (Done, None)
    else
      var (o, m) := ScanWith(cmp, Init(eps), seriesName, fname);
      if o.Raised? then (o, m)
      else
        var c := cmp(Last(eps));
        if c.Err? then (Raised(c.error), m)
        else if c.value then (Done, Some(RecordOf(Last(eps), seriesName, fname)))
        else (Done, m)
  }

  /** The inner loop of mapSeriesInfo for one file and its guess. */
  function Scan(g: Guess, eps: seq<EpisodeNode>, seriesName: string, fname: string): (Outcome, Option<Record>)
  {
    ScanWith(CompareWith(g), eps, seriesName, fname)
  }

  lemma {:induction false} ScanWithFindsNothing(cmp: EpisodeNode -> Result<bool>, eps: seq<EpisodeNode>, seriesName: string, fname: string)
    requires ScanWith(cmp, eps, seriesName, fname).0 == Done
    ensures ScanWith(cmp, eps, seriesName, fname).1.None? <==> forall i :: 0 <= i < |eps| ==> cmp(eps[i]) != Ok(true)
  {
    if eps != [] {
      ScanWithFindsNothing(cmp, Init(eps), seriesName, fname);
    }
  }

  lemma {:induction false} ScanWithKeepsLastMatch(cmp: EpisodeNode -> Result<bool>, eps: seq<EpisodeNode>, seriesName: string, fname: string)
    requires ScanWith(cmp, eps, seriesName, fname).0 == Done && ScanWith(cmp, eps, seriesName, fname).1.Some?
    ensures exists k ::
      && 0 <= k < |eps| && cmp(eps[k]) == Ok(true)
      && ScanWith(cmp, eps, seriesName, fname).1.value == RecordOf(eps[k], seriesName, fname)
      && forall j :: k < j < |eps| ==> cmp(eps[j]) != Ok(true)
  {
    var p := Init(eps);
    if cmp(Last(eps)) == Ok(true) {
      assert cmp(eps[|eps| - 1]) == Ok(true);
    } else {
      ScanWithKeepsLastMatch(cmp, p, seriesName, fname);
      var k :|
        && 0 <= k < |p| && cmp(p[k]) == Ok(true)
        && ScanWith(cmp, p, seriesName, fname).1.value == RecordOf(p[k], seriesName, fname)
        && forall j :: k < j < |p| ==> cmp(p[j]) != Ok(true);
      assert eps[k] == p[k];
    }
  }

  /**
   * A completed scan keeps the record of the LAST matching node, and
   * nothing exactly when no node matches.
   */
  lemma {:induction false} ScanKeepsLastMatch(g: Guess, eps: seq<EpisodeNode>, seriesName: string, fname: string)
    requires Scan(g, eps, seriesName, fname).0 == Done
    ensures Scan(g, eps, seriesName, fname).1.None? <==> forall i :: 0 <= i < |eps| ==> !Matches(g, eps[i])
    ensures Scan(g, eps, seriesName, fname).1.Some? ==> exists k ::
      && 0 <= k < |eps| && Matches(g, eps[k])
      && Scan(g, eps, seriesName, fname).1.value == RecordOf(eps[k], seriesName, fname)
      && forall j :: k < j < |eps| ==> !Matches(g, eps[j])
  {
    ScanWithFindsNothing(CompareWith(g), eps, seriesName, fname);
    if Scan(g, eps, seriesName, fname).1.Some? {
      ScanWithKeepsLastMatch(CompareWith(g), eps, seriesName, fname);
    }
  }

  /**
   * When a scan raises: no node at all means no comparison and no error; a
   * guess without a season raises KeyError at the first node; and when the
   * guess has both numbers and every node's numbers are integers, nothing
   * is raised.
   */
  lemma {:induction false} ScanRaises(g: Guess, eps: seq<EpisodeNode>, seriesName: string, fname: string)
    ensures eps == [] ==> Scan(g, eps, seriesName, fname) == (Done, None)
    ensures eps != [] && g.season.None? ==> Scan(g, eps, seriesName, fname).0 == Raised(KeyError)
    ensures
      && g.season.Some? && g.episode.Some?
      && (forall i :: 0 <= i < |eps| ==> ParseInt(eps[i].season).Ok? && ParseInt(eps[i].episode).Ok?)
      ==> Scan(g, eps, seriesName, fname).0 == Done
  {
    if eps != [] && g.season.None? {
      assert Scan(g, eps, seriesName, fname).0 == Raised(KeyError) by {
        assert CompareWith(g)(eps[0]) == Err(KeyError);
        ScanWithFirstError(CompareWith(g), eps, seriesName, fname);
      }
    }
    if g.season.Some? && g.episode.Some? && (forall i :: 0 <= i < |eps| ==> ParseInt(eps[i].season).Ok? && ParseInt(eps[i].episode).Ok?) {
      assert Scan(g, eps, seriesName, fname).0 == Done by {
        forall i | 0 <= i < |eps| ensures CompareWith(g)(eps[i]).Ok? {
          CompareOk(g, eps[i]);
          assert CompareWith(g)(eps[i]) == Compare(g, eps[i]);
        }
        ScanWithNoError(CompareWith(g), eps, seriesName, fname);
      }
    }
  }

  /** A scan in which no comparison fails completes. */
  lemma {:induction false} ScanWithNoError(cmp: EpisodeNode -> Result<bool>, eps: seq<EpisodeNode>, seriesName: string, fname: string)
    requires forall i :: 0 <= i < |eps| ==> cmp(eps[i]).Ok?
    ensures ScanWith(cmp, eps, seriesName, fname).0 == Done
  {
    if eps != [] {
      var p := Init(eps);
      forall i | 0 <= i < |p| ensures cmp(p[i]).Ok? {
        assert p[i] == eps[i];
      }
      ScanWithNoError(cmp, p, seriesName, fname);
      assert cmp(Last(eps)).Ok?;
    }
  }

  /** A scan whose first comparison fails raises that error. */
  lemma {:induction false} ScanWithFirstError(cmp: EpisodeNode -> Result<bool>, eps: seq<EpisodeNode>, seriesName: string, fname: string)
    requires eps != [] && cmp(eps[0]).Err?
    ensures ScanWith(cmp, eps, seriesName, fname).0 == Raised(cmp(eps[0]).error)
  {
    var p := Init(eps);
    if p == [] {
      assert Last(eps) == eps[0];
    } else {
      assert p[0] == eps[0];
      ScanWithFirstError(cmp, p, seriesName, fname);
    }
  }

  /**
   * The outer loop over the files: each file's scan assigns its latest
   * match to the file map; the first exception stops the loop, after the
   * assignments made so far.
   */
  function MapFiles(files: seq<string>, guessOf: string -> Guess, xml: SeriesXml,
                    filemap: map<string, Option<Record>>): (Outcome, map<string, Option<Record>>)
  {
    if files == [] then (Done, filemap)
    else
      var (o, m) := MapFiles(Init(files), guessOf, xml, filemap);
      if o.Raised? then (o, m)
      else
        var f := Last(files);
        var (o', found) := Scan(guessOf(f), xml.episodes, xml.seriesName, f);
        (o', if found.Some? then m[f := found] else m)
  }

  /** The entry of a file whose scan completed: its latest match, or what the map held when nothing matched. */
  function EntryAfter(f: string, guessOf: string -> Guess, xml: SeriesXml, filemap: map<string, Option<Record>>): Option<Option<Record>>
  {
    var found := Scan(guessOf(f), xml.episodes, xml.seriesName, f).1;
    if found.Some? then Some(found) else if f in filemap then Some(filemap[f]) else None
  }

  /**
   * A completed mapping gives each listed file its latest matching record,
   * leaves a file without a match as it was, and adds or changes no other
   * entry.
   */
  lemma {:induction false} MapFilesEntries(files: seq<string>, guessOf: string -> Guess, xml: SeriesXml,
                                           filemap: map<string, Option<Record>>)
    ensures var (o, m) := MapFiles(files, guessOf, xml, filemap);
      o == Done ==>
        && (forall f :: f !in files ==> (f in m <==> f in filemap) && (f in m ==> m[f] == filemap[f]))
        && (forall f :: f in files ==>
              var e := EntryAfter(f, guessOf, xml, filemap);
              (f in m <==> e.Some?) && (f in m ==> m[f] == e.value))
  {
    if files != [] {
      var p := Init(files);
      MapFilesEntries(p, guessOf, xml, filemap);
      assert forall x :: x in files <==> x in p || x == Last(files) by {
        assert files == p + [Last(files)];
      }
    }
  }

  /** Once the outer loop has raised, the later files change nothing. */
  lemma {:induction false} MapFilesStopsAtRaise(files: seq<string>, k: nat, guessOf: string -> Guess, xml: SeriesXml,
                                                filemap: map<string, Option<Record>>)
    requires k <= |files| && MapFiles(files[..k], guessOf, xml, filemap).0.Raised?
    ensures MapFiles(files, guessOf, xml, filemap) == MapFiles(files[..k], guessOf, xml, filemap)
    decreases |files| - k
  {
    if k < |files| {
      var q := files[..k + 1];
      assert Init(q) == files[..k];
      assert MapFiles(q, guessOf, xml, filemap) == MapFiles(files[..k], guessOf, xml, filemap);
      MapFilesStopsAtRaise(files, k + 1, guessOf, xml, filemap);
    } else {
      assert files[..k] == files;
    }
  }

  /** Once the scan has raised, the later nodes change nothing. */
  lemma {:induction false} ScanWithStopsAtRaise(cmp: EpisodeNode -> Result<bool>, eps: seq<EpisodeNode>, k: nat,
                                                seriesName: string, fname: string)
    requires k <= |eps| && ScanWith(cmp, eps[..k], seriesName, fname).0.Raised?
    ensures ScanWith(cmp, eps, seriesName, fname) == ScanWith(cmp, eps[..k], seriesName, fname)
    decreases |eps| - k
  {
    if k < |eps| {
      assert Init(eps[..k + 1]) == eps[..k];
      ScanWithStopsAtRaise(cmp, eps, k + 1, seriesName, fname);
    } else {
      assert eps[..k] == eps;
    }
  }
}
