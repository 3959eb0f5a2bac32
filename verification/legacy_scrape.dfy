/**
 * The Scrape class of scrappy.py: the series-name vote over the file
 * guesses, the choice of the search hit, the mapping of files to episode
 * records, and the renames with their rollback. The guesser, the search
 * and the series record are parameters; os.rename is the abstract disk.
 */
module LegacyScrape {
  import opened Wrappers
  import opened Strings
  import opened Votes
  import opened Dicts
  import opened Disk
  import opened EditDistance
  import opened Hits
  import opened EpisodeMatch
  import opened Rollback
  import opened LegacyText

  /**
   * getSeriesName: None without a guess that carries a series; otherwise
   * the ranking loop of the last tally turn, which keeps the LAST name with
   * a positive score.
   */
  function SeriesNameSpec(gs: seq<Guess>): Option<string>
  {
    var named := WithSeries(gs);
    if named == [] then None
    else
      var votes := ToVotes(named);
      LastPositive(Names(votes), votes)
  }

  /**
   * The result is None exactly when no vote's name scores above 0.0, and
   * otherwise the name of one of the votes, with a positive score; the
   * votes are the guesses that carry a series, each under its normalized
   * series name.
   */
  lemma {:induction false} SeriesNameOutcome(gs: seq<Guess>)
    ensures var votes := ToVotes(WithSeries(gs));
      && (SeriesNameSpec(gs).None? <==> forall i :: 0 <= i < |votes| ==> Score(votes, votes[i].name) <= 0.0)
      && (SeriesNameSpec(gs).Some? ==>
            && Score(votes, SeriesNameSpec(gs).value) > 0.0
            && exists i :: 0 <= i < |votes| && votes[i].name == SeriesNameSpec(gs).value)
  {
    VotedLastPositive(ToVotes(WithSeries(gs)));
  }

  /** Each vote is a guess carrying a series, under its normalized name. */
  lemma {:induction false} SeriesNameIsGuessed(gs: seq<Guess>)
    ensures SeriesNameSpec(gs).Some? ==>
      exists i :: 0 <= i < |gs| && gs[i].series.Some? && Normalize(gs[i].series.value) == SeriesNameSpec(gs).value
  {
    if SeriesNameSpec(gs).Some? {
      var named := WithSeries(gs);
      var votes := ToVotes(named);
      var n := SeriesNameSpec(gs).value;
      VotedLastPositive(votes);
      var j :| 0 <= j < |votes| && votes[j].name == n;
      VoteNameIsGuessed(gs, j);
    }
  }

  /**
   * The misspelled `olsdcore` leaves the old score at 0.0, so the loop keeps
   * the last name with a positive score: "foo" scores 0.9 * 2 and "bar"
   * 0.95 * 1, and "bar" is chosen; with the old score kept up to date (as
   * in scrappy/scrape.py) "foo" is.
   */
  lemma {:induction false} OlsdcoreKeepsLastPositive(votes: seq<Vote>)
    requires votes == [Vote("foo", 0.9), Vote("foo", 0.8), Vote("bar", 0.95)]
    ensures Names(votes) == ["foo", "bar"]
    ensures Score(votes, "foo") == 1.8 && Score(votes, "bar") == 0.95
    ensures LastPositive(Names(votes), votes) == Some("bar")
    ensures FirstBest(Names(votes), votes).0 == Some("foo")
  {
    var v1, v2 := votes[..1], votes[..2];
    assert Init(votes) == v2 && Init(v2) == v1 && Init(v1) == [];
    assert Last(votes) == Vote("bar", 0.95) && Last(v2) == Vote("foo", 0.8) && Last(v1) == Vote("foo", 0.9);
    assert Names(v1) == ["foo"];
    assert Names(v2) == ["foo"];
    assert Names(votes) == ["foo", "bar"];
    assert Count(v1, "foo") == 1 && HighConf(v1, "foo") == 0.9;
    assert Count(v2, "foo") == 2 && HighConf(v2, "foo") == 0.9;
    assert Count(votes, "foo") == 2 && HighConf(votes, "foo") == 0.9;
    assert Count(v1, "bar") == 0 && HighConf(v1, "bar") == 0.0;
    assert Count(v2, "bar") == 0 && HighConf(v2, "bar") == 0.0;
    assert Count(votes, "bar") == 1 && HighConf(votes, "bar") == 0.95;
    var names := ["foo", "bar"];
    assert Init(names) == ["foo"] && Init(["foo"]) == [] && Last(names) == "bar" && Last(["foo"]) == "foo";
    assert FirstBest(["foo"], votes) == (Some("foo"), 1.8);
  }

  /**
   * The ranking loop over the tallies as scrappy.py writes it: `bestguess`
   * is replaced by every name whose score exceeds `oldscore`, and the
   * assignment meant for `oldscore` goes to a new variable.
   */
  method RankLastPositive(normalCount: map<string, int>, highConf: map<string, real>, order: seq<string>, ghost votes: seq<Vote>)
    returns (bestguess: Option<string>)
    requires Tallied(normalCount, highConf, order, votes)
    ensures bestguess == LastPositive(order, votes)
  {
    bestguess := None;
    var oldscore := 0.0;
    for k := 0 to |order|
      invariant bestguess == LastPositive(order[..k], votes)
    {
      var n := order[k];
      TalliedScore(normalCount, highConf, order, votes, n);
      var score := highConf[n] * normalCount[n] as real;
      LastPositiveSnoc(order, k, votes);
      if score > oldscore {
        bestguess := Some(n);
        var olsdcore := score;
      }
    }
    assert order[..|order|] == order;
  }

  /**
   * The id getTVDBid picks from the hits, for any name test and distance:
   * none without a hit; a single hit when it is within the threshold;
   * of several the first that passes the test, or else the one stored
   * under the smallest distance.
   */
  function ChosenId(hits: seq<Hit>, exact: Hit -> bool, dist: Hit -> nat, thresh: int): (r: Option<string>)
    ensures hits == [] ==> r == None
    ensures |hits| == 1 ==> (r == Some(hits[0].id) <==> dist(hits[0]) <= thresh)
    ensures |hits| == 1 ==> (r.None? <==> dist(hits[0]) > thresh)
    ensures |hits| > 1 ==> r.Some?
  {
    if hits == [] then None
    else if |hits| == 1 then (if dist(hits[0]) <= thresh then Some(hits[0].id) else None)
    else
      var k := FirstExact(exact, hits);
      if k.Some? then Some(hits[k.value].id) else Some(Closest(dist, hits).id)
  }

  /** getTVDBid after the search, as written in scrappy.py; the search hits are a parameter. */
  function TvdbIdSpec(seriesName: Option<string>, hits: seq<Hit>, thresh: int): (r: Result<Option<string>>)
    ensures r.Err? <==> seriesName.None? || seriesName == Some("")
    ensures r.Err? ==> r == Err(AttributeError)
  {
    if seriesName.None? || seriesName.value == "" then Err(AttributeError)
    else
      var s := seriesName.value;
      Ok(ChosenId(hits, ExactTo(s), DistTo(s), thresh))
  }

  /** Of several hits the first that passes the test is chosen. */
  lemma {:induction false} ChosenIdFirstExact(hits: seq<Hit>, exact: Hit -> bool, dist: Hit -> nat, thresh: int, k: nat)
    requires |hits| > 1 && k < |hits| && exact(hits[k])
    requires forall j :: 0 <= j < k ==> !exact(hits[j])
    ensures ChosenId(hits, exact, dist, thresh) == Some(hits[k].id)
  {
  }

  /**
   * With no hit passing the test the id of a hit at the smallest distance
   * is chosen, and of the hits at that distance the last one.
   */
  lemma {:induction false} ChosenIdNearest(hits: seq<Hit>, exact: Hit -> bool, dist: Hit -> nat, thresh: int)
    requires |hits| > 1 && forall j :: 0 <= j < |hits| ==> !exact(hits[j])
    ensures exists k ::
      && 0 <= k < |hits| && ChosenId(hits, exact, dist, thresh) == Some(hits[k].id)
      && (forall j :: 0 <= j < |hits| ==> dist(hits[k]) <= dist(hits[j]))
      && forall j :: k < j < |hits| ==> dist(hits[j]) != dist(hits[k])
  {
    ClosestIsLastNearest(dist, hits);
  }

  /**
   * The loop over several hits, for any name test and distance (getTVDBid
   * passes ExactTo and DistTo of the series name, whose distance
   * HitDistance computes): the first hit that passes the test returns its
   * id at once; otherwise each hit is stored under its distance, and the
   * hit under the smallest key is taken.
   */
  method MultiHitId(hits: seq<Hit>, exact: Hit -> bool, dist: Hit -> nat) returns (chosen: string)
    requires |hits| > 1
    ensures FirstExact(exact, hits).Some? ==> chosen == hits[FirstExact(exact, hits).value].id
    ensures FirstExact(exact, hits).None? ==> chosen == Closest(dist, hits).id
  {
    var levd: map<nat, Hit> := map[];
    var keys: seq<nat> := [];
    for i := 0 to |hits|
      invariant forall j :: 0 <= j < i ==> !exact(hits[j])
      invariant levd == LevdDict(dist, hits[..i])
      invariant forall d :: d in levd <==> d in keys
    {
      if exact(hits[i]) {
        return hits[i].id;
      }
      var d := dist(hits[i]);
      assert hits[..i + 1][..i] == hits[..i] && hits[..i + 1][i] == hits[i];
      if d !in levd {
        keys := keys + [d];
      }
      levd := levd[d := hits[i]];
    }
    assert hits[..|hits|] == hits;
    assert dist(hits[0]) in levd;
    var m := MinKey(keys);
    assert m == MinDistance(dist, hits) by {
      LevdDictKeepsLast(dist, hits, m);
      var i :| 0 <= i < |hits| && dist(hits[i]) == MinDistance(dist, hits);
      assert MinDistance(dist, hits) in keys;
    }
    return levd[m].id;
  }

  class Scrape {
    /** self.files */
    var files: seq<string>
    /** self.filemap: None, or the record of the file's episode */
    var filemap: map<string, Option<Record>>
    /** self.seriesname */
    var seriesName: Option<string>
    /** self.id */
    var id: Option<string>
    /** self.seriesxml: the series record once fetched */
    var seriesxml: Option<SeriesXml>
    /** self.old_: each new name with the name it replaced */
    var old_: Dict<string>
    /** the file system os.rename works on */
    const disk: Disk

    /** __init__ for a non-empty file list: every file maps to None. */
    constructor (disk: Disk, filelist: seq<string>, seriesName: Option<string>, tvdbid: Option<string>)
      ensures this.disk == disk && files == filelist && this.seriesName == seriesName && id == tvdbid
      ensures seriesxml == None && old_ == Empty()
      ensures forall f :: f in filemap <==> f in filelist
      ensures forall f :: f in filemap ==> filemap[f] == None
    {
      this.disk := disk;
      files := filelist;
      filemap := map f | f in filelist :: None;
      this.seriesName := seriesName;
      id := tvdbid;
      seriesxml := None;
      old_ := Empty();
    }

    /**
     * getSeriesName: the guesses that carry a series are tallied one by
     * one, and after each the ranking loop runs over the tallies so far;
     * the result of the last run is returned.
     */
    method GetSeriesName(guessOf: string -> Guess) returns (r: Option<string>)
      ensures r == SeriesNameSpec(GuessesOf(files, guessOf))
    {
      var guesses := GuessesOf(files, guessOf);
      var named := WithSeries(guesses);
      if named == [] {
        return None;
      }
      var normalCount: map<string, int> := map[];
      var highConf: map<string, real> := map[];
      var order: seq<string> := [];
      var bestguess: Option<string> := None;
      for i := 0 to |named|
        invariant AllNamed(named[..i])
        invariant Tallied(normalCount, highConf, order, ToVotes(named[..i]))
        invariant i > 0 ==> bestguess == LastPositive(order, ToVotes(named[..i]))
      {
        var guess := named[i];
        var normalized := Normalize(guess.series.value);
        normalCount, highConf, order := TallyVote(normalCount, highConf, order, ToVotes(named[..i]), Vote(normalized, guess.confidence));
        ToVotesSnoc(named, i);
        bestguess := RankLastPositive(normalCount, highConf, order, ToVotes(named[..i + 1]));
      }
      assert named[..|named|] == named;
      return bestguess;
    }

    /**
     * getTVDBid(thresh) with the search hits given: sets and returns the
     * id, or raises and leaves it as it was.
     */
    method GetTVDBid(hits: seq<Hit>, thresh: int) returns (r: Result<Option<string>>)
      modifies this`id
      ensures r == TvdbIdSpec(seriesName, hits, thresh)
      ensures id == if r.Ok? then r.value else old(id)
    {
      if seriesName.None? || seriesName.value == "" {
        return Err(AttributeError);
      }
      var s := seriesName.value;
      if hits == [] {
        id := None;
        return Ok(id);
      }
      if |hits| == 1 {
        var ld := HitDistance(hits[0], s);
        if ld <= thresh {
          id := Some(hits[0].id);
        } else {
          id := None;
        }
        return Ok(id);
      }
      var chosen := MultiHitId(hits, ExactTo(s), DistTo(s));
      id := Some(chosen);
      return Ok(id);
    }

    /**
     * The inner loop of mapSeriesInfo for one file, for any comparison:
     * each matching node stores its record for the file at once.
     */
    method ScanEpisodes(cmp: EpisodeNode -> Result<bool>, ep: seq<EpisodeNode>, seriesName: string, fname: string)
      returns (o: Outcome, found: Option<Record>)
      modifies this`filemap
      ensures (o, found) == ScanWith(cmp, ep, seriesName, fname)
      ensures filemap == if found.Some? then old(filemap)[fname := found] else old(filemap)
    {
      found := None;
      for j := 0 to |ep|
        invariant ScanWith(cmp, ep[..j], seriesName, fname) == (Done, found)
        invariant filemap == if found.Some? then old(filemap)[fname := found] else old(filemap)
      {
        var c := cmp(ep[j]);
        assert Init(ep[..j + 1]) == ep[..j] && Last(ep[..j + 1]) == ep[j];
        if c.Err? {
          ScanWithStopsAtRaise(cmp, ep, j + 1, seriesName, fname);
          return Raised(c.error), found;
        }
        if c.value {
          found := Some(RecordOf(ep[j], seriesName, fname));
          filemap := filemap[fname := found];
        }
      }
      assert ep[..|ep|] == ep;
      return Done, found;
    }

    /**
     * mapSeriesInfo with the guesser as a parameter: AttributeError when
     * there is no series record; otherwise every file's guess is compared
     * with every episode node, each match storing its record for the file.
     */
    method MapSeriesInfo(guessOf: string -> Guess) returns (o: Outcome)
      modifies this`filemap
      ensures seriesxml.None? ==> o == Raised(AttributeError) && filemap == old(filemap)
      ensures seriesxml.Some? ==> (o, filemap) == MapFiles(files, guessOf, seriesxml.value, old(filemap))
    {
      if seriesxml.None? {
        return Raised(AttributeError);
      }
      var xml := seriesxml.value;
      var ep := xml.episodes;
      for i := 0 to |files|
        invariant MapFiles(files[..i], guessOf, xml, old(filemap)) == (Done, filemap)
      {
        var fname := files[i];
        var guess := guessOf(fname);
        assert Init(files[..i + 1]) == files[..i] && Last(files[..i + 1]) == fname;
        var o', found := ScanEpisodes(CompareWith(guess), ep, xml.seriesName, fname);
        if o'.Raised? {
          MapFilesStopsAtRaise(files, i + 1, guessOf, xml, old(filemap));
          return o';
        }
      }
      assert files[..|files|] == files;
      return Done;
    }

    /**
     * renameFiles: old_ starts empty; each mapped file is renamed to its
     * new name and recorded; the first failing rename undoes the recorded
     * ones in key order and gives False, unless an undo fails too.
     */
    method RenameFiles() returns (r: Result<bool>)
      modifies this`old_, disk
      ensures (r, disk.names, old_) == RenameAll(files, filemap, LegacyTarget, old(disk.names), Empty())
    {
      r := RenameWith(LegacyTarget);
    }

    /** The loop of renameFiles, for any way of computing the new name. */
    method RenameWith(target: (string, Record) -> Result<string>) returns (r: Result<bool>)
      modifies this`old_, disk
      ensures (r, disk.names, old_) == RenameAll(files, filemap, target, old(disk.names), Empty())
    {
      old_ := Empty();
      for i := 0 to |files|
        invariant old_.Valid()
        invariant RenameAll(files, filemap, target, old(disk.names), Empty()) ==
          RenameAll(files[i..], filemap, target, disk.names, old_)
      {
        assert files[i..][1..] == files[i + 1..];
        var fname := files[i];
        if fname !in filemap {
          return Err(KeyError);
        }
        if filemap[fname].Some? {
          var newname := target(fname, filemap[fname].value);
          if newname.Err? {
            return Err(newname.error);
          }
          var ok := disk.Rename(fname, newname.value);
          if ok {
            old_ := Assign(old_, newname.value, fname);
          } else {
            ghost var undo := UndoMoves(old_);
            ghost var failed := disk.names;
            assert undo[0..] == undo;
            for k := 0 to |old_.keys|
              modifies disk
              invariant RunMoves(failed, undo) == RunMoves(disk.names, undo[k..])
            {
              assert undo[k..][1..] == undo[k + 1..];
              var back := disk.Rename(old_.keys[k], old_.items[old_.keys[k]]);
              if !back {
                return Err(OSError);
              }
            }
            assert undo[|undo|..] == [];
            return Ok(false);
          }
        }
      }
      assert files[|files|..] == [];
      return Ok(true);
    }
  }

  /** Scrape(filelist, seriesname, tvdbid): AttributeError for an empty file list, otherwise the new object. */
  method NewScrape(disk: Disk, filelist: seq<string>, seriesName: Option<string>, tvdbid: Option<string>) returns (r: Result<Scrape>)
    ensures r.Err? <==> filelist == []
    ensures r.Err? ==> r.error == AttributeError
    ensures r.Ok? ==>
      && fresh(r.value) && r.value.disk == disk && r.value.files == filelist
      && r.value.seriesName == seriesName && r.value.id == tvdbid && r.value.seriesxml == None
      && (forall f :: f in r.value.filemap <==> f in filelist)
      && forall f :: f in r.value.filemap ==> r.value.filemap[f] == None
  {
    if filelist == [] {
      return Err(AttributeError);
    }
    var scrape := new Scrape(disk, filelist, seriesName, tvdbid);
    return Ok(scrape);
  }
}
