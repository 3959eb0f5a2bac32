/**
 * scrappy/scrape.py: the Series class (the series-name vote over the file
 * names, the episode mapping and the renaming) and the id choice of its
 * Scrape class. The guesser, the search and the series record are
 * parameters; os.rename is the abstract disk.
 */
module SeriesScrape {
  import opened Wrappers
  import opened Strings
  import opened Paths
  import opened Votes
  import opened Dicts
  import opened Disk
  import opened Hits
  import opened EpisodeMatch
  import opened Formatters
  import opened LegacyText
  import opened LegacyScrape

  /** The guesser applied to the file name without its directory, path.split(f)[1]. */
  function OnTail(guessOf: string -> Guess): string -> Guess
  {
    f => guessOf(Tail(f))
  }

  /**
   * The name the last ranking turn of getSeriesName picks: the first name,
   * in tally order, whose score beats every earlier one and 0.0.
   */
  function BestName(gs: seq<Guess>): Option<string>
  {
    var votes := ToVotes(WithSeries(gs));
    FirstBest(Names(votes), votes).0
  }

  /** self.seriesname after getSeriesName: unchanged without a guess that carries a series. */
  function SeriesNameAfter(gs: seq<Guess>, current: Option<string>): Option<string>
  {
    if WithSeries(gs) == [] then current else BestName(gs)
  }

  /**
   * The name picked has the highest score of all guessed names, and every
   * name tallied before it scores strictly less; None only when no name
   * scores above 0.0.
   */
  lemma {:induction false} BestNameIsFirstMaximum(gs: seq<Guess>)
    ensures var votes := ToVotes(WithSeries(gs));
      var r := BestName(gs);
      && (r.None? <==> forall i :: 0 <= i < |votes| ==> Score(votes, votes[i].name) <= 0.0)
      && (r.Some? ==> Score(votes, r.value) > 0.0)
      && (r.Some? ==> forall i :: 0 <= i < |votes| ==> Score(votes, votes[i].name) <= Score(votes, r.value))
      && (r.Some? ==>
            exists k :: 0 <= k < |Names(votes)| && Names(votes)[k] == r.value &&
                        forall j :: 0 <= j < k ==> Score(votes, Names(votes)[j]) < Score(votes, r.value))
  {
    var votes := ToVotes(WithSeries(gs));
    var r := BestName(gs);
    assert r == FirstBest(Names(votes), votes).0;
    VotedFirstBest(votes);
    assert r.None? <==> forall i :: 0 <= i < |votes| ==> Score(votes, votes[i].name) <= 0.0;
    if r.Some? {
      FirstBestIsFirstMaximum(Names(votes), votes);
      assert Score(votes, r.value) > 0.0;
    }
  }

  /** The name picked is the normalized series name of one of the guesses. */
  lemma {:induction false} BestNameIsGuessed(gs: seq<Guess>)
    ensures BestName(gs).Some? ==>
      exists i :: 0 <= i < |gs| && gs[i].series.Some? && Normalize(gs[i].series.value) == BestName(gs).value
  {
    if BestName(gs).Some? {
      var named := WithSeries(gs);
      var votes := ToVotes(named);
      var n := BestName(gs).value;
      assert exists j :: 0 <= j < |votes| && votes[j].name == n by {
        FirstBestIsVoted(votes);
      }
      var j :| 0 <= j < |votes| && votes[j].name == n;
      VoteNameIsGuessed(gs, j);
    }
  }

  /**
   * The ranking loop over the tallies as scrappy/scrape.py writes it: a
   * name whose score exceeds `oldscore` becomes the best guess and its
   * score the new `oldscore`.
   */
  method RankFirstBest(normalCount: map<string, int>, highConf: map<string, real>, order: seq<string>, ghost votes: seq<Vote>)
    returns (bestguess: Option<string>)
    requires Tallied(normalCount, highConf, order, votes)
    ensures bestguess == FirstBest(order, votes).0
  {
    bestguess := None;
    var oldscore := 0.0;
    for k := 0 to |order|
      invariant (bestguess, oldscore) == FirstBest(order[..k], votes)
    {
      var n := order[k];
      TalliedScore(normalCount, highConf, order, votes, n);
      var score := highConf[n] * normalCount[n] as real;
      FirstBestSnoc(order, k, votes);
      if score > oldscore {
        bestguess := Some(n);
        oldscore := score;
      }
    }
    assert order[..|order|] == order;
  }

  /**
   * The tally loop of getSeriesName over the guesses that carry a series:
   * each guess is counted under its normalized name, and the ranking loop
   * runs after each; the result of the last run is kept.
   */
  method Elect(named: seq<Guess>) returns (bestguess: Option<string>)
    requires named != [] && AllNamed(named)
    ensures bestguess == FirstBest(Names(ToVotes(named)), ToVotes(named)).0
  {
    var normalCount: map<string, int> := map[];
    var highConf: map<string, real> := map[];
    var order: seq<string> := [];
    bestguess := None;
    for i := 0 to |named|
      invariant AllNamed(named[..i])
      invariant Tallied(normalCount, highConf, order, ToVotes(named[..i]))
      invariant i > 0 ==> bestguess == FirstBest(order, ToVotes(named[..i])).0
    {
      var guess := named[i];
      var normalized := Normalize(guess.series.value);
      normalCount, highConf, order := TallyVote(normalCount, highConf, order, ToVotes(named[..i]), Vote(normalized, guess.confidence));
      ToVotesSnoc(named, i);
      bestguess := RankFirstBest(normalCount, highConf, order, ToVotes(named[..i + 1]));
    }
    assert named[..|named|] == named;
  }

  /** The new name renameFiles builds for a mapped file, in the file's own directory. */
  function SeriesTarget(fname: string, rec: Record): string
  {
    var sname := FormatDotTitle(rec.seriesName);
    var ename := FormatDotTitle(rec.title);
    var snum := "S" + ZFill(rec.season, 2);
    var enum := "E" + ZFill(rec.episode, 2);
    PathJoin(Head(fname), Join('.', [sname, snum, enum, ename, rec.ext]))
  }

  /**
   * The new name stays in the file's directory and is made of the dotted
   * title-cased series name, S and the zero-filled season, E and the
   * zero-filled episode, the dotted title-cased episode name and the
   * extension, joined with '.'; the text after its last '.' is the
   * extension.
   */
  lemma {:induction false} SeriesTargetLayout(fname: string, rec: Record)
    requires var name := Join('.', [FormatDotTitle(rec.seriesName), "S" + ZFill(rec.season, 2), "E" + ZFill(rec.episode, 2),
                                    FormatDotTitle(rec.title), rec.ext]);
      '/' !in name
    requires '.' !in rec.ext
    ensures Head(SeriesTarget(fname, rec)) == Head(fname)
    ensures Tail(SeriesTarget(fname, rec)) ==
      (FormatDotTitle(rec.seriesName) + "." + ("S" + ZFill(rec.season, 2)) + "." + ("E" + ZFill(rec.episode, 2)) + "."
       + FormatDotTitle(rec.title)) + "." + rec.ext
    ensures LastPiece(Tail(SeriesTarget(fname, rec)), '.') == rec.ext
  {
    var sname := FormatDotTitle(rec.seriesName);
    var ename := FormatDotTitle(rec.title);
    var snum := "S" + ZFill(rec.season, 2);
    var enum := "E" + ZFill(rec.episode, 2);
    var name := Join('.', [sname, snum, enum, ename, rec.ext]);
    InSameDirectoryKeepsDirectory(fname, name);
    JoinFive(sname, snum, enum, ename, rec.ext);
    var front := sname + "." + snum + "." + enum + "." + ename;
    assert name == front + "." + rec.ext;
    LastPieceAfterSep(front, rec.ext, '.');
  }

  /**
   * renameFiles as written, for any way of computing the new name: the
   * loop reaches the first mapped file (a file missing from the map raises
   * KeyError first), renames it if it can, and the return in the finally
   * clause ends the method there with the rename's success; None when no
   * file is mapped. old_ records the one rename made.
   */
  function RenameFirst<V>(files: seq<string>, filemap: map<string, Option<V>>, target: (string, V) -> string,
                          names: set<string>): (Result<Option<bool>>, set<string>, Dict<string>)
    decreases files
  {
    if files == [] then (Ok(None), names, Empty())
    else
      var f := files[0];
      if f !in filemap then (Err(KeyError), names, Empty())
      else if filemap[f].None? then RenameFirst(files[1..], filemap, target, names)
      else
        var t := target(f, filemap[f].value);
        if CanMove(names, f, t) then (Ok(Some(true)), Moved(names, f, t), Assign(Empty(), t, f))
        else (Ok(Some(false)), names, Empty())
  }

  /** The file the loop stops at: every file before it is listed and unmapped, and it is mapped. */
  predicate FirstMapped<V>(files: seq<string>, filemap: map<string, Option<V>>, k: int)
  {
    && 0 <= k < |files| && files[k] in filemap && filemap[files[k]].Some?
    && forall j :: 0 <= j < k ==> files[j] in filemap && filemap[files[j]].None?
  }

  /**
   * At most one file is ever renamed: True means exactly the first mapped
   * file was renamed to its new name, and recorded; otherwise the disk is
   * as it was and nothing is recorded. None means every file is unmapped.
   */
  lemma {:induction false} RenameFirstAtMostOne<V>(files: seq<string>, filemap: map<string, Option<V>>,
                                                   target: (string, V) -> string, names: set<string>)
    ensures var (r, after, rec) := RenameFirst(files, filemap, target, names);
      && (r == Ok(Some(true)) ==> exists k ::
            && FirstMapped(files, filemap, k)
            && var t := target(files[k], filemap[files[k]].value);
               CanMove(names, files[k], t) && after == Moved(names, files[k], t) && rec.keys == [t] && rec.items == map[t := files[k]])
      && (r != Ok(Some(true)) ==> after == names && rec == Empty())
      && (r == Ok(None) <==> forall j :: 0 <= j < |files| ==> files[j] in filemap && filemap[files[j]].None?)
    decreases files
  {
    if files != [] {
      var f := files[0];
      var rest := files[1..];
      if f in filemap && filemap[f].None? {
        RenameFirstAtMostOne(rest, filemap, target, names);
        var (r, after, rec) := RenameFirst(rest, filemap, target, names);
        if r == Ok(Some(true)) {
          var k :| && FirstMapped(rest, filemap, k)
                   && var t := target(rest[k], filemap[rest[k]].value);
                      CanMove(names, rest[k], t) && after == Moved(names, rest[k], t) && rec.keys == [t] && rec.items == map[t := rest[k]];
          assert files[k + 1] == rest[k];
          assert FirstMapped(files, filemap, k + 1) by {
            forall j | 0 <= j < k + 1 ensures files[j] in filemap && filemap[files[j]].None? {
              if j > 0 {
                assert files[j] == rest[j - 1];
              }
            }
          }
        }
        if r == Ok(None) {
          forall j | 0 <= j < |files| ensures files[j] in filemap && filemap[files[j]].None? {
            if j > 0 {
              assert files[j] == rest[j - 1];
            }
          }
        } else {
          if r.Ok? && r.value.Some? {
            var k :| 0 <= k < |rest| && !(rest[k] in filemap && filemap[rest[k]].None?);
            assert files[k + 1] == rest[k];
          } else {
            RenameFirstRaises(rest, filemap, target, names);
            var k :| 0 <= k < |rest| && rest[k] !in filemap;
            assert files[k + 1] == rest[k];
          }
        }
      } else if f in filemap {
        assert FirstMapped(files, filemap, 0);
      }
    }
  }

  /** The loop raises only at a file missing from the map. */
  lemma {:induction false} RenameFirstRaises<V>(files: seq<string>, filemap: map<string, Option<V>>,
                                                target: (string, V) -> string, names: set<string>)
    ensures RenameFirst(files, filemap, target, names).0.Err? ==>
      RenameFirst(files, filemap, target, names).0 == Err(KeyError) && exists k :: 0 <= k < |files| && files[k] !in filemap
    ensures RenameFirst(files, filemap, target, names).0.Ok? && RenameFirst(files, filemap, target, names).0.value.Some? ==>
      exists k :: 0 <= k < |files| && !(files[k] in filemap && filemap[files[k]].None?)
    decreases files
  {
    if files != [] {
      var f := files[0];
      if f in filemap && filemap[f].None? {
        RenameFirstRaises(files[1..], filemap, target, names);
        var r := RenameFirst(files[1..], filemap, target, names).0;
        if r.Err? {
          var k :| 0 <= k < |files[1..]| && files[1..][k] !in filemap;
          assert files[k + 1] == files[1..][k];
        } else if r.value.Some? {
          var k :| 0 <= k < |files[1..]| && !(files[1..][k] in filemap && files[1..][k] in filemap && filemap[files[1..][k]].None?);
          assert files[k + 1] == files[1..][k];
        }
      } else {
        assert !(files[0] in filemap && filemap[files[0]].None?);
      }
    }
  }

  /**
   * With two mapped files that could both be renamed, True is returned
   * while the second file still has its old name.
   */
  lemma {:induction false} ReturnInFinallyRenamesOne<V>(files: seq<string>, filemap: map<string, Option<V>>,
                                     target: (string, V) -> string, names: set<string>)
    requires |files| == 2 && files[0] != files[1]
    requires files[0] in filemap && filemap[files[0]].Some? && files[1] in filemap && filemap[files[1]].Some?
    requires files[0] in names && files[1] in names
    requires target(files[0], filemap[files[0]].value) !in names && target(files[0], filemap[files[0]].value) != files[1]
    ensures RenameFirst(files, filemap, target, names).0 == Ok(Some(true))
    ensures files[1] in RenameFirst(files, filemap, target, names).1
  {
  }

  /**
   * The scan of getTVDBid over several hits as scrappy/scrape.py writes
   * it, for any name test and distance: the first hit that passes the test
   * gives its id; otherwise every distance is stored, and min() applied to
   * the unbound `keys` method of the dictionary raises TypeError.
   */
  function PickAsWritten(hits: seq<Hit>, exact: Hit -> bool, dist: Hit -> nat, thresh: int): (r: Result<Option<string>>)
    ensures r.Err? <==> |hits| > 1 && FirstExact(exact, hits).None?
    ensures r.Err? ==> r.error == TypeError
    ensures r.Ok? ==> r.value == ChosenId(hits, exact, dist, thresh)
  {
    if hits == [] then Ok(None)
    else if |hits| == 1 then Ok(if dist(hits[0]) <= thresh then Some(hits[0].id) else None)
    else
      var k := FirstExact(exact, hits);
      if k.Some? then Ok(Some(hits[k.value].id)) else Err(TypeError)
  }

  /** getTVDBid as written in scrappy/scrape.py; the search hits for the normalized name are a parameter. */
  function TvdbIdAsWritten(seriesName: Option<string>, hits: seq<Hit>, thresh: int): (r: Result<Option<string>>)
    ensures seriesName.None? ==> r == Err(AttributeError)
  {
    if seriesName.None? then Err(AttributeError)
    else if Normalize(seriesName.value) == "" then Err(AssertionError)
    else PickAsWritten(hits, ExactTo(seriesName.value), DistTo(seriesName.value), thresh)
  }

  /**
   * With several hits and none matching exactly, scrappy/scrape.py raises
   * where scrappy.py takes the hit at the smallest distance.
   */
  lemma {:induction false} NoExactMatchRaises(hits: seq<Hit>, exact: Hit -> bool, dist: Hit -> nat, thresh: int)
    requires |hits| > 1 && forall j :: 0 <= j < |hits| ==> !exact(hits[j])
    ensures PickAsWritten(hits, exact, dist, thresh) == Err(TypeError)
    ensures ChosenId(hits, exact, dist, thresh) == Some(Closest(dist, hits).id)
  {
  }

  /**
   * The loop over several hits, for any name test and distance: the first
   * hit that passes the test returns its id at once; otherwise each hit is
   * stored under its distance, and the lookup of the smallest key raises.
   */
  method ScanHits(hits: seq<Hit>, exact: Hit -> bool, dist: Hit -> nat) returns (r: Result<string>)
    requires |hits| > 1
    ensures FirstExact(exact, hits).Some? ==> r == Ok(hits[FirstExact(exact, hits).value].id)
    ensures FirstExact(exact, hits).None? ==> r == Err(TypeError)
  {
    var levd: map<nat, Hit> := map[];
    for i := 0 to |hits|
      invariant forall j :: 0 <= j < i ==> !exact(hits[j])
      invariant levd == LevdDict(dist, hits[..i])
    {
      if exact(hits[i]) {
        return Ok(hits[i].id);
      }
      assert hits[..i + 1][..i] == hits[..i] && hits[..i + 1][i] == hits[i];
      levd := levd[dist(hits[i]) := hits[i]];
    }
    return Err(TypeError);
  }

  class Series {
    /** self.files */
    var files: seq<string>
    /** self.filemap: None, or the record of the file's episode */
    var filemap: map<string, Option<Record>>
    /** self.seriesname */
    var seriesName: Option<string>
    /** self.old_: each new name with the name it replaced */
    var old_: Dict<string>
    /** the file system os.rename works on */
    const disk: Disk

    /** __init__ for the flattened file list: every file maps to None and there is no series name yet. */
    constructor (disk: Disk, fnames: seq<string>)
      ensures this.disk == disk && files == fnames && seriesName == None && old_ == Empty()
      ensures forall f :: f in filemap <==> f in fnames
      ensures forall f :: f in filemap ==> filemap[f] == None
    {
      this.disk := disk;
      files := fnames;
      filemap := map f | f in fnames :: None;
      seriesName := None;
      old_ := Empty();
    }

    /**
     * getSeriesName: with no guess that carries a series it returns early;
     * otherwise the guesses are tallied one by one, the ranking loop runs
     * after each, and the result of the last run is stored.
     */
    method GetSeriesName(guessOf: string -> Guess)
      modifies this`seriesName
      ensures seriesName == SeriesNameAfter(GuessesOf(files, OnTail(guessOf)), old(seriesName))
    {
      var guesses := GuessesOf(files, OnTail(guessOf));
      var named := WithSeries(guesses);
      if named == [] {
        return;
      }
      seriesName := Elect(named);
    }

    /**
     * The inner loop of mapSeriesInfo for one file, for any comparison:
     * each matching node stores its record for the file at once.
     */
    method ScanEpisodes(cmp: EpisodeNode -> Result<bool>, ep: seq<EpisodeNode>, seriesName: string, fname: string)
      returns (o: Outcome, found: Option<Record>)
      modifies this`filemap
      ensures (o, found) == ScanWith(cmp, ep, seriesName, fname)
      ensures filemap == if found.Some? then old(filemap)[fname := found] else old(filemap)
    {
      found := None;
      for j := 0 to |ep|
        invariant ScanWith(cmp, ep[..j], seriesName, fname) == (Done, found)
        invariant filemap == if found.Some? then old(filemap)[fname := found] else old(filemap)
      {
        var c := cmp(ep[j]);
        assert Init(ep[..j + 1]) == ep[..j] && Last(ep[..j + 1]) == ep[j];
        if c.Err? {
          ScanWithStopsAtRaise(cmp, ep, j + 1, seriesName, fname);
          return Raised(c.error), found;
        }
        if c.value {
          found := Some(RecordOf(ep[j], seriesName, fname));
          filemap := filemap[fname := found];
        }
      }
      assert ep[..|ep|] == ep;
      return Done, found;
    }

    /**
     * mapSeriesInfo(seriesxml) with the guesser as a parameter:
     * AssertionError without a series record; otherwise every file's guess
     * (from its name without the directory) is compared with every episode
     * node, each match storing its record for the file.
     */
    method MapSeriesInfo(seriesxml: Option<SeriesXml>, guessOf: string -> Guess) returns (o: Outcome)
      modifies this`filemap
      ensures seriesxml.None? ==> o == Raised(AssertionError) && filemap == old(filemap)
      ensures seriesxml.Some? ==> (o, filemap) == MapFiles(files, OnTail(guessOf), seriesxml.value, old(filemap))
    {
      if seriesxml.None? {
        return Raised(AssertionError);
      }
      var xml := seriesxml.value;
      var ep := xml.episodes;
      for i := 0 to |files|
        invariant MapFiles(files[..i], OnTail(guessOf), xml, old(filemap)) == (Done, filemap)
      {
        var fname := files[i];
        var guess := guessOf(Tail(fname));
        assert Init(files[..i + 1]) == files[..i] && Last(files[..i + 1]) == fname;
        var o', found := ScanEpisodes(CompareWith(guess), ep, xml.seriesName, fname);
        if o'.Raised? {
          MapFilesStopsAtRaise(files, i + 1, OnTail(guessOf), xml, old(filemap));
          return o';
        }
      }
      assert files[..|files|] == files;
      return Done;
    }

    /** renameFiles: the loop ends at the first mapped file. */
    method RenameFiles() returns (r: Result<Option<bool>>)
      modifies this`old_, disk
      ensures (r, disk.names, old_) == RenameFirst(files, filemap, SeriesTarget, old(disk.names))
    {
      r := RenameWith(SeriesTarget);
    }

    /**
     * The loop of renameFiles, for any way of computing the new name. When
     * the rename fails, the except clause undoes the renames recorded in
     * old_, of which there are none yet, and the finally clause returns.
     */
    method RenameWith(target: (string, Record) -> string) returns (r: Result<Option<bool>>)
      modifies this`old_, disk
      ensures (r, disk.names, old_) == RenameFirst(files, filemap, target, old(disk.names))
    {
      var success := false;
      old_ := Empty();
      for i := 0 to |files|
        invariant old_ == Empty() && disk.names == old(disk.names)
        invariant RenameFirst(files, filemap, target, old(disk.names)) == RenameFirst(files[i..], filemap, target, disk.names)
      {
        assert files[i..][1..] == files[i + 1..];
        var fname := files[i];
        if fname !in filemap {
          return Err(KeyError);
        }
        if filemap[fname].Some? {
          var newname := target(fname, filemap[fname].value);
          var ok := disk.Rename(fname, newname);
          if ok {
            old_ := Assign(old_, newname, fname);
            success := true;
          }
          return Ok(Some(success));
        }
      }
      assert files[|files|..] == [];
      return Ok(None);
    }
  }

  /** What one media item stands for: a directory its entries joined to it, a file itself, anything else nothing. */
  function Expand(item: string, isDir: string -> bool, isFile: string -> bool, listdir: string -> seq<string>): seq<string>
  {
    if isDir(item) then seq(|listdir(item)|, j requires 0 <= j < |listdir(item)| => PathJoin(item, listdir(item)[j]))
    else if isFile(item) then [item]
    else []
  }

  /** The flattened file list of __init__: the items expanded in order. */
  function Flatten(media: seq<string>, isDir: string -> bool, isFile: string -> bool, listdir: string -> seq<string>): seq<string>
  {
    if media == [] then []
    else Flatten(media[..|media| - 1], isDir, isFile, listdir) + Expand(media[|media| - 1], isDir, isFile, listdir)
  }

  /** A list of plain files is kept as it is. */
  lemma {:induction false} FlattenPlainFiles(media: seq<string>, isDir: string -> bool, isFile: string -> bool, listdir: string -> seq<string>)
    requires forall i :: 0 <= i < |media| ==> !isDir(media[i]) && isFile(media[i])
    ensures Flatten(media, isDir, isFile, listdir) == media
  {
    if media != [] {
      FlattenPlainFiles(media[..|media| - 1], isDir, isFile, listdir);
      assert media[..|media| - 1] + [media[|media| - 1]] == media;
    }
  }

  /** An item that is neither a directory nor a file adds nothing. */
  lemma {:induction false} FlattenSkipsMissing(media: seq<string>, item: string, isDir: string -> bool, isFile: string -> bool, listdir: string -> seq<string>)
    requires !isDir(item) && !isFile(item)
    ensures Flatten(media + [item], isDir, isFile, listdir) == Flatten(media, isDir, isFile, listdir)
  {
    assert (media + [item])[..|media|] == media;
  }

  lemma {:induction false} FlattenSnoc(media: seq<string>, i: nat, isDir: string -> bool, isFile: string -> bool, listdir: string -> seq<string>)
    requires i < |media|
    ensures Flatten(media[..i + 1], isDir, isFile, listdir) == Flatten(media[..i], isDir, isFile, listdir) + Expand(media[i], isDir, isFile, listdir)
  {
    assert media[..i + 1][..i] == media[..i];
  }

  /** The inner loop of __init__ over a directory: each entry joined to the directory. */
  method JoinEntries(dir: string, entries: seq<string>) returns (joined: seq<string>)
    ensures joined == seq(|entries|, j requires 0 <= j < |entries| => PathJoin(dir, entries[j]))
  {
    joined := [];
    for j := 0 to |entries|
      invariant |joined| == j
      invariant forall k :: 0 <= k < j ==> joined[k] == PathJoin(dir, entries[k])
    {
      joined := joined + [PathJoin(dir, entries[j])];
    }
  }

  /** The loop of __init__ over the media: each directory adds its entries joined to it, each file itself. */
  method CollectFiles(media: seq<string>, isDir: string -> bool, isFile: string -> bool, listdir: string -> seq<string>)
    returns (fnames: seq<string>)
    ensures fnames == Flatten(media, isDir, isFile, listdir)
  {
    fnames := [];
    for i := 0 to |media|
      invariant fnames == Flatten(media[..i], isDir, isFile, listdir)
    {
      var item := media[i];
      FlattenSnoc(media, i, isDir, isFile, listdir);
      if isDir(item) {
        var joined := JoinEntries(item, listdir(item));
        fnames := fnames + joined;
      } else if isFile(item) {
        fnames := fnames + [item];
      }
    }
    assert media[..|media|] == media;
  }

  /** The assertion of __init__ that every collected path is a file. */
  method AllFiles(fnames: seq<string>, isFile: string -> bool) returns (all: bool)
    ensures all <==> forall j :: 0 <= j < |fnames| ==> isFile(fnames[j])
  {
    all := true;
    for k := 0 to |fnames|
      invariant all <==> forall j :: 0 <= j < k ==> isFile(fnames[j])
    {
      if !isFile(fnames[k]) {
        all := false;
      }
    }
  }

  /**
   * Series(media) for a list of paths: directories flattened to their
   * entries, files kept, anything else dropped; AssertionError when nothing
   * is left or a path left is not a file; otherwise the new object.
   */
  method OpenSeries(disk: Disk, media: seq<string>, isDir: string -> bool, isFile: string -> bool, listdir: string -> seq<string>)
    returns (r: Result<Series>)
    ensures var fnames := Flatten(media, isDir, isFile, listdir);
      r.Err? <==> fnames == [] || exists i :: 0 <= i < |fnames| && !isFile(fnames[i])
    ensures r.Err? ==> r.error == AssertionError
    ensures r.Ok? ==>
      && fresh(r.value) && r.value.disk == disk && r.value.seriesName == None
      && r.value.files == Flatten(media, isDir, isFile, listdir)
  {
    var fnames := CollectFiles(media, isDir, isFile, listdir);
    var allFiles := AllFiles(fnames, isFile);
    if !allFiles || fnames == [] {
      return Err(AssertionError);
    }
    var series := new Series(disk, fnames);
    return Ok(series);
  }

  class Scrape {
    /** self.id */
    var id: Option<string>

    /** __init__, keeping only the id it is given. */
    constructor (tvdbid: Option<string>)
      ensures id == tvdbid
    {
      id := tvdbid;
    }

    /**
     * getTVDBid(seriesname, thresh) with the search hits given: sets and
     * returns the id, or raises and leaves it as it was.
     */
    method GetTVDBid(seriesName: Option<string>, hits: seq<Hit>, thresh: int) returns (r: Result<Option<string>>)
      modifies this`id
      ensures r == TvdbIdAsWritten(seriesName, hits, thresh)
      ensures id == if r.Ok? then r.value else old(id)
    {
      if seriesName.None? {
        return Err(AttributeError);
      }
      var s := seriesName.value;
      if Normalize(s) == "" {
        return Err(AssertionError);
      }
      if hits == [] {
        id := None;
        return Ok(id);
      }
      if |hits| == 1 {
        var ld := HitDistance(hits[0], s);
        if ld <= thresh {
          id := Some(hits[0].id);
        } else {
          id := None;
        }
        return Ok(id);
      }
      var found := ScanHits(hits, ExactTo(s), DistTo(s));
      if found.Err? {
        return Err(found.error);
      }
      id := Some(found.value);
      return Ok(id);
    }
  }
}
