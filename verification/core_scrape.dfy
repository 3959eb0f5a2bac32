/**
 * The Scrape class of scrappy/core.py: guessing the series name from the
 * per-file guesses, looking each file's episode up in the series record,
 * and renaming the mapped files through the file-set bookkeeping.
 */
module CoreScrape {
  import opened Wrappers
  import opened Strings
  import opened Votes
  import opened Sorting
  import opened Dicts
  import opened Disk
  import opened Paths
  import opened CoreFiles

  /** Guesses whose series confidence is strictly above the floor, in order. */
  function AboveFloor(gs: seq<Guess>, floor: real): (r: seq<Guess>)
    ensures forall i :: 0 <= i < |r| ==> r[i].confidence > floor
    ensures forall i :: 0 <= i < |gs| && gs[i].confidence > floor ==> gs[i] in r
    ensures forall g :: g in r ==> g in gs
  {
    if gs == [] then []
    else
      var p := AboveFloor(Init(gs), floor);
      assert forall i :: 0 <= i < |gs| - 1 ==> gs[i] == Init(gs)[i];
      if Last(gs).confidence > floor then p + [Last(gs)] else p
  }

  /**
   * The vote once the tallies are complete: the name `ranked` keeps for its
   * highest key, None for the empty name, and IndexError when there is no
   * name at all (the highest key of an empty dict).
   */
  function Elect(votes: seq<Vote>): Result<Option<string>>
  {
    var names := Names(votes);
    if names == [] then Err(IndexError)
    else
      RankedEntries(names, votes);
      var top := Ranked(names, votes)[MaxScore(names, votes)];
      Ok(if top == "" then None else Some(top))
  }

  /**
   * With at least one vote the election picks, among the names, one whose
   * score no other name exceeds (None standing for the empty name); with
   * none it raises IndexError.
   */
  lemma {:induction false} ElectPicksBest(votes: seq<Vote>)
    ensures Elect(votes) == Err(IndexError) <==> votes == []
    ensures Elect(votes).Ok? ==>
      exists top ::
        && top in Names(votes)
        && (Elect(votes).value == if top == "" then None else Some(top))
        && forall n :: n in Names(votes) ==> Score(votes, n) <= Score(votes, top)
  {
    NamesEmpty(votes);
    var names := Names(votes);
    if names != [] {
      RankedTopIsBest(names, votes);
    }
  }

  /** self._guess_from_filename() or self._guess_from_metadata() */
  function Candidates(fromFilename: seq<Guess>, fromMetadata: seq<Guess>): seq<Guess>
  {
    var named := WithSeries(fromFilename);
    if named != [] then named else fromMetadata
  }

  /** _guess_series_name(confidence), with the guessers' outputs as parameters. */
  function GuessSeriesNameSpec(fromFilename: seq<Guess>, fromMetadata: seq<Guess>, floor: real): Result<Option<string>>
  {
    var guesses := Candidates(fromFilename, fromMetadata);
    if guesses == [] then Ok(None)
    else
      var kept := AboveFloor(guesses, floor);
      if !AllNamed(kept) then Err(KeyError) else Elect(ToVotes(kept))
  }

  /**
   * What _guess_series_name can come to: None without guesses, IndexError
   * when every guess is at or below the floor, KeyError when a kept guess
   * has no series, and otherwise the election over the kept guesses.
   */
  lemma {:induction false} GuessSeriesNameOutcomes(fromFilename: seq<Guess>, fromMetadata: seq<Guess>, floor: real)
    ensures var guesses := Candidates(fromFilename, fromMetadata);
      var r := GuessSeriesNameSpec(fromFilename, fromMetadata, floor);
      && (guesses == [] ==> r == Ok(None))
      && (r == Err(IndexError) <==> guesses != [] && AboveFloor(guesses, floor) == [])
      && (r == Err(KeyError) <==> guesses != [] && !AllNamed(AboveFloor(guesses, floor)))
      && (r.Ok? && r.value.Some? ==> AllNamed(AboveFloor(guesses, floor)) && r == Elect(ToVotes(AboveFloor(guesses, floor))))
  {
    var guesses := Candidates(fromFilename, fromMetadata);
    if guesses != [] && AllNamed(AboveFloor(guesses, floor)) {
      ElectOnKept(AboveFloor(guesses, floor));
    }
  }

  /** The election over the kept guesses, in terms of the guesses themselves. */
  lemma {:induction false} ElectOnKept(kept: seq<Guess>)
    requires AllNamed(kept)
    ensures var r := Elect(ToVotes(kept));
      && (r.Err? ==> r == Err(IndexError))
      && (r == Err(IndexError) <==> kept == [])
      && (r.Ok? && r.value.Some? ==>
            && Normalize(r.value.value) == r.value.value
            && (exists i :: 0 <= i < |kept| && Normalize(kept[i].series.value) == r.value.value)
            && forall i :: 0 <= i < |kept| ==>
                 Score(ToVotes(kept), Normalize(kept[i].series.value)) <= Score(ToVotes(kept), r.value.value))
  {
    var votes := ToVotes(kept);
    ElectPicksBest(votes);
    ToVotesNormalized(kept);
    NamesAreVoteNames(votes);
    if Elect(votes).Ok? && Elect(votes).value.Some? {
      var top :| && top in Names(votes)
                 && (Elect(votes).value == if top == "" then None else Some(top))
                 && forall n :: n in Names(votes) ==> Score(votes, n) <= Score(votes, top);
      var j :| 0 <= j < |votes| && votes[j].name == top;
      forall i | 0 <= i < |kept|
        ensures Score(votes, Normalize(kept[i].series.value)) <= Score(votes, top)
      {
        assert Key(votes[i]) in Names(votes);
      }
    }
  }

  /** A named filename guess at or below the floor does not change the outcome. */
  lemma {:induction false} LowConfidenceIgnored(fromFilename: seq<Guess>, fromMetadata: seq<Guess>, floor: real, g: Guess)
    requires g.series.Some? && g.confidence <= floor && WithSeries(fromFilename) != []
    ensures GuessSeriesNameSpec(fromFilename + [g], fromMetadata, floor) == GuessSeriesNameSpec(fromFilename, fromMetadata, floor)
  {
    assert Init(fromFilename + [g]) == fromFilename;
    var named := WithSeries(fromFilename);
    assert WithSeries(fromFilename + [g]) == named + [g];
    assert Init(named + [g]) == named;
    assert AboveFloor(named + [g], floor) == AboveFloor(named, floor);
  }

  /**
   * The tally loop: for every kept guess, count its normalized name and keep
   * its highest confidence; a metadata guess without a series raises KeyError.
   */
  method Tally(kept: seq<Guess>) returns (r: Result<(map<string, int>, map<string, real>, seq<string>)>)
    ensures r.Err? <==> !AllNamed(kept)
    ensures r.Err? ==> r.error == KeyError
    ensures r.Ok? ==> AllNamed(kept) && Tallied(r.value.0, r.value.1, r.value.2, ToVotes(kept))
  {
    var normalCount: map<string, int> := map[];
    var highConf: map<string, real> := map[];
    var order: seq<string> := [];
    for i := 0 to |kept|
      invariant AllNamed(kept[..i])
      invariant Tallied(normalCount, highConf, order, ToVotes(kept[..i]))
    {
      var guess := kept[i];
      if guess.series.None? {
        return Err(KeyError);
      }
      var ntitle := Normalize(guess.series.value);
      normalCount, highConf, order := TallyVote(normalCount, highConf, order, ToVotes(kept[..i]), Vote(ntitle, guess.confidence));
      ToVotesSnoc(kept, i);
    }
    assert kept[..|kept|] == kept;
    return Ok((normalCount, highConf, order));
  }

  /** The first element of sorted(keys, reverse=True): the highest key, None when there is none. */
  method HighestKey(keys: seq<real>) returns (top: Option<real>)
    ensures top.None? <==> keys == []
    ensures top.Some? ==> top.value in keys && forall i :: 0 <= i < |keys| ==> keys[i] <= top.value
  {
    top := None;
    for i := 0 to |keys|
      invariant top.None? <==> i == 0
      invariant top.Some? ==> top.value in keys && forall j :: 0 <= j < i ==> keys[j] <= top.value
    {
      if top.None? || keys[i] > top.value {
        top := Some(keys[i]);
      }
    }
  }

  /** The highest of the scores listed name by name is the highest score, a key of the ranking. */
  lemma {:induction false} TopIsMaxScore(order: seq<string>, votes: seq<Vote>, keys: seq<real>, top: real)
    requires |keys| == |order| && forall j :: 0 <= j < |order| ==> keys[j] == Score(votes, order[j])
    requires top in keys && forall i :: 0 <= i < |keys| ==> keys[i] <= top
    ensures order != [] && top == MaxScore(order, votes) && top in Ranked(order, votes)
  {
    var i :| 0 <= i < |keys| && keys[i] == top;
    assert top <= MaxScore(order, votes);
    RankedEntries(order, votes);
    var best := Ranked(order, votes)[MaxScore(order, votes)];
    var j :| 0 <= j < |order| && order[j] == best;
    assert keys[j] == MaxScore(order, votes);
  }

  /**
   * The dict score -> name built over the names in order, and the name
   * under its highest key; `keys` lists the scores as they are inserted.
   */
  method Rank(normalCount: map<string, int>, highConf: map<string, real>, order: seq<string>, ghost votes: seq<Vote>)
    returns (r: Result<Option<string>>)
    requires Tallied(normalCount, highConf, order, votes)
    ensures r == Elect(votes)
  {
    var ranked: map<real, string> := map[];
    var keys: seq<real> := [];
    for k := 0 to |order|
      invariant ranked == Ranked(order[..k], votes)
      invariant |keys| == k && forall j :: 0 <= j < k ==> keys[j] == Score(votes, order[j])
    {
      var n := order[k];
      TalliedScore(normalCount, highConf, order, votes, n);
      var score := highConf[n] * normalCount[n] as real;
      RankedSnoc(order, k, votes);
      ranked := ranked[score := n];
      keys := keys + [score];
    }
    assert order[..|order|] == order;
    var top := HighestKey(keys);
    if top.None? {
      return Err(IndexError);
    }
    TopIsMaxScore(order, votes, keys, top.value);
    var name := ranked[top.value];
    return Ok(if name == "" then None else Some(name));
  }

  /**
   * _guess_series_name: the filename guesses that carry a series, or else
   * the metadata guesses; None when there are none; otherwise the vote over
   * the guesses above the confidence floor.
   */
  method GuessSeriesName(fromFilename: seq<Guess>, fromMetadata: seq<Guess>, floor: real) returns (r: Result<Option<string>>)
    ensures r == GuessSeriesNameSpec(fromFilename, fromMetadata, floor)
  {
    var guesses := Candidates(fromFilename, fromMetadata);
    if guesses == [] {
      return Ok(None);
    }
    var kept := AboveFloor(guesses, floor);
    var tally := Tally(kept);
    if tally.Err? {
      return Err(tally.error);
    }
    var (normalCount, highConf, order) := tally.value;
    r := Rank(normalCount, highConf, order, ToVotes(kept));
  }

  /** An episode record of the series. */
  datatype Episode = Episode(seasonNumber: int, episodeNumber: int, name: string)

  /** The series record: its id and name, and its seasons, each mapping episode numbers to episodes. */
  datatype Show = Show(id: int, seriesName: string, seasons: map<int, map<int, Episode>>)

  /**
   * What _get_episode_info leaves in the file map: an episode, or the
   * season itself when it has no episodes (an empty season is falsy, so the
   * episode lookup is skipped and the season is returned).
   */
  datatype Entry = EmptySeason | Found(episode: Episode)

  /**
   * _get_episode_info(f): AttributeError when no series was found,
   * KeyError when the guess has no season (or, for a non-empty season, no
   * episode number), None when the season or the episode is missing.
   */
  function EpisodeInfo(series: Option<Show>, g: Guess): Result<Option<Entry>>
  {
    if series.None? then Err(AttributeError)
    else if g.season.None? then Err(KeyError)
    else if g.season.value !in series.value.seasons then Ok(None)
    else
      var season := series.value.seasons[g.season.value];
      if season == map[] then Ok(Some(EmptySeason))
      else if g.episode.None? then Err(KeyError)
      else if g.episode.value !in season then Ok(None)
      else Ok(Some(Found(season[g.episode.value])))
  }

  /** A file gets an episode exactly when the series has the guessed season and episode, and it is that episode. */
  lemma {:induction false} EpisodeInfoFindsGuessedEpisode(series: Option<Show>, g: Guess, e: Episode)
    ensures EpisodeInfo(series, g) == Ok(Some(Found(e))) <==>
      && series.Some? && g.season.Some? && g.episode.Some?
      && g.season.value in series.value.seasons
      && g.episode.value in series.value.seasons[g.season.value]
      && series.value.seasons[g.season.value][g.episode.value] == e
  {
  }

  /** The exceptions _get_episode_info raises, and when it finds nothing. */
  lemma {:induction false} EpisodeInfoOutcomes(series: Option<Show>, g: Guess)
    ensures EpisodeInfo(series, g) == Err(AttributeError) <==> series.None?
    ensures EpisodeInfo(series, g) == Err(KeyError) <==>
      series.Some? && (g.season.None? ||
        (g.season.value in series.value.seasons && series.value.seasons[g.season.value] != map[] && g.episode.None?))
    ensures EpisodeInfo(series, g) == Ok(None) <==>
      && series.Some? && g.season.Some?
      && (g.season.value !in series.value.seasons ||
          (series.value.seasons[g.season.value] != map[] && g.episode.Some? && g.episode.value !in series.value.seasons[g.season.value]))
  {
  }

  /**
   * dict((f, s) for f, s in zip(files, map(_get_episode_info, files))):
   * every file with its entry, or the first exception raised.
   */
  function BuildFileMap(files: seq<string>, guessOf: string -> Guess, series: Option<Show>): (r: Result<map<string, Option<Entry>>>)
    ensures r.Ok? <==> forall i :: 0 <= i < |files| ==> EpisodeInfo(series, guessOf(files[i])).Ok?
    ensures r.Ok? ==> forall f :: f in r.value <==> f in files
    ensures r.Ok? ==> forall i :: 0 <= i < |files| ==> r.value[files[i]] == EpisodeInfo(series, guessOf(files[i])).value
  {
    if files == [] then Ok(map[])
    else
      var init := BuildFileMap(Init(files), guessOf, series);
      var f := Last(files);
      var e := EpisodeInfo(series, guessOf(f));
      assert forall i :: 0 <= i < |files| - 1 ==> files[i] == Init(files)[i];
      assert forall x :: x in files <==> x in Init(files) || x == f;
      if init.Err? then init
      else if e.Err? then Err(e.error)
      else Ok(init.value[f := e.value])
  }

  /**
   * The name rename_files gives a mapped file: formatter(ep) + '.' + the
   * text after the file's last '.', in the file's own directory.
   */
  function Target(f: string, ep: Entry, formatter: Entry -> string): string
  {
    InSameDirectory(f, formatter(ep) + "." + LastPiece(f, '.'))
  }

  /** The new name stays in the file's directory and ends in '.' and the old extension, when the parts have no '/'. */
  lemma {:induction false} TargetKeepsDirectoryAndExtension(f: string, ep: Entry, formatter: Entry -> string)
    requires '/' !in formatter(ep) && '/' !in LastPiece(f, '.')
    ensures Head(Target(f, ep, formatter)) == Head(f)
    ensures Tail(Target(f, ep, formatter)) == formatter(ep) + "." + LastPiece(f, '.')
    ensures '.' !in LastPiece(f, '.')
  {
    var name := formatter(ep) + "." + LastPiece(f, '.');
    assert '/' !in name by {
      assert forall i :: 0 <= i < |name| ==> name[i] in formatter(ep) || name[i] == '.' || name[i] in LastPiece(f, '.');
    }
    InSameDirectoryKeepsDirectory(f, name);
    LastPieceIsTextAfterLastSep(f, '.');
  }

  /**
   * rename_files(): for each tracked file in turn, KeyError when it has no
   * file-map entry, nothing when its entry is None, and otherwise the
   * rename to Target; the first exception stops the loop and nothing is
   * undone.
   */
  function RenameFilesSpec(files: seq<string>, filemap: map<string, Option<Entry>>, formatter: Entry -> string,
                           names: set<string>, d: Dict<Option<string>>): (r: (Outcome, set<string>, Dict<Option<string>>))
    requires d.Valid()
    ensures r.2.Valid()
    decreases files
  {
    if files == [] then (Done, names, d)
    else
      var f := files[0];
      if f !in filemap then (Raised(KeyError), names, d)
      else if filemap[f].None? then RenameFilesSpec(files[1..], filemap, formatter, names, d)
      else
        var (o, names1, d1) := RenameSpec(names, d, f, Target(f, filemap[f].value, formatter));
        if o.Raised? then (o, names1, d1) else RenameFilesSpec(files[1..], filemap, formatter, names1, d1)
  }

  /** rename_files(test=True): the names it prints, up to the first file without an entry. */
  function PreviewSpec(files: seq<string>, filemap: map<string, Option<Entry>>, formatter: Entry -> string): (Outcome, seq<string>)
    decreases files
  {
    if files == [] then (Done, [])
    else
      var f := files[0];
      if f !in filemap then (Raised(KeyError), [])
      else
        var (o, rest) := PreviewSpec(files[1..], filemap, formatter);
        (o, if filemap[f].None? then rest else [Target(f, filemap[f].value, formatter)] + rest)
  }

  /**
   * A name that is neither a mapped file nor the target of one is on the
   * disk after rename_files exactly when it was before: unmapped files are
   * never touched.
   */
  lemma {:induction false} RenameFilesTouchesOnlyMapped(files: seq<string>, filemap: map<string, Option<Entry>>,
                                                        formatter: Entry -> string, names: set<string>, d: Dict<Option<string>>, x: string)
    requires d.Valid()
    requires forall f :: f in files && f in filemap && filemap[f].Some? ==> x != f && x != Target(f, filemap[f].value, formatter)
    ensures x in RenameFilesSpec(files, filemap, formatter, names, d).1 <==> x in names
    decreases files
  {
    if files != [] {
      var f := files[0];
      assert forall g :: g in files[1..] ==> g in files;
      if f in filemap {
        if filemap[f].None? {
          RenameFilesTouchesOnlyMapped(files[1..], filemap, formatter, names, d, x);
        } else {
          var (o, names1, d1) := RenameSpec(names, d, f, Target(f, filemap[f].value, formatter));
          assert x in names1 <==> x in names;
          if !o.Raised? {
            RenameFilesTouchesOnlyMapped(files[1..], filemap, formatter, names1, d1, x);
          }
        }
      }
    }
  }

  /** With no mapped file, rename_files changes nothing, and in test mode it prints nothing. */
  lemma {:induction false} RenameFilesWithoutMappedFiles(files: seq<string>, filemap: map<string, Option<Entry>>,
                                                         formatter: Entry -> string, names: set<string>, d: Dict<Option<string>>)
    requires d.Valid()
    requires forall f :: f in files ==> f in filemap && filemap[f].None?
    ensures RenameFilesSpec(files, filemap, formatter, names, d) == (Done, names, d)
    ensures PreviewSpec(files, filemap, formatter) == (Done, [])
    decreases files
  {
    if files != [] {
      assert forall g :: g in files[1..] ==> g in files;
      RenameFilesWithoutMappedFiles(files[1..], filemap, formatter, names, d);
    }
  }

  /**
   * rename_files is not atomic, although its docstring says so: with two
   * mapped files whose second target is already another file on the disk,
   * the first file is renamed, the second rename raises OSError, and the
   * first rename stays in place.
   */
  lemma {:induction false} RenameFilesIsNotAtomic(files: seq<string>, filemap: map<string, Option<Entry>>, formatter: Entry -> string,
                                                  names: set<string>, d: Dict<Option<string>>, a: string, b: string)
    requires d.Valid() && a in d.items
    requires files == [a, b] && a in filemap && b in filemap && filemap[a].Some? && filemap[b].Some?
    requires a in names && b in names
    requires Target(a, filemap[a].value, formatter) !in names
    requires var t := Target(b, filemap[b].value, formatter); t in names && t != a && t != b
    ensures var (o, names', _) := RenameFilesSpec(files, filemap, formatter, names, d);
      && o == Raised(OSError)
      && names' == Moved(names, a, Target(a, filemap[a].value, formatter))
      && a !in names' && Target(a, filemap[a].value, formatter) in names' && b in names'
  {
    var ta, tb := Target(a, filemap[a].value, formatter), Target(b, filemap[b].value, formatter);
    var (o1, names1, d1) := RenameSpec(names, d, a, ta);
    RenameRecordsOrigin(names, d, a, ta);
    assert o1 == Done && names1 == Moved(names, a, ta);
    assert files[1..] == [b] && [b][1..] == [];
    assert tb in names1 && b in names1;
    RenameRecordsOrigin(names1, d1, b, tb);
    assert RenameSpec(names1, d1, b, tb).0 == Raised(OSError);
  }

  /** The part of the Scrape object the episode mapping and the renaming work on. */
  class Scrape {
    /** self.id */
    var id: Option<int>
    /** self.normalized_seriesname */
    var normalizedSeriesName: Option<string>
    /** self.series */
    var series: Option<Show>
    /** self.filemap */
    var filemap: map<string, Option<Entry>>
    /** self._files */
    const tracked: FileSystemInterface
    /** self.formatter */
    const formatter: Entry -> string

    /** The attribute assignments of __init__ once the series name is guessed: every tracked file maps to None. */
    constructor (tracked: FileSystemInterface, formatter: Entry -> string, id: Option<int>, name: Option<string>)
      ensures this.tracked == tracked && this.formatter == formatter
      ensures this.id == id && normalizedSeriesName == name && series == None
      ensures forall f :: f in filemap <==> f in tracked.files
      ensures forall f :: f in filemap ==> filemap[f] == None
    {
      this.tracked := tracked;
      this.formatter := formatter;
      this.id := id;
      normalizedSeriesName := name;
      series := None;
      filemap := map f | f in tracked.files :: None;
    }

    /**
     * map_episode_info: AssertionError without an id or a name; the lookup
     * result (None when the show is not found, which leaves `series` as it
     * was); the new file map; then the id and the lower-cased name of the
     * series fill in whichever was missing, AttributeError when there is
     * no series.
     */
    method MapEpisodeInfo(lookup: Option<Show>, guessOf: string -> Guess) returns (r: Result<Option<Show>>)
      modifies this
      ensures old(id).None? && (old(normalizedSeriesName).None? || old(normalizedSeriesName) == Some("")) ==>
        && r == Err(AssertionError) && series == old(series) && filemap == old(filemap)
        && id == old(id) && normalizedSeriesName == old(normalizedSeriesName)
      ensures var s := if lookup.Some? then lookup else old(series);
              var named := old(normalizedSeriesName).Some? && old(normalizedSeriesName) != Some("");
              var built := BuildFileMap(tracked.files, guessOf, s);
        (old(id).Some? || named) ==>
          && (r.Ok? <==> built.Ok? && ((old(id).None? || !named) ==> s.Some?))
          && series == s
          && (built.Err? ==> r == Err(built.error) && filemap == old(filemap))
          && (built.Ok? && s.None? && (old(id).None? || !named) ==> r == Err(AttributeError) && filemap == built.value)
          && (r.Err? ==> id == old(id) && normalizedSeriesName == old(normalizedSeriesName))
      ensures r.Ok? ==>
        && r.value == series
        && series == (if lookup.Some? then lookup else old(series))
        && BuildFileMap(tracked.files, guessOf, series) == Ok(filemap)
        && (old(id).Some? ==> id == old(id))
        && (old(id).None? ==> series.Some? && id == Some(series.value.id))
        && (old(normalizedSeriesName).Some? && old(normalizedSeriesName) != Some("") ==> normalizedSeriesName == old(normalizedSeriesName))
        && (old(normalizedSeriesName).None? || old(normalizedSeriesName) == Some("") ==>
              series.Some? && normalizedSeriesName == Some(LowerString(series.value.seriesName)))
    {
      var named := normalizedSeriesName.Some? && normalizedSeriesName.value != "";
      if id.None? && !named {
        return Err(AssertionError);
      }
      if lookup.Some? {
        series := lookup;
      }
      var built := BuildFileMap(tracked.files, guessOf, series);
      if built.Err? {
        return Err(built.error);
      }
      filemap := built.value;
      if id.None? {
        if series.None? {
          return Err(AttributeError);
        }
        id := Some(series.value.id);
      }
      if !named {
        if series.None? {
          return Err(AttributeError);
        }
        normalizedSeriesName := Some(LowerString(series.value.seriesName));
      }
      return Ok(series);
    }

    /**
     * rename_files(test): in test mode the planned names are returned (as
     * printed) and nothing is renamed; otherwise the tracked files are
     * renamed one by one through the file-set bookkeeping.
     */
    method RenameFiles(test: bool) returns (o: Outcome, printed: seq<string>)
      requires tracked.Valid()
      modifies tracked, tracked.disk
      ensures tracked.Valid() && tracked.files == old(tracked.files)
      ensures test ==> (o, printed) == PreviewSpec(tracked.files, filemap, formatter)
      ensures test ==> tracked.disk.names == old(tracked.disk.names) && tracked.origins == old(tracked.origins)
      ensures !test ==>
        && printed == []
        && (o, tracked.disk.names, tracked.origins) ==
             RenameFilesSpec(tracked.files, filemap, formatter, old(tracked.disk.names), old(tracked.origins))
    {
      var files := tracked.files;
      printed := [];
      ghost var names0, origins0 := tracked.disk.names, tracked.origins;
      assert files[0..] == files;
      for i := 0 to |files|
        invariant tracked.Valid() && tracked.files == files
        invariant test ==> tracked.disk.names == names0 && tracked.origins == origins0
        invariant test ==>
          && PreviewSpec(files, filemap, formatter).0 == PreviewSpec(files[i..], filemap, formatter).0
          && PreviewSpec(files, filemap, formatter).1 == printed + PreviewSpec(files[i..], filemap, formatter).1
        invariant !test ==>
          && printed == []
          && RenameFilesSpec(files, filemap, formatter, names0, origins0) ==
             RenameFilesSpec(files[i..], filemap, formatter, tracked.disk.names, tracked.origins)
      {
        assert files[i..][1..] == files[i + 1..];
        var fname := files[i];
        if fname !in filemap {
          assert PreviewSpec(files[i..], filemap, formatter) == (Raised(KeyError), []);
          assert printed + [] == printed;
          return Raised(KeyError), printed;
        }
        var ep := filemap[fname];
        if ep.Some? {
          var newname := Target(fname, ep.value, formatter);
          if !test {
            o := tracked.Rename(fname, newname);
            if o.Raised? {
              return o, printed;
            }
          } else {
            printed := printed + [newname];
          }
        }
      }
      assert files[|files|..] == [];
      assert PreviewSpec([], filemap, formatter) == (Done, []);
      assert printed + [] == printed;
      return Done, printed;
    }
  }

  /**
   * Scrape(media, tvdbid=..., confidence=...): the file set first (its
   * AssertionError escapes), every file mapped to None and no series; the
   * series name stays None when an id is given, and otherwise is what
   * _guess_series_name finds, whose IndexError or KeyError escapes.
   */
  method NewScrape(found: seq<string>, isVideo: string -> bool, isFile: string -> bool, disk: Disk,
                   formatter: Entry -> string, id: Option<int>,
                   fromFilename: seq<Guess>, fromMetadata: seq<Guess>, floor: real) returns (r: Result<Scrape>)
    ensures var guess := GuessSeriesNameSpec(fromFilename, fromMetadata, floor);
      var reachable := exists f :: f in found && isVideo(f) && isFile(f);
      && (!reachable ==> r == Err(AssertionError))
      && (reachable && id.None? && guess.Err? ==> r == Err(guess.error))
      && (r.Ok? <==> reachable && (id.Some? || guess.Ok?))
      && (r.Ok? ==>
            && fresh(r.value) && fresh(r.value.tracked)
            && r.value.tracked.Valid() && r.value.tracked.disk == disk
            && Sorted(r.value.tracked.files)
            && (forall f :: f in r.value.tracked.files <==> f in found && isVideo(f))
            && r.value.tracked.origins.keys == r.value.tracked.files
            && (forall f :: f in r.value.tracked.origins.items ==> r.value.tracked.origins.items[f] == None)
            && r.value.formatter == formatter && r.value.id == id && r.value.series == None
            && (forall f :: f in r.value.filemap <==> f in r.value.tracked.files)
            && (forall f :: f in r.value.filemap ==> r.value.filemap[f] == None)
            && r.value.normalizedSeriesName == (if id.Some? then None else guess.value))
  {
    var fs := Open(found, isVideo, isFile, disk);
    if fs.Err? {
      return Err(fs.error);
    }
    var name: Option<string> := None;
    if id.None? {
      var guess := GuessSeriesName(fromFilename, fromMetadata, floor);
      if guess.Err? {
        return Err(guess.error);
      }
      name := guess.value;
    }
    var scrape := new Scrape(fs.value, formatter, id, name);
    return Ok(scrape);
  }
}
