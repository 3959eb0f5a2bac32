/**
 * QueryGrabber of scrappy/core.py: choosing one show among the search
 * results. The per-show similarity bucket (comp_fn against the guessed
 * name, rounded) and the rating figures fetched for a show are parameters.
 */
module CoreQuery {
  import opened Wrappers

  /** A search result: the fields selectSeries reads. */
  datatype Show = Show(id: int, seriesName: string, language: string)

  /** The rating figures of a show's record. */
  datatype Stats = Stats(rating: real, ratingCount: int)

  predicate Speaks(show: Show, lang: Option<string>)
  {
    lang.None? || show.language == lang.value
  }

  /** language_filter: the shows in the parent's language, or all of them when it is None. */
  function LanguageFilter(all: seq<Show>, lang: Option<string>): (r: seq<Show>)
    ensures forall s :: s in r <==> s in all && Speaks(s, lang)
    ensures |r| <= |all|
  {
    if all == [] then []
    else
      var rest := LanguageFilter(all[1..], lang);
      assert forall s :: s in all <==> s == all[0] || s in all[1..];
      if Speaks(all[0], lang) then [all[0]] + rest else rest
  }

  /** The filter keeps the shows' order: filtering a concatenation concatenates the filtered parts. */
  lemma {:induction false} LanguageFilterKeepsOrder(a: seq<Show>, b: seq<Show>, lang: Option<string>)
    ensures LanguageFilter(a + b, lang) == LanguageFilter(a, lang) + LanguageFilter(b, lang)
  {
    if a != [] {
      var ab := a + b;
      assert ab[0] == a[0];
      assert ab[1..] == a[1..] + b;
      LanguageFilterKeepsOrder(a[1..], b, lang);
      var rest := LanguageFilter(a[1..], lang);
      if Speaks(a[0], lang) {
        assert LanguageFilter(ab, lang) == [a[0]] + LanguageFilter(ab[1..], lang);
        assert LanguageFilter(a, lang) == [a[0]] + rest;
        ShowsRegroup(a[0], rest, LanguageFilter(b, lang));
      } else {
        assert LanguageFilter(ab, lang) == LanguageFilter(ab[1..], lang);
        assert LanguageFilter(a, lang) == rest;
      }
    } else {
      assert a + b == b;
    }
  }

  lemma {:induction false} ShowsRegroup(x: Show, r: seq<Show>, t: seq<Show>)
    ensures [x] + (r + t) == [x] + r + t
  {
  }

  /** Without a language every show is kept. */
  lemma {:induction false} LanguageFilterNone(all: seq<Show>)
    ensures LanguageFilter(all, None) == all
  {
    if all != [] {
      LanguageFilterNone(all[1..]);
    }
  }

  /**
   * _popularity: 1 - rating / ratingcount, or 0.0 when that is not
   * positive; ZeroDivisionError for a show nobody rated.
   */
  function Popularity(st: Stats): (r: Result<real>)
    ensures r.Err? <==> st.ratingCount == 0
    ensures r.Err? ==> r.error == ZeroDivisionError
    ensures r.Ok? ==> r.value >= 0.0
    ensures r.Ok? ==> (r.value == 0.0 <==> st.rating / st.ratingCount as real >= 1.0)
    ensures r.Ok? && r.value > 0.0 ==> r.value + st.rating / st.ratingCount as real == 1.0
  {
    if st.ratingCount == 0 then Err(ZeroDivisionError)
    else
      var score := 1.0 - st.rating / st.ratingCount as real;
      Ok(if score > 0.0 then score else 0.0)
  }

  /** _pop_contest: the second show only when the first is strictly more popular. */
  function PopContest(s1: (Show, real), s2: (Show, real)): (r: (Show, real))
    ensures r == s1 || r == s2
    ensures r.1 <= s1.1 && r.1 <= s2.1
  {
    if s1.1 > s2.1 then s2 else s1
  }

  /** reduce(_pop_contest, [first] + rest) */
  function Contest(first: (Show, real), rest: seq<(Show, real)>): (Show, real)
    decreases rest
  {
    if rest == [] then first else Contest(PopContest(first, rest[0]), rest[1..])
  }

  /** xs[k] is the least popular entry of xs, and no entry before it is as unpopular. */
  predicate FirstLeast(xs: seq<(Show, real)>, k: nat)
    requires k < |xs|
  {
    && (forall j :: 0 <= j < |xs| ==> xs[k].1 <= xs[j].1)
    && (forall j :: 0 <= j < k ==> xs[k].1 < xs[j].1)
  }

  /** The reduce keeps the least popular show, and the earliest one among equals. */
  lemma {:induction false} ContestPicksFirstLeastPopular(xs: seq<(Show, real)>)
    requires xs != []
    decreases |xs|
    ensures exists k :: 0 <= k < |xs| && Contest(xs[0], xs[1..]) == xs[k] && FirstLeast(xs, k)
  {
    if |xs| > 1 {
      var acc := PopContest(xs[0], xs[1]);
      var ys := [acc] + xs[2..];
      ContestPicksFirstLeastPopular(ys);
      assert ys[1..] == xs[2..];
      var r := Contest(xs[0], xs[1..]);
      assert r == Contest(ys[0], ys[1..]);
      var k :| 0 <= k < |ys| && r == ys[k] && FirstLeast(ys, k);
      var m := if k > 0 then k + 1 else if acc == xs[0] then 0 else 1;
      assert r == xs[m];
      assert r.1 <= acc.1 <= xs[0].1 && acc.1 <= xs[1].1;
      assert m == 1 ==> xs[0].1 > xs[1].1;
      assert m > 1 ==> r.1 < acc.1;
      forall j | 0 <= j < |xs| ensures r.1 <= xs[j].1 {
        if j >= 2 {
          assert xs[j] == ys[j - 1];
        }
      }
      forall j | 0 <= j < m ensures r.1 < xs[j].1 {
        if j >= 2 {
          assert xs[j] == ys[j - 1];
        }
      }
      assert FirstLeast(xs, m);
    } else {
      assert xs[1..] == [];
      assert FirstLeast(xs, 0);
    }
  }

  /** The shows whose bucket is the given value, in order. */
  function InBucket(all: seq<Show>, bucket: Show -> int, value: int): (r: seq<Show>)
    ensures forall s :: s in r <==> s in all && bucket(s) == value
  {
    if all == [] then []
    else
      var rest := InBucket(all[1..], bucket, value);
      assert forall s :: s in all <==> s == all[0] || s in all[1..];
      if bucket(all[0]) == value then [all[0]] + rest else rest
  }

  /** max(set(match)), ValueError for no shows. */
  function HighestBucket(all: seq<Show>, bucket: Show -> int): (r: Result<int>)
    ensures r.Err? <==> all == []
    ensures r.Ok? ==> (exists s :: s in all && bucket(s) == r.value) && forall s :: s in all ==> bucket(s) <= r.value
  {
    if all == [] then Err(ValueError)
    else
      var rest := HighestBucket(all[1..], bucket);
      assert forall s :: s in all <==> s == all[0] || s in all[1..];
      if rest.Err? || bucket(all[0]) >= rest.value then Ok(bucket(all[0])) else rest
  }

  /** min(set(match)), ValueError for no shows. */
  function LowestBucket(all: seq<Show>, bucket: Show -> int): (r: Result<int>)
    ensures r.Err? <==> all == []
    ensures r.Ok? ==> (exists s :: s in all && bucket(s) == r.value) && forall s :: s in all ==> bucket(s) >= r.value
  {
    if all == [] then Err(ValueError)
    else
      var rest := LowestBucket(all[1..], bucket);
      assert forall s :: s in all <==> s == all[0] || s in all[1..];
      if rest.Err? || bucket(all[0]) <= rest.value then Ok(bucket(all[0])) else rest
  }

  /** zip(shows, map(self._popularity, shows)): every popularity is computed first, the first error is raised. */
  function Popularities(shows: seq<Show>, stats: Show -> Stats): (r: Result<seq<(Show, real)>>)
    ensures r.Ok? <==> forall i :: 0 <= i < |shows| ==> stats(shows[i]).ratingCount != 0
    ensures r.Err? ==> r.error == ZeroDivisionError
    ensures r.Ok? ==>
      && |r.value| == |shows|
      && forall i :: 0 <= i < |shows| ==> r.value[i] == (shows[i], Popularity(stats(shows[i])).value)
  {
    if shows == [] then Ok([])
    else
      var p := Popularity(stats(shows[0]));
      var rest := Popularities(shows[1..], stats);
      if p.Err? then Err(p.error)
      else if rest.Err? then Err(rest.error)
      else Ok([(shows[0], p.value)] + rest.value)
  }

  /** The shows of the chosen bucket: one is returned directly, several go to the popularity contest. */
  function Decide(highmatch: seq<Show>, stats: Show -> Stats): (r: Result<Show>)
    requires highmatch != []
    ensures r.Err? ==> r.error == ZeroDivisionError
  {
    if |highmatch| == 1 then Ok(highmatch[0])
    else
      var pops := Popularities(highmatch, stats);
      if pops.Err? then Err(pops.error) else Ok(Contest(pops.value[0], pops.value[1..]).0)
  }

  /** popularity_filter as written: it keeps the shows of the HIGHEST bucket. */
  function PopularityFilter(all: seq<Show>, bucket: Show -> int, stats: Show -> Stats): Result<Show>
  {
    var high := HighestBucket(all, bucket);
    if high.Err? then Err(high.error)
    else
      var highmatch := InBucket(all, bucket, high.value);
      assert exists s :: s in all && bucket(s) == high.value;
      Decide(highmatch, stats)
  }

  /** popularity_filter as its comparison function means it: the bucket of the smallest difference. */
  function PopularityFilterClosest(all: seq<Show>, bucket: Show -> int, stats: Show -> Stats): Result<Show>
  {
    var low := LowestBucket(all, bucket);
    if low.Err? then Err(low.error)
    else
      var lowmatch := InBucket(all, bucket, low.value);
      assert exists s :: s in all && bucket(s) == low.value;
      Decide(lowmatch, stats)
  }

  /** Decide returns one of the shows of the bucket, the least popular one when there are several, or the ZeroDivisionError of an unrated one. */
  lemma {:induction false} DecideOutcome(highmatch: seq<Show>, stats: Show -> Stats)
    requires highmatch != []
    ensures Decide(highmatch, stats).Ok? ==> Decide(highmatch, stats).value in highmatch
    ensures |highmatch| == 1 ==> Decide(highmatch, stats) == Ok(highmatch[0])
    ensures |highmatch| > 1 ==>
      (Decide(highmatch, stats).Err? <==> exists s :: s in highmatch && stats(s).ratingCount == 0)
    ensures |highmatch| > 1 && Decide(highmatch, stats).Ok? ==>
      var w := Decide(highmatch, stats).value;
      forall s :: s in highmatch ==> Popularity(stats(w)).value <= Popularity(stats(s)).value
  {
    if |highmatch| > 1 {
      var pops := Popularities(highmatch, stats);
      if pops.Ok? {
        ContestPicksFirstLeastPopular(pops.value);
        var r := Contest(pops.value[0], pops.value[1..]);
        var k :| 0 <= k < |pops.value| && r == pops.value[k] && FirstLeast(pops.value, k);
        assert r.0 == highmatch[k];
      } else {
        var i :| 0 <= i < |highmatch| && stats(highmatch[i]).ratingCount == 0;
        assert highmatch[i] in highmatch;
      }
    }
  }

  /**
   * popularity_filter: ValueError without shows; otherwise a show of the
   * highest bucket, the least popular of that bucket when there are several.
   */
  lemma {:induction false} PopularityFilterOutcome(all: seq<Show>, bucket: Show -> int, stats: Show -> Stats)
    ensures PopularityFilter(all, bucket, stats) == Err(ValueError) <==> all == []
    ensures PopularityFilter(all, bucket, stats).Ok? ==>
      var w := PopularityFilter(all, bucket, stats).value;
      w in all && forall s :: s in all ==> bucket(s) <= bucket(w)
  {
    var high := HighestBucket(all, bucket);
    if high.Ok? {
      var highmatch := InBucket(all, bucket, high.value);
      var s :| s in all && bucket(s) == high.value;
      assert s in highmatch;
      DecideOutcome(highmatch, stats);
    }
  }

  /** The corrected filter returns a show of the closest bucket. */
  lemma {:induction false} PopularityFilterClosestOutcome(all: seq<Show>, bucket: Show -> int, stats: Show -> Stats)
    ensures PopularityFilterClosest(all, bucket, stats) == Err(ValueError) <==> all == []
    ensures PopularityFilterClosest(all, bucket, stats).Ok? ==>
      var w := PopularityFilterClosest(all, bucket, stats).value;
      w in all && forall s :: s in all ==> bucket(w) <= bucket(s)
  {
    var low := LowestBucket(all, bucket);
    if low.Ok? {
      var lowmatch := InBucket(all, bucket, low.value);
      var s :| s in all && bucket(s) == low.value;
      assert s in lowmatch;
      DecideOutcome(lowmatch, stats);
    }
  }

  /** An exact match (difference bucket 0) loses to a show whose name differs completely (bucket 200). */
  lemma {:induction false} PopularityFilterPrefersWorstMatch()
    ensures var exact := Show(1, "foo", "en");
      var other := Show(2, "bar", "en");
      var bucket := (s: Show) => if s == exact then 0 else 200;
      var stats := (s: Show) => Stats(5.0, 10);
      && PopularityFilter([exact, other], bucket, stats) == Ok(other)
      && PopularityFilterClosest([exact, other], bucket, stats) == Ok(exact)
  {
    var exact := Show(1, "foo", "en");
    var other := Show(2, "bar", "en");
    var bucket := (s: Show) => if s == exact then 0 else 200;
    var stats := (s: Show) => Stats(5.0, 10);
    assert [exact, other][1..] == [other];
    assert [other][1..] == [];
    assert bucket(exact) == 0 && bucket(other) == 200;
    assert InBucket([other], bucket, 200) == [other];
    assert InBucket([other], bucket, 0) == [];
    assert HighestBucket([exact, other], bucket) == Ok(200);
    assert InBucket([exact, other], bucket, 200) == [other];
    assert LowestBucket([exact, other], bucket) == Ok(0);
    assert InBucket([exact, other], bucket, 0) == [exact];
  }

  /** selectSeries: the language filter, then a lone show directly, else popularity_filter. */
  function SelectSeries(all: seq<Show>, lang: Option<string>, bucket: Show -> int, stats: Show -> Stats): Result<Show>
  {
    var shows := LanguageFilter(all, lang);
    if |shows| == 1 then Ok(shows[0]) else PopularityFilter(shows, bucket, stats)
  }

  /**
   * selectSeries returns a show in the requested language (any language
   * for None), a lone such show directly, and raises ValueError when no
   * show speaks it.
   */
  lemma {:induction false} SelectSeriesOutcome(all: seq<Show>, lang: Option<string>, bucket: Show -> int, stats: Show -> Stats)
    ensures SelectSeries(all, lang, bucket, stats).Ok? ==>
      var w := SelectSeries(all, lang, bucket, stats).value;
      w in all && Speaks(w, lang)
    ensures SelectSeries(all, lang, bucket, stats) == Err(ValueError) <==> forall s :: s in all ==> !Speaks(s, lang)
    ensures |LanguageFilter(all, lang)| == 1 ==> SelectSeries(all, lang, bucket, stats) == Ok(LanguageFilter(all, lang)[0])
  {
    var shows := LanguageFilter(all, lang);
    PopularityFilterOutcome(shows, bucket, stats);
    if shows != [] {
      assert shows[0] in shows;
    }
  }
}
