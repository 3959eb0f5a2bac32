/**
 * The per-file guesses and the tallies every revision of the series-name
 * vote keeps: for each normalized series name, how many guesses carry it
 * and the highest confidence seen for it (starting from 0.0), and the
 * score count * highest confidence.
 */
module Votes {
  import opened Wrappers
  import opened Sorting
  import opened Strings

  /** What the filename guesser reports for one file; `confidence` is its confidence in the series name. */
  datatype Guess = Guess(series: Option<string>, confidence: real, season: Option<int>, episode: Option<int>)

  /** One vote in the tally: a guess's normalized series name and its confidence. */
  datatype Vote = Vote(name: string, confidence: real)

  function Key(v: Vote): string
  {
    v.name
  }

  function Init<T>(s: seq<T>): seq<T>
    requires s != []
  {
    s[..|s| - 1]
  }

  function Last<T>(s: seq<T>): T
    requires s != []
  {
    s[|s| - 1]
  }

  /** The guesser applied to every file, in order. */
  function GuessesOf(files: seq<string>, guessOf: string -> Guess): (gs: seq<Guess>)
    ensures |gs| == |files| && forall i :: 0 <= i < |files| ==> gs[i] == guessOf(files[i])
  {
    seq(|files|, i requires 0 <= i < |files| => guessOf(files[i]))
  }

  /** Guesses that carry a series name, in order (_guess_from_filename's filter). */
  function WithSeries(gs: seq<Guess>): (r: seq<Guess>)
    ensures forall i :: 0 <= i < |r| ==> r[i].series.Some?
    ensures forall i :: 0 <= i < |gs| && gs[i].series.Some? ==> gs[i] in r
    ensures forall g :: g in r ==> g in gs
  {
    if gs == [] then []
    else
      var p := WithSeries(Init(gs));
      assert forall i :: 0 <= i < |gs| - 1 ==> gs[i] == Init(gs)[i];
      if Last(gs).series.Some? then p + [Last(gs)] else p
  }

  predicate AllNamed(gs: seq<Guess>)
  {
    forall i :: 0 <= i < |gs| ==> gs[i].series.Some?
  }

  /** The votes the tally loop casts: each guess's normalized series name and confidence. */
  function ToVotes(gs: seq<Guess>): (r: seq<Vote>)
    requires AllNamed(gs)
    ensures |r| == |gs|
  {
    if gs == [] then [] else ToVotes(Init(gs)) + [Vote(Normalize(Last(gs).series.value), Last(gs).confidence)]
  }

  lemma {:induction false} ToVotesSnoc(gs: seq<Guess>, i: nat)
    requires i < |gs| && AllNamed(gs[..i]) && gs[i].series.Some?
    ensures AllNamed(gs[..i + 1])
    ensures ToVotes(gs[..i + 1]) == ToVotes(gs[..i]) + [Vote(Normalize(gs[i].series.value), gs[i].confidence)]
  {
    assert Init(gs[..i + 1]) == gs[..i] && Last(gs[..i + 1]) == gs[i];
  }

  lemma {:induction false} ToVotesNormalized(gs: seq<Guess>)
    requires AllNamed(gs)
    ensures forall i :: 0 <= i < |gs| ==> ToVotes(gs)[i].name == Normalize(gs[i].series.value)
    ensures forall i :: 0 <= i < |gs| ==> Normalize(ToVotes(gs)[i].name) == ToVotes(gs)[i].name
  {
    if gs != [] {
      ToVotesNormalized(Init(gs));
      forall i | 0 <= i < |gs|
        ensures ToVotes(gs)[i].name == Normalize(gs[i].series.value)
        ensures Normalize(ToVotes(gs)[i].name) == ToVotes(gs)[i].name
      {
        if i < |gs| - 1 {
          assert gs[i] == Init(gs)[i];
        }
        NormalizeIdempotent(gs[i].series.value);
      }
    }
  }

  /** The name of each vote over the guesses carrying a series is the normalized series of one of the guesses. */
  lemma {:induction false} VoteNameIsGuessed(gs: seq<Guess>, j: nat)
    requires j < |WithSeries(gs)|
    ensures exists i :: 0 <= i < |gs| && gs[i].series.Some? && Normalize(gs[i].series.value) == ToVotes(WithSeries(gs))[j].name
  {
    var named := WithSeries(gs);
    ToVotesNormalized(named);
    assert named[j] in gs;
    var i :| 0 <= i < |gs| && gs[i] == named[j];
    assert Normalize(gs[i].series.value) == ToVotes(named)[j].name;
  }

  /** The distinct normalized names, in order of first appearance (the order the tally dictionaries are built in). */
  function Names(gs: seq<Vote>): (r: seq<string>)
    ensures NoDuplicates(r)
    ensures forall i :: 0 <= i < |gs| ==> Key(gs[i]) in r
  {
    if gs == [] then []
    else
      var p := Names(Init(gs));
      var n := Key(Last(gs));
      assert forall i :: 0 <= i < |gs| - 1 ==> gs[i] == Init(gs)[i];
      if n in p then p else p + [n]
  }

  /** How many guesses carry normalized name n. */
  function Count(gs: seq<Vote>, n: string): nat
  {
    if gs == [] then 0 else Count(Init(gs), n) + (if Key(Last(gs)) == n then 1 else 0)
  }

  /** The highest confidence among the guesses for n, and 0.0 when there is none higher. */
  function HighConf(gs: seq<Vote>, n: string): real
  {
    if gs == [] then 0.0
    else
      var h := HighConf(Init(gs), n);
      if Key(Last(gs)) == n && Last(gs).confidence > h then Last(gs).confidence else h
  }

  function Score(gs: seq<Vote>, n: string): real
  {
    HighConf(gs, n) * Count(gs, n) as real
  }

  /** Every name is the name of some vote, so names of normalized votes are normalized. */
  lemma {:induction false} NamesAreVoteNames(gs: seq<Vote>)
    ensures forall n :: n in Names(gs) ==> exists i :: 0 <= i < |gs| && gs[i].name == n
  {
    if gs != [] {
      NamesAreVoteNames(Init(gs));
      forall n | n in Names(gs) ensures exists i :: 0 <= i < |gs| && gs[i].name == n {
        if n in Names(Init(gs)) {
          var i :| 0 <= i < |Init(gs)| && Init(gs)[i].name == n;
          assert gs[i].name == n;
        } else {
          assert gs[|gs| - 1].name == n;
        }
      }
    }
  }

  /** There is a name exactly when there is a vote. */
  lemma {:induction false} NamesEmpty(gs: seq<Vote>)
    ensures Names(gs) == [] <==> gs == []
  {
    if gs != [] {
      assert Key(gs[0]) in Names(gs);
    }
  }

  /** A name no guess carries is counted 0 times with confidence 0.0. */
  lemma {:induction false} UnnamedNotCounted(gs: seq<Vote>, n: string)
    requires n !in Names(gs)
    ensures Count(gs, n) == 0 && HighConf(gs, n) == 0.0
  {
    if gs != [] {
      UnnamedNotCounted(Init(gs), n);
    }
  }

  /** One more guess: the tallies of the names it does not carry do not move. */
  lemma {:induction false} TalliesOfOthers(gs: seq<Vote>, g: Vote, n: string)
    requires Key(g) != n
    ensures Count(gs + [g], n) == Count(gs, n) && HighConf(gs + [g], n) == HighConf(gs, n)
  {
    assert Init(gs + [g]) == gs;
  }

  /** One more guess: its own name is counted once more and its confidence may raise the maximum. */
  lemma {:induction false} TallyOfOwn(gs: seq<Vote>, g: Vote)
    ensures Count(gs + [g], Key(g)) == Count(gs, Key(g)) + 1
    ensures HighConf(gs + [g], Key(g)) ==
      if g.confidence > HighConf(gs, Key(g)) then g.confidence else HighConf(gs, Key(g))
    ensures Names(gs + [g]) == if Key(g) in Names(gs) then Names(gs) else Names(gs) + [Key(g)]
  {
    assert Init(gs + [g]) == gs;
  }

  /** The tally dictionaries hold, for exactly the names in order, their count and highest confidence. */
  ghost predicate Tallied(normalCount: map<string, int>, highConf: map<string, real>, order: seq<string>, votes: seq<Vote>)
  {
    && order == Names(votes)
    && (forall n :: n in normalCount <==> n in order)
    && (forall n :: n in highConf <==> n in order)
    && (forall n :: n in order ==> normalCount[n] == Count(votes, n) && highConf[n] == HighConf(votes, n))
  }

  /** One turn of the tally loop: a missing name starts at 0 and 0.0, is counted once more, and its highest confidence is kept. */
  lemma {:induction false} TallyStep(normalCount: map<string, int>, highConf: map<string, real>, order: seq<string>, votes: seq<Vote>, v: Vote,
                  normalCount': map<string, int>, highConf': map<string, real>, order': seq<string>)
    requires Tallied(normalCount, highConf, order, votes)
    requires order' == if v.name in normalCount then order else order + [v.name]
    requires normalCount' == normalCount[v.name := (if v.name in normalCount then normalCount[v.name] else 0) + 1]
    requires var h := if v.name in highConf then highConf[v.name] else 0.0;
      highConf' == highConf[v.name := if v.confidence > h then v.confidence else h]
    ensures Tallied(normalCount', highConf', order', votes + [v])
  {
    var votes' := votes + [v];
    assert order' == Names(votes') by { TallyOfOwn(votes, v); }
    assert forall n :: n in normalCount' <==> n in order';
    assert forall n :: n in highConf' <==> n in order';
    forall n | n in order'
      ensures normalCount'[n] == Count(votes', n) && highConf'[n] == HighConf(votes', n)
    {
      if n == v.name {
        TallyOfOwn(votes, v);
        if v.name !in normalCount {
          UnnamedNotCounted(votes, v.name);
        }
      } else {
        TalliesOfOthers(votes, v, n);
        assert n in order;
      }
    }
  }

  /**
   * One turn of the tally loop on the two dictionaries: a name not yet
   * seen starts at 0 and 0.0 (the defaultdicts of scrappy/core.py, the
   * else branch in scrappy/scrape.py) and joins the order of first
   * appearance; it is counted once more and its highest confidence kept.
   */
  method TallyVote(normalCount: map<string, int>, highConf: map<string, real>, order: seq<string>, ghost votes: seq<Vote>, v: Vote)
    returns (normalCount': map<string, int>, highConf': map<string, real>, order': seq<string>)
    requires Tallied(normalCount, highConf, order, votes)
    ensures Tallied(normalCount', highConf', order', votes + [v])
  {
    var count := if v.name in normalCount then normalCount[v.name] else 0;
    var high := if v.name in highConf then highConf[v.name] else 0.0;
    order' := if v.name in normalCount then order else order + [v.name];
    normalCount' := normalCount[v.name := count + 1];
    highConf' := highConf[v.name := if v.confidence > high then v.confidence else high];
    TallyStep(normalCount, highConf, order, votes, v, normalCount', highConf', order');
  }

  /**
   * The dictionary score -> name built by iterating the names in order,
   * a later name with an equal score replacing an earlier one
   * (`ranked` in scrappy/core.py).
   */
  function Ranked(names: seq<string>, gs: seq<Vote>): map<real, string>
  {
    if names == [] then map[] else Ranked(Init(names), gs)[Score(gs, Last(names)) := Last(names)]
  }

  lemma {:induction false} RankedSnoc(names: seq<string>, k: nat, gs: seq<Vote>)
    requires k < |names|
    ensures Ranked(names[..k + 1], gs) == Ranked(names[..k], gs)[Score(gs, names[k]) := names[k]]
  {
    assert Init(names[..k + 1]) == names[..k];
  }

  /** The score the tally dictionaries give a name is its Score. */
  lemma {:induction false} TalliedScore(normalCount: map<string, int>, highConf: map<string, real>, order: seq<string>, votes: seq<Vote>, n: string)
    requires Tallied(normalCount, highConf, order, votes) && n in order
    ensures n in normalCount && n in highConf && highConf[n] * normalCount[n] as real == Score(votes, n)
  {
  }

  /** The highest score among the names. */
  function MaxScore(names: seq<string>, gs: seq<Vote>): (m: real)
    requires names != []
    ensures forall i :: 0 <= i < |names| ==> Score(gs, names[i]) <= m
  {
    if |names| == 1 then Score(gs, names[0])
    else
      var p := MaxScore(Init(names), gs);
      var s := Score(gs, Last(names));
      assert forall i :: 0 <= i < |names| - 1 ==> names[i] == Init(names)[i];
      if s > p then s else p
  }

  /** Every key of Ranked is the score of the name it maps to, that name is one of the names, and no key exceeds MaxScore. */
  lemma {:induction false} RankedEntries(names: seq<string>, gs: seq<Vote>)
    ensures forall x :: x in Ranked(names, gs) ==> Ranked(names, gs)[x] in names && Score(gs, Ranked(names, gs)[x]) == x
    ensures names != [] ==> MaxScore(names, gs) in Ranked(names, gs)
    ensures names != [] ==> forall x :: x in Ranked(names, gs) ==> x <= MaxScore(names, gs)
  {
    if names != [] {
      var p := Init(names);
      RankedEntries(p, gs);
      assert names == p + [Last(names)];
    }
  }

  /** The name Ranked keeps for the highest score: a name whose score no name exceeds. */
  lemma {:induction false} RankedTopIsBest(names: seq<string>, gs: seq<Vote>)
    requires names != []
    ensures MaxScore(names, gs) in Ranked(names, gs)
    ensures var top := Ranked(names, gs)[MaxScore(names, gs)];
      top in names && forall n :: n in names ==> Score(gs, n) <= Score(gs, top)
  {
    RankedEntries(names, gs);
  }

  /**
   * The loop of scrappy.py: best starts as None and old score 0.0, and a
   * name with a score above the old score becomes best; the old score is
   * never raised (the assignment goes to a misspelled variable).
   */
  function LastPositive(names: seq<string>, gs: seq<Vote>): Option<string>
  {
    if names == [] then None
    else if Score(gs, Last(names)) > 0.0 then Some(Last(names))
    else LastPositive(Init(names), gs)
  }

  /** One more name: it is picked when its score is positive. */
  lemma {:induction false} LastPositiveSnoc(names: seq<string>, k: nat, gs: seq<Vote>)
    requires k < |names|
    ensures LastPositive(names[..k + 1], gs) == if Score(gs, names[k]) > 0.0 then Some(names[k]) else LastPositive(names[..k], gs)
  {
    assert Init(names[..k + 1]) == names[..k] && Last(names[..k + 1]) == names[k];
  }

  /** The loop of scrappy/scrape.py: like LastPositive, but the old score follows the best. */
  function FirstBest(names: seq<string>, gs: seq<Vote>): (Option<string>, real)
  {
    if names == [] then (None, 0.0)
    else
      var (best, prev) := FirstBest(Init(names), gs);
      var s := Score(gs, Last(names));
      if s > prev then (Some(Last(names)), s) else (best, prev)
  }

  /** One more name: it becomes the best when its score beats the best score so far. */
  lemma {:induction false} FirstBestSnoc(names: seq<string>, k: nat, gs: seq<Vote>)
    requires k < |names|
    ensures var (best, prev) := FirstBest(names[..k], gs);
      var s := Score(gs, names[k]);
      FirstBest(names[..k + 1], gs) == if s > prev then (Some(names[k]), s) else (best, prev)
  {
    assert Init(names[..k + 1]) == names[..k] && Last(names[..k + 1]) == names[k];
  }

  /** LastPositive picks a name with a positive score after which every name scores 0 or less; None when no score is positive. */
  lemma {:induction false} LastPositiveIsLast(names: seq<string>, gs: seq<Vote>)
    ensures LastPositive(names, gs).None? <==> forall i :: 0 <= i < |names| ==> Score(gs, names[i]) <= 0.0
    ensures LastPositive(names, gs).Some? ==>
      exists i :: 0 <= i < |names| && names[i] == LastPositive(names, gs).value && Score(gs, names[i]) > 0.0 &&
        forall j :: i < j < |names| ==> Score(gs, names[j]) <= 0.0
  {
    if names != [] {
      var p := Init(names);
      LastPositiveIsLast(p, gs);
      assert forall i :: 0 <= i < |p| ==> names[i] == p[i];
      if Score(gs, Last(names)) > 0.0 {
        var i := |names| - 1;
        assert names[i] == Last(names) == LastPositive(names, gs).value;
      } else {
        assert LastPositive(names, gs) == LastPositive(p, gs);
        if LastPositive(p, gs).Some? {
          var i :| 0 <= i < |p| && p[i] == LastPositive(p, gs).value && Score(gs, p[i]) > 0.0 &&
            forall j :: i < j < |p| ==> Score(gs, p[j]) <= 0.0;
          assert names[i] == p[i];
          forall j | i < j < |names| ensures Score(gs, names[j]) <= 0.0 {
            if j < |p| {
              assert names[j] == p[j];
            }
          }
        }
      }
    }
  }

  /**
   * Over the names of the votes themselves: None exactly when no vote's
   * name scores above 0.0, and otherwise a vote's name with a positive score.
   */
  lemma {:induction false} VotedLastPositive(votes: seq<Vote>)
    ensures var r := LastPositive(Names(votes), votes);
      && (r.None? <==> forall i :: 0 <= i < |votes| ==> Score(votes, votes[i].name) <= 0.0)
      && (r.Some? ==> Score(votes, r.value) > 0.0 && exists i :: 0 <= i < |votes| && votes[i].name == r.value)
  {
    var names := Names(votes);
    var r := LastPositive(names, votes);
    assert forall i :: 0 <= i < |votes| ==> votes[i].name in names by {
      forall i | 0 <= i < |votes| ensures votes[i].name in names {
        assert Key(votes[i]) in names;
      }
    }
    LastPositiveIsLast(names, votes);
    if r.Some? {
      var k :| 0 <= k < |names| && names[k] == r.value && Score(votes, names[k]) > 0.0;
      assert r.value in names;
      assert exists i :: 0 <= i < |votes| && votes[i].name == r.value by { NamesAreVoteNames(votes); }
    } else {
      forall i | 0 <= i < |votes| ensures Score(votes, votes[i].name) <= 0.0 {
        var k :| 0 <= k < |names| && names[k] == votes[i].name;
      }
    }
  }

  /**
   * FirstBest picks the first name with the highest score when that score
   * is positive, and None when no score is positive; the score it returns
   * is the best name's.
   */
  lemma {:induction false} FirstBestIsFirstMaximum(names: seq<string>, gs: seq<Vote>)
    ensures var (best, s) := FirstBest(names, gs);
      && (best.None? <==> forall i :: 0 <= i < |names| ==> Score(gs, names[i]) <= 0.0)
      && (best.None? ==> s == 0.0)
      && (best.Some? ==>
            && s == Score(gs, best.value) && s > 0.0
            && exists i :: 0 <= i < |names| && names[i] == best.value &&
                 (forall j :: 0 <= j < |names| ==> Score(gs, names[j]) <= s) &&
                 (forall j :: 0 <= j < i ==> Score(gs, names[j]) < s))
  {
    if names != [] {
      var p := Init(names);
      FirstBestIsFirstMaximum(p, gs);
      assert forall i :: 0 <= i < |p| ==> names[i] == p[i];
      var (best, prev) := FirstBest(p, gs);
      var s := Score(gs, Last(names));
      assert prev >= 0.0 && forall j :: 0 <= j < |p| ==> Score(gs, p[j]) <= prev;
      if s > prev {
        var k := |names| - 1;
        assert names[k] == Last(names) && FirstBest(names, gs) == (Some(names[k]), s);
        forall j | 0 <= j < k ensures Score(gs, names[j]) < s {
          assert names[j] == p[j];
        }
        assert forall j :: 0 <= j < |names| ==> Score(gs, names[j]) <= s;
      } else {
        assert FirstBest(names, gs) == (best, prev);
        if best.Some? {
          var i :| 0 <= i < |p| && p[i] == best.value &&
            (forall j :: 0 <= j < |p| ==> Score(gs, p[j]) <= prev) &&
            (forall j :: 0 <= j < i ==> Score(gs, p[j]) < prev);
          assert names[i] == p[i];
          forall j | 0 <= j < |names| ensures Score(gs, names[j]) <= prev {
            if j < |p| {
              assert names[j] == p[j];
            }
          }
          forall j | 0 <= j < i ensures Score(gs, names[j]) < prev {
            assert names[j] == p[j];
          }
        } else {
          forall j | 0 <= j < |names| ensures Score(gs, names[j]) <= 0.0 {
            if j < |p| {
              assert names[j] == p[j];
            }
          }
        }
      }
    }
  }

  /**
   * Over the names of the votes themselves: FirstBest gives None exactly
   * when no vote's name scores above 0.0, and otherwise a vote's name whose
   * score no vote's name exceeds, with every name before it in tally order
   * scoring strictly less.
   */
  lemma {:induction false} VotedFirstBest(votes: seq<Vote>)
    ensures var names := Names(votes);
      var r := FirstBest(names, votes).0;
      && (r.None? <==> forall i :: 0 <= i < |votes| ==> Score(votes, votes[i].name) <= 0.0)
      && (r.Some? ==> exists i :: 0 <= i < |votes| && votes[i].name == r.value)
      && (r.Some? ==> forall i :: 0 <= i < |votes| ==> Score(votes, votes[i].name) <= Score(votes, r.value))
      && (r.Some? ==>
            exists k :: 0 <= k < |names| && names[k] == r.value && forall j :: 0 <= j < k ==> Score(votes, names[j]) < Score(votes, r.value))
  {
    var names := Names(votes);
    var (r, s) := FirstBest(names, votes);
    assert forall i :: 0 <= i < |votes| ==> votes[i].name in names by {
      forall i | 0 <= i < |votes| ensures votes[i].name in names {
        assert Key(votes[i]) in names;
      }
    }
    FirstBestIsFirstMaximum(names, votes);
    if r.Some? {
      assert r.value in names;
      assert exists i :: 0 <= i < |votes| && votes[i].name == r.value by { NamesAreVoteNames(votes); }
      forall i | 0 <= i < |votes| ensures Score(votes, votes[i].name) <= s {
        var k :| 0 <= k < |names| && names[k] == votes[i].name;
      }
    } else {
      forall i | 0 <= i < |votes| ensures Score(votes, votes[i].name) <= 0.0 {
        var k :| 0 <= k < |names| && names[k] == votes[i].name;
      }
    }
  }

  /** The name FirstBest picks over the votes' names is one of the votes' names. */
  lemma {:induction false} FirstBestIsVoted(votes: seq<Vote>)
    ensures var r := FirstBest(Names(votes), votes).0;
      r.Some? ==> exists i :: 0 <= i < |votes| && votes[i].name == r.value
  {
    var names := Names(votes);
    FirstBestIsFirstMaximum(names, votes);
    var r := FirstBest(names, votes).0;
    if r.Some? {
      var k :| 0 <= k < |names| && names[k] == r.value;
      NamesAreVoteNames(votes);
      assert r.value in names;
      var i :| 0 <= i < |votes| && votes[i].name == r.value;
    }
  }
}
