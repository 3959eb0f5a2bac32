/**
 * The search hits getTVDBid chooses from (scrappy.py and
 * scrappy/scrape.py): for each hit the text of its SeriesName and id
 * nodes, its normalized name compared with the wanted name, and the
 * dictionary from edit distance to hit that the multi-hit loop fills.
 */
module Hits {
  import opened Wrappers
  import opened Strings
  import opened EditDistance

  /** One Series node of the search result: the text of its SeriesName and id children. */
  datatype Hit = Hit(name: string, id: string)

  /** name.strip().lower() == seriesname: the wanted name itself is not normalized. */
  predicate Exact(h: Hit, wanted: string)
  {
    Normalize(h.name) == wanted
  }

  /** levenshteinDistance(normalized hit name, wanted), which normalizes both once more. */
  function Dist(h: Hit, wanted: string): nat
  {
    Distance(Normalize(h.name), Normalize(wanted))
  }

  /** Exactness as a function of the hit. */
  function ExactTo(wanted: string): Hit -> bool
  {
    h => Exact(h, wanted)
  }

  /** The index of the first hit that passes the test, if any. */
  function FirstExact(exact: Hit -> bool, hits: seq<Hit>): (r: Option<nat>)
    ensures r.Some? ==> r.value < |hits| && exact(hits[r.value]) && forall j :: 0 <= j < r.value ==> !exact(hits[j])
    ensures r.None? ==> forall j :: 0 <= j < |hits| ==> !exact(hits[j])
  {
    if hits == [] then None
    else if exact(hits[0]) then Some(0)
    else
      var r := FirstExact(exact, hits[1..]);
      if r.Some? then Some(r.value + 1) else None
  }

  /** The distance of each hit to the wanted name, as a function of the hit. */
  function DistTo(wanted: string): Hit -> nat
  {
    h => Dist(h, wanted)
  }

  /** levd_dict after the loop, for any distance: each hit stored under its distance, a later hit replacing an earlier one. */
  function LevdDict(dist: Hit -> nat, hits: seq<Hit>): (m: map<nat, Hit>)
    ensures forall i :: 0 <= i < |hits| ==> dist(hits[i]) in m
  {
    if hits == [] then map[]
    else
      var p := hits[..|hits| - 1];
      var h := hits[|hits| - 1];
      var m := LevdDict(dist, p);
      m[dist(h) := h]
  }

  /** The smallest distance of any hit. */
  function MinDistance(dist: Hit -> nat, hits: seq<Hit>): (d: nat)
    requires hits != []
    ensures exists i :: 0 <= i < |hits| && dist(hits[i]) == d
    ensures forall i :: 0 <= i < |hits| ==> d <= dist(hits[i])
  {
    if |hits| == 1 then dist(hits[0])
    else
      var d := MinDistance(dist, hits[1..]);
      if dist(hits[0]) <= d then dist(hits[0]) else d
  }

  /** levd_dict[min(levd_dict.keys())] */
  function Closest(dist: Hit -> nat, hits: seq<Hit>): Hit
    requires hits != []
  {
    LevdDict(dist, hits)[MinDistance(dist, hits)]
  }

  /** Stored under a distance is the last hit at that distance. */
  lemma {:induction false} LevdDictKeepsLast(dist: Hit -> nat, hits: seq<Hit>, d: nat)
    requires d in LevdDict(dist, hits)
    ensures exists k ::
      && 0 <= k < |hits| && hits[k] == LevdDict(dist, hits)[d] && dist(hits[k]) == d
      && forall j :: k < j < |hits| ==> dist(hits[j]) != d
  {
    var p := hits[..|hits| - 1];
    var h := hits[|hits| - 1];
    assert LevdDict(dist, hits) == LevdDict(dist, p)[dist(h) := h];
    if dist(h) != d {
      assert d in LevdDict(dist, p);
      LevdDictKeepsLast(dist, p, d);
      var k :|
        && 0 <= k < |p| && p[k] == LevdDict(dist, p)[d] && dist(p[k]) == d
        && forall j :: k < j < |p| ==> dist(p[j]) != d;
      assert hits[k] == p[k];
      forall j | k < j < |hits| ensures dist(hits[j]) != d {
        if j < |p| {
          assert hits[j] == p[j];
        }
      }
    } else {
      assert hits[|hits| - 1] == LevdDict(dist, hits)[d];
    }
  }

  /**
   * The multi-hit fallback takes a hit at the smallest distance, and of
   * the hits at that distance the last one.
   */
  lemma {:induction false} ClosestIsLastNearest(dist: Hit -> nat, hits: seq<Hit>)
    requires hits != []
    ensures exists k ::
      && 0 <= k < |hits| && hits[k] == Closest(dist, hits)
      && (forall j :: 0 <= j < |hits| ==> dist(hits[k]) <= dist(hits[j]))
      && forall j :: k < j < |hits| ==> dist(hits[j]) != dist(hits[k])
  {
    LevdDictKeepsLast(dist, hits, MinDistance(dist, hits));
  }

  /** levenshteinDistance(name.strip().lower(), wanted) for one hit. */
  method HitDistance(h: Hit, wanted: string) returns (d: nat)
    ensures d == DistTo(wanted)(h)
  {
    var sname := Normalize(h.name);
    d := LevenshteinDistance(sname, wanted);
    NormalizeIdempotent(h.name);
  }

  /** min(levd_dict.keys()): the smallest of the keys. */
  method MinKey(keys: seq<nat>) returns (m: nat)
    requires keys != []
    ensures m in keys && forall j :: 0 <= j < |keys| ==> m <= keys[j]
  {
    m := keys[0];
    for k := 1 to |keys|
      invariant m in keys && forall j :: 0 <= j < k ==> m <= keys[j]
    {
      if keys[k] < m {
        m := keys[k];
      }
    }
  }
}
