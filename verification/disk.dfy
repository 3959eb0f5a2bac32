/**
 * The file system as the renaming code sees it: a set of path names and
 * os.rename, which raises OSError when the source is missing or the target
 * is another name already taken, and otherwise moves one name to another;
 * renaming a name to itself succeeds and changes nothing, as on POSIX.
 */
module Disk {
  import opened Wrappers

  predicate CanMove(names: set<string>, src: string, dst: string)
  {
    src in names && (dst !in names || dst == src)
  }

  function Moved(names: set<string>, src: string, dst: string): (r: set<string>)
    requires CanMove(names, src, dst)
    ensures dst in r && (src != dst ==> src !in r)
    ensures forall x :: x != src && x != dst ==> (x in r <==> x in names)
  {
    names - {src} + {dst}
  }

  /** Moving a name and then moving it back gives the names from before. */
  lemma {:induction false} MovedBack(names: set<string>, src: string, dst: string)
    requires CanMove(names, src, dst)
    ensures CanMove(Moved(names, src, dst), dst, src)
    ensures Moved(Moved(names, src, dst), dst, src) == names
  {
    var back := Moved(Moved(names, src, dst), dst, src);
    forall x ensures x in back <==> x in names {
      if x != src && x != dst {
        assert x in Moved(names, src, dst) <==> x in names;
      }
    }
  }

  type Move = (string, string)

  /** The renames applied one after another; None if one of them raises. */
  function ApplyMoves(names: set<string>, moves: seq<Move>): Option<set<string>>
    decreases moves
  {
    if moves == [] then Some(names)
    else if CanMove(names, moves[0].0, moves[0].1) then ApplyMoves(Moved(names, moves[0].0, moves[0].1), moves[1..])
    else None
  }

  function Sources(moves: seq<Move>): (r: seq<string>)
    ensures |r| == |moves| && forall i :: 0 <= i < |r| ==> r[i] == moves[i].0
  {
    if moves == [] then [] else [moves[0].0] + Sources(moves[1..])
  }

  function Targets(moves: seq<Move>): (r: seq<string>)
    ensures |r| == |moves| && forall i :: 0 <= i < |r| ==> r[i] == moves[i].1
  {
    if moves == [] then [] else [moves[0].1] + Targets(moves[1..])
  }

  /** The renames that take each target back to its source, in the same order. */
  function Inverse(moves: seq<Move>): (r: seq<Move>)
    ensures Sources(r) == Targets(moves) && Targets(r) == Sources(moves)
  {
    if moves == [] then [] else [(moves[0].1, moves[0].0)] + Inverse(moves[1..])
  }

  lemma {:induction false} MovedMultiset(names: set<string>, src: string, dst: string)
    requires CanMove(names, src, dst)
    ensures multiset(Moved(names, src, dst)) + multiset{src} == multiset(names) + multiset{dst}
  {
    var r := Moved(names, src, dst);
    forall x ensures (multiset(r) + multiset{src})[x] == (multiset(names) + multiset{dst})[x] {
      assert x in r <==> (x in names && x != src) || x == dst;
    }
  }

  /** What a run of successful renames takes away and adds balances, counted as multisets. */
  lemma {:induction false} MovesBalance(names: set<string>, moves: seq<Move>, result: set<string>)
    requires ApplyMoves(names, moves) == Some(result)
    ensures multiset(result) + multiset(Sources(moves)) == multiset(names) + multiset(Targets(moves))
    decreases moves
  {
    if moves != [] {
      var m := moves[0];
      var next := Moved(names, m.0, m.1);
      var s', t' := Sources(moves[1..]), Targets(moves[1..]);
      MovesBalance(next, moves[1..], result);
      MovedMultiset(names, m.0, m.1);
      assert Sources(moves) == [m.0] + s';
      assert Targets(moves) == [m.1] + t';
      calc {
        multiset(result) + multiset(Sources(moves));
        multiset(result) + (multiset{m.0} + multiset(s'));
        (multiset(result) + multiset(s')) + multiset{m.0};
        (multiset(next) + multiset(t')) + multiset{m.0};
        (multiset(next) + multiset{m.0}) + multiset(t');
        (multiset(names) + multiset{m.1}) + multiset(t');
        multiset(names) + (multiset{m.1} + multiset(t'));
        multiset(names) + multiset(Targets(moves));
      }
    }
  }

  lemma {:induction false} ApplyMovesAppend(names: set<string>, a: seq<Move>, b: seq<Move>)
    ensures ApplyMoves(names, a + b) ==
      match ApplyMoves(names, a)
      case None => None
      case Some(mid) => ApplyMoves(mid, b)
    decreases a
  {
    if a == [] {
      assert a + b == b;
    } else {
      assert (a + b)[1..] == a[1..] + b;
      if CanMove(names, a[0].0, a[0].1) {
        ApplyMovesAppend(Moved(names, a[0].0, a[0].1), a[1..], b);
      }
    }
  }

  /**
   * Renames undone by renaming every target back to its source, in the same
   * order, restore the original names whenever every undo rename succeeds.
   */
  lemma {:induction false} UndoRestores(names: set<string>, moves: seq<Move>, result: set<string>)
    requires ApplyMoves(names, moves + Inverse(moves)) == Some(result)
    ensures result == names
  {
    var all := moves + Inverse(moves);
    MovesBalance(names, all, result);
    InverseBalances(moves);
    MultisetCancel(multiset(result), multiset(names), multiset(Sources(all)));
    SameMultisetSameSet(result, names);
  }

  /** Renames followed by their inverse take away as many of each name as they add. */
  lemma {:induction false} InverseBalances(moves: seq<Move>)
    ensures multiset(Sources(moves + Inverse(moves))) == multiset(Targets(moves + Inverse(moves)))
  {
    var inv := Inverse(moves);
    var all := moves + inv;
    var ss, ts := Sources(moves), Targets(moves);
    SourcesAppend(moves, inv);
    TargetsAppend(moves, inv);
    assert Sources(all) == ss + ts;
    assert Targets(all) == ts + ss;
    assert multiset(ss + ts) == multiset(ss) + multiset(ts);
    assert multiset(ts + ss) == multiset(ts) + multiset(ss);
  }

  lemma {:induction false} MultisetCancel(x: multiset<string>, y: multiset<string>, c: multiset<string>)
    requires x + c == y + c
    ensures x == y
  {
    forall e ensures x[e] == y[e] {
      assert (x + c)[e] == (y + c)[e];
    }
  }

  lemma {:induction false} SameMultisetSameSet(s: set<string>, t: set<string>)
    requires multiset(s) == multiset(t)
    ensures s == t
  {
    forall e ensures e in s <==> e in t {
      assert e in s <==> e in multiset(s);
      assert e in t <==> e in multiset(t);
    }
  }

  lemma {:induction false} SourcesAppend(a: seq<Move>, b: seq<Move>)
    ensures Sources(a + b) == Sources(a) + Sources(b)
  {
    if a != [] {
      assert (a + b)[1..] == a[1..] + b;
      SourcesAppend(a[1..], b);
    }
  }

  lemma {:induction false} TargetsAppend(a: seq<Move>, b: seq<Move>)
    ensures Targets(a + b) == Targets(a) + Targets(b)
  {
    if a != [] {
      assert (a + b)[1..] == a[1..] + b;
      TargetsAppend(a[1..], b);
    }
  }

  class Disk {
    var names: set<string>

    constructor (names: set<string>)
      ensures this.names == names
    {
      this.names := names;
    }

    /** os.rename(src, dst) */
    method Rename(src: string, dst: string) returns (ok: bool)
      modifies this
      ensures ok == CanMove(old(names), src, dst)
      ensures names == if ok then Moved(old(names), src, dst) else old(names)
    {
      ok := src in names && (dst !in names || dst == src);
      if ok {
        names := names - {src} + {dst};
      }
    }
  }
}
