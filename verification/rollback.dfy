/**
 * renameFiles of scrappy.py: rename every mapped file, remembering each
 * new name with its old one in the dictionary `old_`, and on the first
 * failing rename rename every remembered name back, in the dictionary's
 * key order. The name computation is a parameter, so the same definition
 * serves the other revision.
 */
module Rollback {
  import opened Wrappers
  import opened Sorting
  import opened Dicts
  import opened Disk

  /** The renames run one after another; the first that fails raises OSError and leaves the names as they are then. */
  function RunMoves(names: set<string>, moves: seq<Move>): (Outcome, set<string>)
    decreases moves
  {
    if moves == [] then (Done, names)
    else if CanMove(names, moves[0].0, moves[0].1) then RunMoves(Moved(names, moves[0].0, moves[0].1), moves[1..])
    else (Raised(OSError), names)
  }

  /** RunMoves completes exactly when ApplyMoves does, with the same names. */
  lemma {:induction false} RunMovesAgrees(names: set<string>, moves: seq<Move>)
    ensures RunMoves(names, moves).0 == Done <==> ApplyMoves(names, moves).Some?
    ensures RunMoves(names, moves).0 == Done ==> ApplyMoves(names, moves) == Some(RunMoves(names, moves).1)
    ensures RunMoves(names, moves).0.Raised? ==> RunMoves(names, moves).0.error == OSError
    decreases moves
  {
    if moves != [] && CanMove(names, moves[0].0, moves[0].1) {
      RunMovesAgrees(Moved(names, moves[0].0, moves[0].1), moves[1..]);
    }
  }

  /** for key in old_: rename(key, old_[key]) */
  function UndoMoves(d: Dict<string>): (r: seq<Move>)
    requires d.Valid()
    ensures |r| == |d.keys| && forall i :: 0 <= i < |r| ==> r[i] == (d.keys[i], d.items[d.keys[i]])
  {
    seq(|d.keys|, i requires 0 <= i < |d.keys| => (d.keys[i], d.items[d.keys[i]]))
  }

  /** The dictionary old_ after the given renames, each new name mapped to the old one. */
  function Recorded(done: seq<Move>): (d: Dict<string>)
    ensures d.Valid()
    decreases |done|
  {
    if done == [] then Empty() else Assign(Recorded(done[..|done| - 1]), done[|done| - 1].1, done[|done| - 1].0)
  }

  lemma {:induction false} TargetsSnoc(done: seq<Move>)
    requires done != []
    ensures Targets(done) == Targets(done[..|done| - 1]) + [done[|done| - 1].1]
  {
    if |done| > 1 {
      TargetsSnoc(done[1..]);
      assert done[1..][..|done| - 2] == done[..|done| - 1][1..];
    }
  }

  lemma {:induction false} NoDuplicatesSnoc(s: seq<string>)
    requires s != [] && NoDuplicates(s)
    ensures NoDuplicates(s[..|s| - 1]) && s[|s| - 1] !in s[..|s| - 1]
  {
  }

  /** The keys of old_ are the new names, in order. */
  lemma {:induction false} RecordedKeys(done: seq<Move>)
    requires NoDuplicates(Targets(done))
    ensures Recorded(done).keys == Targets(done)
    decreases |done|
  {
    if done != [] {
      var p := done[..|done| - 1];
      var m := done[|done| - 1];
      var tp := Targets(p);
      assert Targets(done) == tp + [m.1] by { TargetsSnoc(done); }
      assert NoDuplicates(tp) && m.1 !in tp by { NoDuplicatesSnoc(Targets(done)); }
      RecordedKeys(p);
      assert m.1 !in Recorded(p).items;
    }
  }

  /** Each new name is recorded with its old one. */
  lemma {:induction false} RecordedItems(done: seq<Move>)
    requires NoDuplicates(Targets(done))
    ensures forall i :: 0 <= i < |done| ==> done[i].1 in Recorded(done).items && Recorded(done).items[done[i].1] == done[i].0
    decreases |done|
  {
    if done != [] {
      var p := done[..|done| - 1];
      var m := done[|done| - 1];
      var tp := Targets(p);
      assert Targets(done) == tp + [m.1] by { TargetsSnoc(done); }
      assert NoDuplicates(tp) && m.1 !in tp by { NoDuplicatesSnoc(Targets(done)); }
      RecordedItems(p);
      var rp := Recorded(p);
      assert Recorded(done).items == rp.items[m.1 := m.0];
      forall i | 0 <= i < |done| ensures done[i].1 in Recorded(done).items && Recorded(done).items[done[i].1] == done[i].0 {
        if i < |p| {
          assert done[i] == p[i];
          assert tp[i] == p[i].1;
          assert p[i].1 != m.1;
          assert p[i].1 in rp.items && rp.items[p[i].1] == p[i].0;
        } else {
          assert done[i] == m;
        }
      }
    }
  }

  /** Renames to distinct names are recorded in order, each new name with its old one. */
  lemma {:induction false} RecordedInOrder(done: seq<Move>)
    requires NoDuplicates(Targets(done))
    ensures Recorded(done).keys == Targets(done)
    ensures forall i :: 0 <= i < |done| ==> done[i].1 in Recorded(done).items && Recorded(done).items[done[i].1] == done[i].0
  {
    RecordedKeys(done);
    RecordedItems(done);
  }

  /** Undoing renames to distinct names in key order is their Inverse. */
  lemma {:induction false} RecordedUndo(done: seq<Move>)
    requires NoDuplicates(Targets(done))
    ensures UndoMoves(Recorded(done)) == Inverse(done)
  {
    RecordedInOrder(done);
    var u, v := UndoMoves(Recorded(done)), Inverse(done);
    forall i | 0 <= i < |u| ensures u[i] == v[i] {
      assert Sources(v)[i] == Targets(done)[i] && Targets(v)[i] == Sources(done)[i];
    }
  }

  /**
   * The loop of renameFiles over the files still to do: KeyError for a file
   * missing from the file map, nothing for an unmapped file, the exception
   * of the name computation (which runs outside the try), and otherwise the
   * rename; True once every file is done. A failing rename is caught and
   * every recorded rename is undone in key order: False, or the OSError of
   * a failing undo, which escapes the except clause.
   */
  function RenameAll<V>(files: seq<string>, filemap: map<string, Option<V>>, target: (string, V) -> Result<string>,
                        names: set<string>, old_: Dict<string>): (r: (Result<bool>, set<string>, Dict<string>))
    requires old_.Valid()
    ensures r.2.Valid()
    decreases files
  {
    if files == [] then (Ok(true), names, old_)
    else
      var f := files[0];
      if f !in filemap then (Err(KeyError), names, old_)
      else if filemap[f].None? then RenameAll(files[1..], filemap, target, names, old_)
      else
        var t := target(f, filemap[f].value);
        if t.Err? then (Err(t.error), names, old_)
        else if CanMove(names, f, t.value) then
          RenameAll(files[1..], filemap, target, Moved(names, f, t.value), Assign(old_, t.value, f))
        else
          var (o, undone) := RunMoves(names, UndoMoves(old_));
          (if o.Raised? then Err(o.error) else Ok(false), undone, old_)
  }

  /** The renames renameFiles plans: each mapped file to its new name; None if a file is missing or its name raises. */
  function Plan<V>(files: seq<string>, filemap: map<string, Option<V>>, target: (string, V) -> Result<string>): Option<seq<Move>>
    decreases files
  {
    if files == [] then Some([])
    else
      var f := files[0];
      var rest := Plan(files[1..], filemap, target);
      if f !in filemap || rest.None? then None
      else if filemap[f].None? then rest
      else
        var t := target(f, filemap[f].value);
        if t.Err? then None else Some([(f, t.value)] + rest.value)
  }

  /** True means every planned rename was made, one after another. */
  lemma {:induction false} RenameAllSucceeds<V>(files: seq<string>, filemap: map<string, Option<V>>, target: (string, V) -> Result<string>,
                                                names: set<string>, old_: Dict<string>)
    requires old_.Valid()
    ensures RenameAll(files, filemap, target, names, old_).0 == Ok(true) ==>
      Plan(files, filemap, target).Some? &&
      ApplyMoves(names, Plan(files, filemap, target).value) == Some(RenameAll(files, filemap, target, names, old_).1)
    decreases files
  {
    if files != [] {
      var f := files[0];
      if f in filemap {
        if filemap[f].None? {
          RenameAllSucceeds(files[1..], filemap, target, names, old_);
        } else {
          var t := target(f, filemap[f].value);
          if t.Ok? && CanMove(names, f, t.value) {
            RenameAllSucceeds(files[1..], filemap, target, Moved(names, f, t.value), Assign(old_, t.value, f));
          }
        }
      }
    }
  }

  /** Renames that neither take nor give a name leave it as it is. */
  lemma {:induction false} RunMovesLeaves(names: set<string>, moves: seq<Move>, x: string)
    requires forall i :: 0 <= i < |moves| ==> x != moves[i].0 && x != moves[i].1
    ensures x in RunMoves(names, moves).1 <==> x in names
    decreases moves
  {
    if moves != [] && CanMove(names, moves[0].0, moves[0].1) {
      RunMovesLeaves(Moved(names, moves[0].0, moves[0].1), moves[1..], x);
    }
  }

  /**
   * A name that is neither a mapped file nor a new name, nor recorded in
   * old_, is on the disk afterwards exactly when it was before: unmapped
   * files are never touched, whatever happens.
   */
  lemma {:induction false} RenameAllTouchesOnlyMapped<V>(files: seq<string>, filemap: map<string, Option<V>>,
                                                         target: (string, V) -> Result<string>,
                                                         names: set<string>, old_: Dict<string>, x: string)
    requires old_.Valid()
    requires forall k :: k in old_.items ==> x != k && x != old_.items[k]
    requires forall f :: f in files && f in filemap && filemap[f].Some? ==>
      x != f && (target(f, filemap[f].value).Ok? ==> x != target(f, filemap[f].value).value)
    ensures x in RenameAll(files, filemap, target, names, old_).1 <==> x in names
    decreases files
  {
    if files != [] {
      var f := files[0];
      assert forall g :: g in files[1..] ==> g in files;
      if f in filemap && filemap[f].Some? {
        var t := target(f, filemap[f].value);
        if t.Ok? {
          if CanMove(names, f, t.value) {
            RenameAllTouchesOnlyMapped(files[1..], filemap, target, Moved(names, f, t.value), Assign(old_, t.value, f), x);
          } else {
            RunMovesLeaves(names, UndoMoves(old_), x);
          }
        }
      } else if f in filemap {
        RenameAllTouchesOnlyMapped(files[1..], filemap, target, names, old_, x);
      }
    }
  }

  /** The new names of the mapped files whose name computation goes through, in order. */
  function NewNames<V>(files: seq<string>, filemap: map<string, Option<V>>, target: (string, V) -> Result<string>): seq<string>
    decreases files
  {
    if files == [] then []
    else
      var f := files[0];
      var rest := NewNames(files[1..], filemap, target);
      if f in filemap && filemap[f].Some? && target(f, filemap[f].value).Ok? then [target(f, filemap[f].value).value] + rest
      else rest
  }

  /**
   * When the renames made so far are recorded in old_ and every new name is
   * distinct, a rollback that completes (the result False) restores the
   * names as they were before the first rename.
   */
  lemma {:induction false} RenameAllRollbackRestores<V>(files: seq<string>, filemap: map<string, Option<V>>,
                                                        target: (string, V) -> Result<string>,
                                                        before: set<string>, done: seq<Move>, names: set<string>)
    requires ApplyMoves(before, done) == Some(names)
    requires NoDuplicates(Targets(done) + NewNames(files, filemap, target))
    ensures RenameAll(files, filemap, target, names, Recorded(done)).0 == Ok(false) ==>
      RenameAll(files, filemap, target, names, Recorded(done)).1 == before
    decreases files
  {
    NoDuplicatesPrefix(Targets(done), NewNames(files, filemap, target));
    if files != [] {
      var f := files[0];
      var rest := NewNames(files[1..], filemap, target);
      if f in filemap && filemap[f].Some? {
        var t := target(f, filemap[f].value);
        if t.Ok? {
          if CanMove(names, f, t.value) {
            var done' := done + [(f, t.value)];
            assert Recorded(done') == Assign(Recorded(done), t.value, f) by {
              assert done'[..|done'| - 1] == done;
            }
            ApplyMovesAppend(before, done, [(f, t.value)]);
            assert ApplyMoves(before, done') == Some(Moved(names, f, t.value)) by {
              assert [(f, t.value)][1..] == [];
            }
            assert NewNames(files, filemap, target) == [t.value] + rest;
            TargetsThen(done, (f, t.value), rest);
            assert RenameAll(files, filemap, target, names, Recorded(done)) ==
              RenameAll(files[1..], filemap, target, Moved(names, f, t.value), Recorded(done'));
            RenameAllRollbackRestores(files[1..], filemap, target, before, done', Moved(names, f, t.value));
          } else {
            var (o, undone) := RunMoves(names, UndoMoves(Recorded(done)));
            assert RenameAll(files, filemap, target, names, Recorded(done)) ==
              (if o.Raised? then Err(o.error) else Ok(false), undone, Recorded(done));
            RollbackAfterFailure(before, done, names);
          }
        }
      } else if f in filemap {
        assert NewNames(files, filemap, target) == rest;
        RenameAllRollbackRestores(files[1..], filemap, target, before, done, names);
      }
    }
  }

  /** The targets of one more rename, followed by other names, are the old targets followed by the new one and those names. */
  lemma {:induction false} TargetsThen(done: seq<Move>, m: Move, rest: seq<string>)
    ensures Targets(done + [m]) + rest == Targets(done) + ([m.1] + rest)
  {
    TargetsAppend(done, [m]);
    assert Targets([m]) == [m.1];
  }

  lemma {:induction false} NoDuplicatesPrefix(a: seq<string>, b: seq<string>)
    requires NoDuplicates(a + b)
    ensures NoDuplicates(a)
  {
    forall i, j | 0 <= i < j < |a| ensures a[i] != a[j] {
      assert (a + b)[i] == a[i] && (a + b)[j] == a[j];
    }
  }

  /** Undoing the recorded renames from where they led, when it completes, gives back the names from before them. */
  lemma {:induction false} RollbackAfterFailure(before: set<string>, done: seq<Move>, names: set<string>)
    requires ApplyMoves(before, done) == Some(names)
    requires NoDuplicates(Targets(done))
    ensures RunMoves(names, UndoMoves(Recorded(done))).0 == Done ==> RunMoves(names, UndoMoves(Recorded(done))).1 == before
  {
    RecordedUndo(done);
    RunMovesAgrees(names, Inverse(done));
    var (o, undone) := RunMoves(names, Inverse(done));
    if o == Done {
      ApplyMovesAppend(before, done, Inverse(done));
      UndoRestores(before, done, undone);
    }
  }

  /** From an empty old_: with distinct new names, a completed rollback restores the disk. */
  lemma {:induction false} RollbackRestores<V>(files: seq<string>, filemap: map<string, Option<V>>, target: (string, V) -> Result<string>,
                            names: set<string>)
    requires NoDuplicates(NewNames(files, filemap, target))
    ensures RenameAll(files, filemap, target, names, Empty()).0 == Ok(false) ==>
      RenameAll(files, filemap, target, names, Empty()).1 == names
  {
    assert Targets([]) + NewNames(files, filemap, target) == NewNames(files, filemap, target);
    RenameAllRollbackRestores(files, filemap, target, names, [], names);
  }

  /** The renames undone last to first, as an atomic rename has to. */
  function UndoReverse(names: set<string>, done: seq<Move>): (Outcome, set<string>)
    decreases |done|
  {
    if done == [] then (Done, names)
    else
      var m := done[|done| - 1];
      if CanMove(names, m.1, m.0) then UndoReverse(Moved(names, m.1, m.0), done[..|done| - 1])
      else (Raised(OSError), names)
  }

  /** Undoing the renames last to first always goes through and gives back the names from before them. */
  lemma {:induction false} UndoReverseRestores(before: set<string>, done: seq<Move>, names: set<string>)
    requires ApplyMoves(before, done) == Some(names)
    ensures UndoReverse(names, done) == (Done, before)
    decreases |done|
  {
    if done != [] {
      var p := done[..|done| - 1];
      var m := done[|done| - 1];
      assert p + [m] == done;
      ApplyMovesAppend(before, p, [m]);
      var mid := ApplyMoves(before, p).value;
      assert [m][1..] == [];
      assert CanMove(mid, m.0, m.1) && names == Moved(mid, m.0, m.1);
      assert Moved(names, m.1, m.0) == mid;
      UndoReverseRestores(before, p, mid);
    }
  }

  /**
   * renameFiles made atomic: the same loop, with the renames kept in a list
   * and undone last to first when one fails.
   */
  function RenameAllAtomic<V>(files: seq<string>, filemap: map<string, Option<V>>, target: (string, V) -> Result<string>,
                              names: set<string>, done: seq<Move>): (Result<bool>, set<string>)
    decreases files
  {
    if files == [] then (Ok(true), names)
    else
      var f := files[0];
      if f !in filemap then (Err(KeyError), names)
      else if filemap[f].None? then RenameAllAtomic(files[1..], filemap, target, names, done)
      else
        var t := target(f, filemap[f].value);
        if t.Err? then (Err(t.error), names)
        else if CanMove(names, f, t.value) then
          RenameAllAtomic(files[1..], filemap, target, Moved(names, f, t.value), done + [(f, t.value)])
        else
          var (o, undone) := UndoReverse(names, done);
          (if o.Raised? then Err(o.error) else Ok(false), undone)
  }

  /**
   * The atomic loop raises only when the plan itself fails (a missing file
   * or a name that cannot be computed), never because of the disk: it renames
   * every planned file (True), or it gives back exactly the names from
   * before its first rename (False).
   */
  lemma {:induction false} RenameAllAtomicIsAtomic<V>(files: seq<string>, filemap: map<string, Option<V>>,
                                                      target: (string, V) -> Result<string>,
                                                      before: set<string>, done: seq<Move>, names: set<string>)
    requires ApplyMoves(before, done) == Some(names)
    ensures var (r, after) := RenameAllAtomic(files, filemap, target, names, done);
      && (r.Err? ==> Plan(files, filemap, target).None?)
      && (r == Ok(false) ==> after == before)
      && (r == Ok(true) ==> Plan(files, filemap, target).Some? && ApplyMoves(names, Plan(files, filemap, target).value) == Some(after))
    decreases files
  {
    if files != [] {
      var f := files[0];
      if f in filemap && filemap[f].Some? {
        var t := target(f, filemap[f].value);
        if t.Ok? {
          if CanMove(names, f, t.value) {
            ApplyMovesAppend(before, done, [(f, t.value)]);
            assert [(f, t.value)][1..] == [];
            RenameAllAtomicIsAtomic(files[1..], filemap, target, before, done + [(f, t.value)], Moved(names, f, t.value));
          } else {
            UndoReverseRestores(before, done, names);
          }
        }
      } else if f in filemap {
        RenameAllAtomicIsAtomic(files[1..], filemap, target, before, done, names);
      }
    }
  }

  /**
   * renameFiles is not atomic: "b" renamed to "c", then "a" to "b", then
   * the missing "d" fails; undoing in key order tries "c" to "b" first,
   * which is taken, so OSError escapes with the disk left as {"b", "c"}.
   * Undoing last to first gives back {"a", "b"}.
   */
  lemma {:induction false} RollbackInKeyOrderFails(files: seq<string>, filemap: map<string, Option<int>>, target: (string, int) -> Result<string>,
                                names: set<string>)
    requires files == ["b", "a", "d"]
    requires filemap == map["b" := Some(1), "a" := Some(2), "d" := Some(3)]
    requires target == ((f: string, v: int) => if v == 1 then Ok("c") else if v == 2 then Ok("b") else Ok("e"))
    requires names == {"a", "b"}
    ensures RenameAll(files, filemap, target, names, Empty()).0 == Err(OSError)
    ensures RenameAll(files, filemap, target, names, Empty()).1 == {"b", "c"}
    ensures RenameAllAtomic(files, filemap, target, names, []) == (Ok(false), {"a", "b"})
  {
    var n1 := Moved(names, "b", "c");
    var n2 := Moved(n1, "a", "b");
    assert n1 == {"a", "c"};
    assert n2 == {"b", "c"};
    var d1 := Assign(Empty(), "c", "b");
    var d2 := Assign(d1, "b", "a");
    assert d2.keys == ["c", "b"];
    var f1, f2, f3 := files[1..], files[2..], files[3..];
    assert f1 == ["a", "d"] && f1[1..] == f2 && f2 == ["d"] && f2[1..] == f3 && f3 == [];
    assert target("b", 1) == Ok("c") && target("a", 2) == Ok("b") && target("d", 3) == Ok("e");
    assert !CanMove(n2, "d", "e");
    assert UndoMoves(d2) == [("c", "b"), ("b", "a")];
    assert !CanMove(n2, "c", "b");
    assert RunMoves(n2, UndoMoves(d2)) == (Raised(OSError), n2);
    assert RenameAll(f2, filemap, target, n2, d2) == (Err(OSError), n2, d2);
    assert RenameAll(f1, filemap, target, n1, d1) == (Err(OSError), n2, d2);
    var done := [("b", "c"), ("a", "b")];
    assert ApplyMoves(names, done) == Some(n2) by {
      assert done[1..] == [("a", "b")];
    }
    UndoReverseRestores(names, done, n2);
    assert RenameAllAtomic(f2, filemap, target, n2, done) == (Ok(false), names);
    assert RenameAllAtomic(f1, filemap, target, n1, [("b", "c")]) == (Ok(false), names) by {
      assert [("b", "c")] + [("a", "b")] == done;
    }
    assert RenameAllAtomic(files, filemap, target, names, []) == (Ok(false), names) by {
      assert [] + [("b", "c")] == [("b", "c")];
    }
  }
}
