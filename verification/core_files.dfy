/**
 * FileSystemInterface of scrappy/core.py: the tracked media files (sorted
 * when first collected) and the dictionary `_old` that maps every current
 * name to the name it was renamed from (None for a file never renamed).
 * The directory walk, glob expansion and mimetype lookup are parameters;
 * os.rename acts on a Disk.
 */
module CoreFiles {
  import opened Wrappers
  import opened Sorting
  import opened Dicts
  import opened Disk

  /** Each found path once, in order of first appearance (the `seen` set). */
  function Distinct(found: seq<string>): (r: seq<string>)
    ensures NoDuplicates(r)
    ensures forall f :: f in r <==> f in found
  {
    if found == [] then []
    else
      var p := Distinct(found[..|found| - 1]);
      var f := found[|found| - 1];
      assert forall x :: x in found <==> x in found[..|found| - 1] || x == f;
      if f in p then p else p + [f]
  }

  /**
   * _process_files: the distinct found paths whose guessed type is video,
   * sorted.
   */
  method ProcessFiles(found: seq<string>, isVideo: string -> bool) returns (files: seq<string>)
    ensures Sorted(files) && NoDuplicates(files)
    ensures forall f :: f in files <==> f in found && isVideo(f)
  {
    var seen: seq<string> := [];
    for i := 0 to |found|
      invariant seen == Distinct(found[..i])
    {
      assert found[..i + 1][..i] == found[..i];
      if found[i] !in seen {
        seen := seen + [found[i]];
      }
    }
    assert found[..|found|] == found;
    var videos: seq<string> := [];
    for i := 0 to |seen|
      invariant NoDuplicates(videos)
      invariant forall f :: f in videos <==> f in seen[..i] && isVideo(f)
    {
      assert forall f :: f in seen[..i + 1] <==> f in seen[..i] || f == seen[i];
      if isVideo(seen[i]) {
        assert seen[i] !in seen[..i];
        videos := videos + [seen[i]];
      }
    }
    assert seen[..|seen|] == seen;
    SortKeepsElements(videos);
    files := Sort(videos);
  }

  /** The paths a list holds that are regular files (filter(os.path.isfile, ...)). */
  function Files(paths: seq<string>, isFile: string -> bool): (r: seq<string>)
    ensures forall f :: f in r <==> f in paths && isFile(f)
  {
    if paths == [] then []
    else if isFile(paths[0]) then [paths[0]] + Files(paths[1..], isFile)
    else Files(paths[1..], isFile)
  }

  /** The paths of s that are not in t, in order. */
  function Missing(s: seq<string>, t: seq<string>): (r: seq<string>)
    ensures forall f :: f in r <==> f in s && f !in t
    ensures NoDuplicates(s) ==> NoDuplicates(r)
    ensures Sorted(s) ==> Sorted(r)
  {
    if s == [] then []
    else
      var p := Missing(s[1..], t);
      assert NoDuplicates(s) ==> s[0] !in s[1..];
      assert Sorted(s) ==> Sorted(s[1..]) && forall x :: x in p ==> LessEq(s[0], x) by {
        if Sorted(s) {
          forall x | x in p ensures LessEq(s[0], x) {
            var j :| 0 <= j < |s[1..]| && s[1..][j] == x;
            assert s[j + 1] == x;
          }
        }
      }
      if s[0] in t then p else [s[0]] + p
  }

  /** d.update({k: None for k in ks}) */
  function ResetAll(d: Dict<Option<string>>, ks: seq<string>): (r: Dict<Option<string>>)
    requires d.Valid()
    ensures r.Valid()
    ensures forall k :: k in r.items <==> k in d.items || k in ks
    ensures forall k :: k in r.items ==> r.items[k] == if k in ks then None else d.items[k]
    decreases ks
  {
    if ks == [] then d else ResetAll(Assign(d, ks[0], None), ks[1..])
  }

  /**
   * rename(old, new) on a disk and an `_old` dictionary: os.rename (OSError
   * when it fails, nothing changed), then _old[new] = old, then
   * _old.pop(old) (KeyError when old was not a key, the disk rename and the
   * new entry staying).
   */
  function RenameSpec(names: set<string>, d: Dict<Option<string>>, src: string, dst: string)
    : (r: (Outcome, set<string>, Dict<Option<string>>))
    requires d.Valid()
    ensures r.2.Valid()
  {
    if !CanMove(names, src, dst) then (Raised(OSError), names, d)
    else
      var d1 := Assign(d, dst, Some(src));
      var popped := Pop(d1, src);
      if popped.Err? then (Raised(popped.error), Moved(names, src, dst), d1)
      else (Done, Moved(names, src, dst), popped.value.1)
  }

  /**
   * After a rename that goes through, `_old` has no key for the old name,
   * maps the new name to the old one when they differ, and is otherwise
   * unchanged; it goes through exactly when the disk rename can be made and
   * the old name is a key (or the new name, just assigned, is the old one).
   */
  lemma {:induction false} RenameRecordsOrigin(names: set<string>, d: Dict<Option<string>>, src: string, dst: string)
    requires d.Valid()
    ensures var (o, names', d') := RenameSpec(names, d, src, dst);
      && (o == Done <==> CanMove(names, src, dst) && (src in d.items || src == dst))
      && (o == Raised(OSError) <==> !CanMove(names, src, dst))
      && (o == Raised(OSError) ==> names' == names && d' == d)
      && (o == Done ==>
            && names' == Moved(names, src, dst)
            && src !in d'.items
            && (src != dst ==> dst in d'.items && d'.items[dst] == Some(src))
            && forall k :: k != src && k != dst ==> (k in d'.items <==> k in d.items) && (k in d.items ==> d'.items[k] == d.items[k]))
  {
  }

  /**
   * rename(f, f) of a file on the disk goes through and leaves the disk as
   * it was, but _old[f] = f is popped again at once: f loses its entry, so
   * a later revert([f]) raises KeyError.
   */
  lemma {:induction false} RenameToSelfDropsOrigin(names: set<string>, d: Dict<Option<string>>, f: string)
    requires d.Valid() && f in names
    ensures var (o, names1, d1) := RenameSpec(names, d, f, f);
      && o == Done && names1 == names && f !in d1.items
      && (forall k :: k != f ==> (k in d1.items <==> k in d.items) && (k in d.items ==> d1.items[k] == d.items[k]))
      && RevertSpec(names1, d1, [f]).0 == Raised(KeyError)
  {
    RenameRecordsOrigin(names, d, f, f);
    assert Moved(names, f, f) == names;
  }

  /**
   * revert(keys): rename every listed key back to the name `_old` records
   * for it, stopping at the first exception (KeyError for a key `_old`
   * lacks, TypeError for a key whose recorded name is None).
   */
  function RevertSpec(names: set<string>, d: Dict<Option<string>>, keys: seq<string>)
    : (r: (Outcome, set<string>, Dict<Option<string>>))
    requires d.Valid()
    ensures r.2.Valid()
    decreases keys
  {
    if keys == [] then (Done, names, d)
    else
      var k := keys[0];
      if k !in d.items then (Raised(KeyError), names, d)
      else if d.items[k].None? then (Raised(TypeError), names, d)
      else
        var (o, names1, d1) := RenameSpec(names, d, k, d.items[k].value);
        if o.Raised? then (o, names1, d1) else RevertSpec(names1, d1, keys[1..])
  }

  /**
   * Renaming a tracked file and then reverting its new name puts the disk
   * back as it was; `_old` then maps the file to the name it had been
   * given, and has no key for that name.
   */
  lemma {:induction false} RevertUndoesRename(names: set<string>, d: Dict<Option<string>>, src: string, dst: string)
    requires d.Valid() && CanMove(names, src, dst) && src in d.items && src != dst
    ensures var (_, names1, d1) := RenameSpec(names, d, src, dst);
      var (o, names2, d2) := RevertSpec(names1, d1, [dst]);
      && o == Done && names2 == names
      && d2.items == (d.items - {dst})[src := Some(dst)]
  {
    RenameRecordsOrigin(names, d, src, dst);
    var r1 := RenameSpec(names, d, src, dst);
    var names1, d1 := r1.1, r1.2;
    assert r1.0 == Done;
    RenameRecordsOrigin(names1, d1, dst, src);
    assert CanMove(names1, dst, src);
    var r2 := RenameSpec(names1, d1, dst, src);
    assert r2.0 == Done;
    assert [dst][1..] == [];
    assert RevertSpec(names1, d1, [dst]) == RevertSpec(r2.1, r2.2, []);
    assert r2.1 == names by { MovedBack(names, src, dst); }
    SwapBack(d.items, d1.items, r2.2.items, src, dst);
  }

  /**
   * The origins after a rename from src to dst and the rename back: src
   * maps to dst, dst has no entry, every other entry is as it was.
   */
  lemma {:induction false} SwapBack(d0: map<string, Option<string>>, d1: map<string, Option<string>>, d2: map<string, Option<string>>,
                                    src: string, dst: string)
    requires src !in d1 && dst in d1 && d1[dst] == Some(src)
    requires forall k :: k != src && k != dst ==> (k in d1 <==> k in d0) && (k in d0 ==> d1[k] == d0[k])
    requires dst !in d2 && src in d2 && d2[src] == Some(dst)
    requires forall k :: k != dst && k != src ==> (k in d2 <==> k in d1) && (k in d1 ==> d2[k] == d1[k])
    ensures d2 == (d0 - {dst})[src := Some(dst)]
  {
    var e := (d0 - {dst})[src := Some(dst)];
    forall k ensures (k in d2 <==> k in e) && (k in e ==> d2[k] == e[k]) {
      if k != src && k != dst {
        assert (k in d1 <==> k in d0) && (k in d0 ==> d1[k] == d0[k]);
      }
    }
  }

  /** pop(i) on a list: Python's index, counted from the end when negative; IndexError out of range. */
  function ListIndex(n: nat, i: int): (r: Option<nat>)
    ensures r.Some? <==> -(n as int) <= i < n
    ensures r.Some? ==> r.value < n && (r.value == i || r.value == i + n)
  {
    if 0 <= i < n then Some(i) else if -(n as int) <= i < 0 then Some(i + n) else None
  }

  /**
   * The key pop(name) hands to _old.pop: the last name the enumerate loop
   * visited. The loop pops the match but keeps counting, so the element
   * after it is skipped; the key is the name itself only when it is one of
   * the last two, and otherwise the last tracked name (None when nothing is
   * tracked, which Python reports as an unbound local).
   */
  function PoppedKey(files: seq<string>, f: string): Option<string>
  {
    if files == [] then None
    else if f == files[|files| - 1] || (|files| >= 2 && f == files[|files| - 2]) then Some(f)
    else Some(files[|files| - 1])
  }

  lemma {:induction false} WithoutAbsent(s: seq<string>, k: string)
    requires k !in s
    ensures Without(s, k) == s
  {
    if s != [] {
      WithoutAbsent(s[1..], k);
    }
  }

  lemma {:induction false} WithoutAt(s: seq<string>, j: nat)
    requires NoDuplicates(s) && j < |s|
    ensures Without(s, s[j]) == s[..j] + s[j + 1..]
  {
    if j == 0 {
      assert s[0] !in s[1..];
      WithoutAbsent(s[1..], s[0]);
    } else {
      WithoutAt(s[1..], j - 1);
      assert s[1..][..j - 1] + s[1..][j..] == s[1..j] + s[j + 1..];
      assert s[..j] + s[j + 1..] == [s[0]] + (s[1..j] + s[j + 1..]);
    }
  }

  /** pop(name) as written, on a list and a dictionary: the name leaves the list, PoppedKey leaves the dictionary. */
  function PopNameSpec(files: seq<string>, d: Dict<Option<string>>, f: string): (r: (Outcome, seq<string>, Dict<Option<string>>))
    requires d.Valid()
    ensures r.2.Valid()
  {
    var key := PoppedKey(files, f);
    if key.None? then (Raised(UnboundLocalError), Without(files, f), d)
    else if key.value !in d.items then (Raised(KeyError), Without(files, f), d)
    else (Done, Without(files, f), Pop(d, key.value).value.1)
  }

  /** pop(name) as evidently meant: the name leaves both the list and the dictionary. */
  function PopNameFixedSpec(files: seq<string>, d: Dict<Option<string>>, f: string): (r: (Outcome, seq<string>, Dict<Option<string>>))
    requires d.Valid()
    ensures r.2.Valid()
    ensures r.0 == Done <==> f in d.items
    ensures r.0 == Done ==> f !in r.1 && r.2.items == d.items - {f}
  {
    if f !in d.items then (Raised(KeyError), Without(files, f), d)
    else (Done, Without(files, f), Pop(d, f).value.1)
  }

  /** clear(): pop every name of a snapshot of the list, stopping at the first exception. */
  function ClearSpec(files: seq<string>, d: Dict<Option<string>>, snapshot: seq<string>, fixed: bool)
    : (r: (Outcome, seq<string>, Dict<Option<string>>))
    requires d.Valid()
    ensures r.2.Valid()
    decreases snapshot
  {
    if snapshot == [] then (Done, files, d)
    else
      var (o, files1, d1) := if fixed then PopNameFixedSpec(files, d, snapshot[0]) else PopNameSpec(files, d, snapshot[0]);
      if o.Raised? then (o, files1, d1) else ClearSpec(files1, d1, snapshot[1..], fixed)
  }

  /**
   * for i, key in enumerate(files): if key == f: files.pop(i) -- the list
   * iterator walks indices of the shrinking list, so the element after the
   * popped one is never visited; `key` is the last element visited.
   */
  method EnumeratePop(F: seq<string>, f: string) returns (files: seq<string>, key: Option<string>)
    requires NoDuplicates(F)
    ensures files == Without(F, f) && key == PoppedKey(F, f)
  {
    files := F;
    ghost var found: Option<nat> := None;
    var i := 0;
    key := None;
    while i < |files|
      invariant found.None? ==> files == F && i <= |F| && f !in F[..i] && key == (if i == 0 then None else Some(F[i - 1]))
      invariant found.Some? ==>
        var j := found.value;
        && j < |F| && F[j] == f && files == F[..j] + F[j + 1..] && j < i && (i == j + 1 || i <= |F| - 1)
        && key == (if i == j + 1 then Some(f) else Some(F[i]))
      decreases |F| + 1 - i
    {
      key := Some(files[i]);
      if files[i] == f {
        assert found.None?;
        assert F[..i + 1] == F[..i] + [f];
        found := Some(i);
        files := files[..i] + files[i + 1..];
      }
      i := i + 1;
    }
    if found.None? {
      assert F[..|F|] == F;
      WithoutAbsent(F, f);
      PoppedKeyAbsent(F, f);
    } else {
      WithoutAt(F, found.value);
      PoppedKeyAt(F, f, found.value);
    }
  }

  /** For a name not in the list, the last key visited is the last element, if any. */
  lemma {:induction false} PoppedKeyAbsent(F: seq<string>, f: string)
    requires f !in F
    ensures PoppedKey(F, f) == if F == [] then None else Some(F[|F| - 1])
  {
    if |F| >= 2 {
      assert F[|F| - 2] in F;
    }
  }

  /** For a name at index j of a list without duplicates, the last key visited is the name itself when it is one of the last two elements, and the last element otherwise. */
  lemma {:induction false} PoppedKeyAt(F: seq<string>, f: string, j: nat)
    requires NoDuplicates(F) && j < |F| && F[j] == f
    ensures PoppedKey(F, f) == if j + 2 >= |F| then Some(f) else Some(F[|F| - 1])
  {
    if j + 2 < |F| {
      assert F[|F| - 1] != F[j] && F[|F| - 2] != F[j];
    }
  }

  /** Three tracked names, none renamed. */
  function ThreeFresh(): (d: Dict<Option<string>>)
    ensures d.Valid()
  {
    Dict(["a", "b", "c"], map["a" := None, "b" := None, "c" := None])
  }

  /** As written, pop("a") on the list [a, b, c] removes the entry of "c" from _old and keeps that of "a". */
  lemma {:induction false} PopNamePopsWrongKey()
    ensures PopNameSpec(["a", "b", "c"], ThreeFresh(), "a") == (Done, ["b", "c"], Dict(["a", "b"], map["a" := None, "b" := None]))
  {
    assert PoppedKey(["a", "b", "c"], "a") == Some("c");
    WithoutAt(["a", "b", "c"], 0);
    assert ["a", "b", "c"][1..] == ["b", "c"];
    assert Without(["a", "b", "c"], "c") == ["a", "b"];
    assert ThreeFresh().items - {"c"} == map["a" := None, "b" := None];
    var p := Pop(ThreeFresh(), "c");
    assert p.Ok? && p.value.1.keys == ["a", "b"] && p.value.1.items == map["a" := None, "b" := None];
    assert Without(["a", "b", "c"], "a") == ["b", "c"];
  }

  lemma {:induction false} PopNameSecond()
    ensures PopNameSpec(["b", "c"], Dict(["a", "b"], map["a" := None, "b" := None]), "b") == (Done, ["c"], Dict(["a"], map["a" := None]))
  {
    assert PoppedKey(["b", "c"], "b") == Some("b");
    WithoutAt(["b", "c"], 0);
    assert ["b", "c"][1..] == ["c"];
    assert Without(["a", "b"], "b") == ["a"];
    var m: map<string, Option<string>> := map["a" := None, "b" := None];
    assert m - {"b"} == map["a" := None];
    var p := Pop(Dict(["a", "b"], m), "b");
    assert p.Ok? && p.value.1.keys == ["a"] && p.value.1.items == map["a" := None];
    assert Without(["b", "c"], "b") == ["c"];
  }

  lemma {:induction false} PopNameThird()
    ensures PopNameSpec(["c"], Dict(["a"], map["a" := None]), "c").0 == Raised(KeyError)
  {
    assert PoppedKey(["c"], "c") == Some("c");
  }

  /** As written, clear() on three fresh names raises KeyError on the last one. */
  lemma {:induction false} ClearRaisesOnThree()
    ensures ClearSpec(["a", "b", "c"], ThreeFresh(), ["a", "b", "c"], false).0 == Raised(KeyError)
  {
    PopNamePopsWrongKey();
    PopNameSecond();
    PopNameThird();
    assert ["a", "b", "c"][1..] == ["b", "c"] && ["b", "c"][1..] == ["c"];
  }

  /** With the fix, clear() on a list whose names are exactly the keys of _old empties both. */
  lemma {:induction false} ClearFixedEmpties(files: seq<string>, d: Dict<Option<string>>)
    requires d.Valid() && NoDuplicates(files)
    requires forall f :: f in files <==> f in d.items
    ensures ClearSpec(files, d, files, true).0 == Done
    ensures ClearSpec(files, d, files, true).1 == []
    ensures ClearSpec(files, d, files, true).2.items == map[]
  {
    if files != [] {
      var (o, files1, d1) := PopNameFixedSpec(files, d, files[0]);
      WithoutAt(files, 0);
      assert files1 == files[1..];
      assert forall f :: f in files <==> f == files[0] || f in files[1..];
      ClearFixedEmpties(files1, d1);
    } else {
      assert d.items == map[];
    }
  }

  class FileSystemInterface {
    /** _files */
    var files: seq<string>
    /** _old */
    var origins: Dict<Option<string>>
    /** The file system os.rename works on. */
    const disk: Disk

    ghost predicate Valid()
      reads this
    {
      NoDuplicates(files) && origins.Valid()
    }

    /** The attribute assignments of __init__, once the assertions hold. */
    constructor (files: seq<string>, disk: Disk)
      requires NoDuplicates(files)
      ensures Valid()
      ensures this.files == files && origins == FromKeys(files, None) && this.disk == disk
    {
      this.files := files;
      origins := FromKeys(files, None);
      this.disk := disk;
    }

    /** rename(old, new) */
    method Rename(src: string, dst: string) returns (o: Outcome)
      requires Valid()
      modifies this, disk
      ensures Valid() && files == old(files)
      ensures (o, disk.names, origins) == RenameSpec(old(disk.names), old(origins), src, dst)
    {
      var ok := disk.Rename(src, dst);
      if !ok {
        return Raised(OSError);
      }
      origins := Assign(origins, dst, Some(src));
      var popped := Pop(origins, src);
      if popped.Err? {
        return Raised(popped.error);
      }
      origins := popped.value.1;
      return Done;
    }

    /** revert(files): an empty list stands for every key of _old, in dictionary order. */
    method Revert(keys: seq<string>) returns (o: Outcome)
      requires Valid()
      modifies this, disk
      ensures Valid() && files == old(files)
      ensures (o, disk.names, origins) == RevertSpec(old(disk.names), old(origins), if keys == [] then old(origins.keys) else keys)
    {
      var todo := if keys == [] then origins.keys else keys;
      ghost var names0, origins0 := disk.names, origins;
      for i := 0 to |todo|
        invariant Valid() && files == old(files)
        invariant RevertSpec(names0, origins0, todo) == RevertSpec(disk.names, origins, todo[i..])
      {
        assert todo[i..][1..] == todo[i + 1..];
        var k := todo[i];
        if k !in origins.items {
          return Raised(KeyError);
        }
        var target := origins.items[k];
        if target.None? {
          return Raised(TypeError);
        }
        o := Rename(k, target.value);
        if o.Raised? {
          return o;
        }
      }
      return Done;
    }

    /** pop(name) as written: the enumerate loop over _files, then _old.pop of the last name it visited. */
    method PopName(f: string) returns (o: Outcome)
      requires Valid()
      modifies this
      ensures Valid()
      ensures (o, files, origins) == PopNameSpec(old(files), old(origins), f)
    {
      var key;
      files, key := EnumeratePop(files, f);
      if key.None? {
        return Raised(UnboundLocalError);
      }
      var popped := Pop(origins, key.value);
      if popped.Err? {
        return Raised(KeyError);
      }
      origins := popped.value.1;
      return Done;
    }

    /** pop(name) as evidently meant: _old.pop(name) instead of the loop's last key. */
    method PopNameFixed(f: string) returns (o: Outcome)
      requires Valid()
      modifies this
      ensures Valid()
      ensures (o, files, origins) == PopNameFixedSpec(old(files), old(origins), f)
    {
      files := Without(files, f);
      var popped := Pop(origins, f);
      if popped.Err? {
        return Raised(KeyError);
      }
      origins := popped.value.1;
      return Done;
    }

    /** clear(): pop each tracked name in turn; `fixed` selects the corrected pop. */
    method Clear(fixed: bool) returns (o: Outcome)
      requires Valid()
      modifies this
      ensures Valid()
      ensures (o, files, origins) == ClearSpec(old(files), old(origins), old(files), fixed)
    {
      var snapshot := files;
      for i := 0 to |snapshot|
        invariant Valid()
        invariant ClearSpec(old(files), old(origins), snapshot, fixed) == ClearSpec(files, origins, snapshot[i..], fixed)
      {
        assert snapshot[i..][1..] == snapshot[i + 1..];
        if fixed {
          o := PopNameFixed(snapshot[i]);
        } else {
          o := PopName(snapshot[i]);
        }
        if o.Raised? {
          return o;
        }
      }
      return Done;
    }

    /**
     * extend(paths): the processed paths not yet tracked are appended (the
     * list is not sorted again) and reset to None in _old; AssertionError
     * when none of them is a file.
     */
    method Extend(found: seq<string>, isVideo: string -> bool, isFile: string -> bool) returns (o: Outcome)
      requires Valid()
      modifies this
      ensures Valid()
      ensures o.Raised? ==> o.error == AssertionError && files == old(files) && origins == old(origins)
      ensures o.Done? <==> exists f :: f in found && isVideo(f) && f !in old(files) && isFile(f)
      ensures o.Done? ==>
        && old(files) <= files
        && Sorted(files[|old(files)|..])
        && (forall f :: f in files[|old(files)|..] <==> f in found && isVideo(f) && f !in old(files))
        && origins == ResetAll(old(origins), files[|old(files)|..])
    {
      var processed := ProcessFiles(found, isVideo);
      var added := Missing(processed, files);
      var reachable := Files(added, isFile);
      if reachable == [] {
        return Raised(AssertionError);
      }
      assert reachable[0] in added;
      assert forall a, b :: 0 <= a < b < |files + added| ==> (files + added)[a] != (files + added)[b] by {
        forall a, b | 0 <= a < b < |files + added| ensures (files + added)[a] != (files + added)[b] {
          if b >= |files| && a < |files| {
            assert (files + added)[b] in added;
          }
        }
      }
      files := files + added;
      assert files[|old(files)|..] == added;
      origins := ResetAll(origins, added);
      return Done;
    }

    /** pop(i) with an integer: the list's pop, then _old.pop of the removed name. */
    method PopIndex(i: int) returns (o: Outcome)
      requires Valid()
      modifies this
      ensures Valid()
      ensures var k := ListIndex(|old(files)|, i);
        && (k.None? ==> o == Raised(IndexError) && files == old(files) && origins == old(origins))
        && (k.Some? ==>
              var key := old(files)[k.value];
              && files == old(files)[..k.value] + old(files)[k.value + 1..]
              && (if key in old(origins).items then o == Done && origins == Pop(old(origins), key).value.1
                  else o == Raised(KeyError) && origins == old(origins)))
    {
      var k := ListIndex(|files|, i);
      if k.None? {
        return Raised(IndexError);
      }
      var key := files[k.value];
      files := files[..k.value] + files[k.value + 1..];
      assert forall a, b :: 0 <= a < b < |files| ==> files[a] != files[b] by {
        forall a, b | 0 <= a < b < |files| ensures files[a] != files[b] {
          var a0 := if a < k.value then a else a + 1;
          var b0 := if b < k.value then b else b + 1;
          assert files[a] == old(files)[a0] && files[b] == old(files)[b0];
        }
      }
      var popped := Pop(origins, key);
      if popped.Err? {
        return Raised(KeyError);
      }
      origins := popped.value.1;
      return Done;
    }
  }

  /**
   * FileSystemInterface(media): the processed paths, AssertionError when
   * there are none or none of them is a file, and _old mapping each to None.
   */
  method Open(found: seq<string>, isVideo: string -> bool, isFile: string -> bool, disk: Disk) returns (r: Result<FileSystemInterface>)
    ensures r.Err? ==> r.error == AssertionError
    ensures r.Ok? <==> exists f :: f in found && isVideo(f) && isFile(f)
    ensures r.Ok? ==>
      && fresh(r.value) && r.value.Valid() && r.value.disk == disk
      && Sorted(r.value.files)
      && (forall f :: f in r.value.files <==> f in found && isVideo(f))
      && r.value.origins.keys == r.value.files
      && (forall f :: f in r.value.origins.items ==> r.value.origins.items[f] == None)
  {
    var files := ProcessFiles(found, isVideo);
    if files == [] {
      return Err(AssertionError);
    }
    if Files(files, isFile) == [] {
      return Err(AssertionError);
    }
    assert Files(files, isFile)[0] in files;
    var fs := new FileSystemInterface(files, disk);
    return Ok(fs);
  }
}
