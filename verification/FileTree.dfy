/** A sorted list of file paths, given as the entries of the directory tree that holds the files. */
module FileTree {
  import opened Collections
  import opened Wrappers

  type Path = seq<string>

  datatype TreeEntry = Dir(path: Path) | File(path: Path) | EndDir

  // ---------- The order of paths ----------

  predicate NameLe(a: string, b: string) {
    a == [] || (b != [] && (a[0] < b[0] || (a[0] == b[0] && NameLe(a[1..], b[1..]))))
  }

  predicate NameLt(a: string, b: string) {
    a != b && NameLe(a, b)
  }

  /** Component by component, where a path comes before those that it starts. */
  predicate PathLe(p: Path, q: Path) {
    p == [] || (q != [] && (NameLt(p[0], q[0]) || (p[0] == q[0] && PathLe(p[1..], q[1..]))))
  }

  predicate Sorted(paths: seq<Path>) {
    forall i | 0 <= i < |paths| - 1 :: PathLe(paths[i], paths[i + 1])
  }

  lemma {:induction false} NameLeIsAntisymmetric(a: string, b: string)
    requires NameLe(a, b) && NameLe(b, a)
    ensures a == b
  {
    if a != [] {
      NameLeIsAntisymmetric(a[1..], b[1..]);
      assert a == [a[0]] + a[1..] && b == [b[0]] + b[1..];
    }
  }

  lemma {:induction false} NameLeIsTransitive(a: string, b: string, c: string)
    requires NameLe(a, b) && NameLe(b, c)
    ensures NameLe(a, c)
  {
    if a != [] && a[0] == b[0] == c[0] {
      NameLeIsTransitive(a[1..], b[1..], c[1..]);
    }
  }

  lemma NameLtIsTransitive(a: string, b: string, c: string)
    requires NameLt(a, b) && NameLt(b, c)
    ensures NameLt(a, c)
  {
    NameLeIsTransitive(a, b, c);
    if a == c {
      NameLeIsAntisymmetric(a, b);
    }
  }

  lemma {:induction false} PathLeIsTransitive(p: Path, q: Path, r: Path)
    requires PathLe(p, q) && PathLe(q, r)
    ensures PathLe(p, r)
  {
    if p != [] {
      if NameLt(p[0], q[0]) && NameLt(q[0], r[0]) {
        NameLtIsTransitive(p[0], q[0], r[0]);
      } else if p[0] == q[0] == r[0] {
        PathLeIsTransitive(p[1..], q[1..], r[1..]);
      }
    }
  }

  lemma {:induction false} SortedInOrder(paths: seq<Path>, i: nat, j: nat)
    requires Sorted(paths) && i < j < |paths|
    ensures PathLe(paths[i], paths[j])
    decreases j
  {
    if i < j - 1 {
      SortedInOrder(paths, i, j - 1);
      PathLeIsTransitive(paths[i], paths[j - 1], paths[j]);
    }
  }

  predicate Inside(dir: Path, p: Path) {
    dir <= p && |dir| < |p|
  }

  lemma {:induction false} DirComesFirst(dir: Path, p: Path)
    requires Inside(dir, p)
    ensures !PathLe(p, dir)
  {
    if dir != [] {
      assert p[0] == dir[0];
      assert dir[1..] <= p[1..];
      DirComesFirst(dir[1..], p[1..]);
    }
  }

  /** The files of a directory lie next to each other. */
  lemma {:induction false} PrefixBetween(dir: Path, p: Path, q: Path, r: Path)
    requires PathLe(p, q) && PathLe(q, r) && dir <= p && dir <= r
    ensures dir <= q
  {
    if dir != [] {
      assert p[0] == dir[0] && r[0] == dir[0];
      if p[0] != q[0] {
        NameLeIsAntisymmetric(p[0], q[0]);
      }
      PrefixBetween(dir[1..], p[1..], q[1..], r[1..]);
      assert dir == [dir[0]] + dir[1..] && q == [q[0]] + q[1..];
    }
  }

  // ---------- What a list of entries means ----------

  /** The directories open after the entries, and the files seen; undefined if an entry does not fit where it stands. */
  datatype Replayed = Replayed(open: Path, files: seq<Path>)

  function Replay(entries: seq<TreeEntry>): Option<Replayed> {
    if entries == [] then Some(Replayed([], []))
    else
      match Replay(entries[..|entries| - 1])
      case None => None
      case Some(before) => ReplayOne(before, entries[|entries| - 1])
  }

  function ReplayOne(before: Replayed, entry: TreeEntry): Option<Replayed> {
    match entry
    case Dir(path) => if path != [] && path[..|path| - 1] == before.open then Some(before.(open := path)) else None
    case File(path) =>
      if path != [] && path[..|path| - 1] == before.open then Some(before.(files := before.files + [path])) else None
    case EndDir => if before.open == [] then None else Some(before.(open := before.open[..|before.open| - 1]))
  }

  predicate OpensNoneTwice(entries: seq<TreeEntry>) {
    forall i, j | 0 <= i < j < |entries| && entries[i].Dir? && entries[j].Dir? :: entries[i].path != entries[j].path
  }

  lemma ReplayPush(entries: seq<TreeEntry>, entry: TreeEntry)
    requires Replay(entries).Some?
    ensures Replay(entries + [entry]) == ReplayOne(Replay(entries).value, entry)
  {
    assert (entries + [entry])[..|entries|] == entries;
  }

  // ---------- The walk of the tree ----------

  /** How many of the first paths are in the directory. */
  function Leading(ps: seq<Path>, dir: Path): (n: nat)
    ensures n <= |ps| && (forall i | 0 <= i < n :: Inside(dir, ps[i])) && (n < |ps| ==> !Inside(dir, ps[n]))
  {
    if ps == [] || !Inside(dir, ps[0]) then 0 else 1 + Leading(ps[1..], dir)
  }

  /** The entries of a directory at some depth: its files, and its directories, each walked in full before what follows. */
  function Walk(ps: seq<Path>, depth: nat): seq<TreeEntry>
    requires forall i | 0 <= i < |ps| :: |ps[i]| > depth
    decreases |ps|, if ps == [] then 0 else |ps[0]| - depth
  {
    if ps == [] then []
    else if |ps[0]| == depth + 1 then [File(ps[0])] + Walk(ps[1..], depth)
    else
      var dir := ps[0][..depth + 1];
      var n := Leading(ps, dir);
      [Dir(dir)] + Walk(ps[..n], depth + 1) + [EndDir] + Walk(ps[n..], depth)
  }

  /** What is left of the walk, in the innermost of these directories first. */
  function ToCome(ps: seq<Path>, dirs: Path): seq<TreeEntry>
    decreases |dirs|
  {
    var n := Leading(ps, dirs);
    Walk(ps[..n], |dirs|) + if dirs == [] then [] else [EndDir] + ToCome(ps[n..], dirs[..|dirs| - 1])
  }

  lemma {:induction false} LeadingIs(ps: seq<Path>, dir: Path, n: nat)
    requires n <= |ps| && (forall i | 0 <= i < n :: Inside(dir, ps[i])) && (n < |ps| ==> !Inside(dir, ps[n]))
    ensures Leading(ps, dir) == n
  {
    if n > 0 {
      LeadingIs(ps[1..], dir, n - 1);
    }
  }

  lemma ComeEnd(ps: seq<Path>, dirs: Path)
    requires dirs != [] && (ps != [] ==> !Inside(dirs, ps[0]))
    ensures ToCome(ps, dirs) == [EndDir] + ToCome(ps, dirs[..|dirs| - 1])
  {
    assert ps[0..] == ps && ps[..0] == [];
  }

  lemma ComeFile(ps: seq<Path>, dirs: Path)
    requires ps != [] && Inside(dirs, ps[0]) && |ps[0]| == |dirs| + 1
    ensures ToCome(ps, dirs) == [File(ps[0])] + ToCome(ps[1..], dirs)
  {
    var n := Leading(ps, dirs);
    assert ps[..n][1..] == ps[1..][..n - 1] && ps[n..] == ps[1..][n - 1..];
    var outer := if dirs == [] then [] else [EndDir] + ToCome(ps[n..], dirs[..|dirs| - 1]);
    Associative([File(ps[0])], Walk(ps[1..][..n - 1], |dirs|), outer);
  }

  function AfterDir(ps: seq<Path>, dirs: Path): seq<TreeEntry> {
    if dirs == [] then [] else [EndDir] + ToCome(ps, dirs[..|dirs| - 1])
  }

  lemma ToComeIs(ps: seq<Path>, dirs: Path, n: nat)
    requires n == Leading(ps, dirs)
    ensures ToCome(ps, dirs) == Walk(ps[..n], |dirs|) + AfterDir(ps[n..], dirs)
  {}

  lemma WalkDir(ps: seq<Path>, depth: nat)
    requires (forall i | 0 <= i < |ps| :: |ps[i]| > depth) && ps != [] && |ps[0]| > depth + 1
    ensures var dir := ps[0][..depth + 1];
      var k := Leading(ps, dir);
      Walk(ps, depth) == [Dir(dir)] + Walk(ps[..k], depth + 1) + [EndDir] + Walk(ps[k..], depth)
  {}

  /** A directory's leading paths are among those of the directory around it. */
  lemma LeadingInside(ps: seq<Path>, dirs: Path, dir: Path)
    requires Inside(dirs, dir)
    ensures Leading(ps, dir) <= Leading(ps, dirs)
    ensures Leading(ps[..Leading(ps, dirs)], dir) == Leading(ps, dir)
    ensures Leading(ps[Leading(ps, dir)..], dirs) == Leading(ps, dirs) - Leading(ps, dir)
  {
    var n, k := Leading(ps, dirs), Leading(ps, dir);
    forall i | 0 <= i < k
      ensures Inside(dirs, ps[i])
    {
      assert Inside(dir, ps[i]);
    }
    LeadingIs(ps[..n], dir, k);
    LeadingIs(ps[k..], dirs, n - k);
  }

  /** Behind a directory comes its end, then what is left of the one around it. */
  lemma ComesBehind(ps: seq<Path>, dirs: Path, dir: Path, n: nat, k: nat)
    requires |dir| == |dirs| + 1 && dir[..|dirs|] == dirs && Inside(dirs, dir) && n == Leading(ps, dirs) && k == Leading(ps, dir)
    ensures k <= n
    ensures ToCome(ps, dir) == Walk(ps[..k], |dir|) + ([EndDir] + (Walk(ps[k..][..n - k], |dirs|) + AfterDir(ps[n..], dirs)))
  {
    hide Walk, ToCome, Leading;
    LeadingInside(ps, dirs, dir);
    ToComeIs(ps, dir, k);
    ToComeIs(ps[k..], dirs, n - k);
    TakeAndDrop(ps, k, n);
  }

  /** The walk of the directories around one starts with that one, from its first entry to its end. */
  lemma WalkParts(around: seq<Path>, dirs: Path, dir: Path, inside: seq<Path>, behind: seq<Path>)
    requires around != [] && Inside(dirs, around[0]) && |around[0]| > |dirs| + 1 && dir == around[0][..|dirs| + 1]
    requires forall i | 0 <= i < |around| :: |around[i]| > |dirs|
    requires inside == around[..Leading(around, dir)] && behind == around[Leading(around, dir)..]
    ensures (forall i | 0 <= i < |inside| :: |inside[i]| > |dirs| + 1) && (forall i | 0 <= i < |behind| :: |behind[i]| > |dirs|)
    ensures Walk(around, |dirs|) == [Dir(dir)] + Walk(inside, |dir|) + [EndDir] + Walk(behind, |dirs|)
  {
    WalkDir(around, |dirs|);
  }

  lemma StartsInside(ps: seq<Path>, dirs: Path, n: nat)
    requires ps != [] && Inside(dirs, ps[0]) && n == Leading(ps, dirs)
    ensures ps[..n] != [] && ps[..n][0] == ps[0] && forall i | 0 <= i < n :: |ps[..n][i]| > |dirs|
  {}

  lemma ComeDir(ps: seq<Path>, dirs: Path, dir: Path)
    requires ps != [] && Inside(dirs, ps[0]) && |ps[0]| > |dirs| + 1 && dir == ps[0][..|dirs| + 1]
    ensures ToCome(ps, dirs) == [Dir(dir)] + ToCome(ps, dir)
  {
    hide Walk, ToCome, Leading, AfterDir;
    var n, k := Leading(ps, dirs), Leading(ps, dir);
    IsInside(ps[0], dirs, dir);
    LeadingInside(ps, dirs, dir);
    StartsInside(ps, dirs, n);
    TakeAndDrop(ps, k, n);
    WalkParts(ps[..n], dirs, dir, ps[..k], ps[k..][..n - k]);
    ToComeIs(ps, dirs, n);
    ComesBehind(ps, dirs, dir, n, k);
    hide *;
    JoinWalk(ToCome(ps, dirs), ToCome(ps, dir), Dir(dir), Walk(ps[..k], |dir|), Walk(ps[k..][..n - k], |dirs|), AfterDir(ps[n..], dirs));
  }

  lemma IsInside(p: Path, dirs: Path, dir: Path)
    requires Inside(dirs, p) && |p| > |dirs| + 1 && dir == p[..|dirs| + 1]
    ensures |dir| == |dirs| + 1 && dir[..|dirs|] == dirs && Inside(dirs, dir)
  {}

  lemma JoinWalk(all: seq<TreeEntry>, inside: seq<TreeEntry>, first: TreeEntry, inner: seq<TreeEntry>, next: seq<TreeEntry>,
                 outer: seq<TreeEntry>)
    requires all == [first] + inner + [EndDir] + next + outer && inside == inner + ([EndDir] + (next + outer))
    ensures all == [first] + inside
  {
    JoinInward([first], inner, [EndDir], next, outer);
  }

  lemma AllToCome(ps: seq<Path>)
    requires forall i | 0 <= i < |ps| :: ps[i] != []
    ensures ToCome(ps, []) == Walk(ps, 0) && ToCome([], []) == []
  {
    LeadingIs(ps, [], |ps|);
    assert ps[..|ps|] == ps && Walk(ps, 0) + [] == Walk(ps, 0);
  }

  // ---------- The iterator ----------

  /** A directory that was opened is still open, or holds none of the paths to come. */
  predicate Settled(dir: Path, open: Path, rest: seq<Path>) {
    dir <= open || forall k | 0 <= k < |rest| :: !Inside(dir, rest[k])
  }

  predicate AllSettled(entries: seq<TreeEntry>, open: Path, rest: seq<Path>) {
    forall i | 0 <= i < |entries| && entries[i].Dir? :: Settled(entries[i].path, open, rest)
  }

  predicate HoldsFiles(entries: seq<TreeEntry>, paths: seq<Path>) {
    forall i | 0 <= i < |entries| && entries[i].Dir? :: exists k | 0 <= k < |paths| :: Inside(entries[i].path, paths[k])
  }

  /** Closing the innermost directory settles it. */
  lemma CloseSettled(entries: seq<TreeEntry>, open: Path, rest: seq<Path>)
    requires AllSettled(entries, open, rest) && open != [] && forall k | 0 <= k < |rest| :: !Inside(open, rest[k])
    ensures AllSettled(entries, open[..|open| - 1], rest)
  {
    forall i | 0 <= i < |entries| && entries[i].Dir?
      ensures Settled(entries[i].path, open[..|open| - 1], rest)
    {
      assert Settled(entries[i].path, open, rest);
      if entries[i].path <= open && |entries[i].path| == |open| {
        assert entries[i].path == open;
      }
    }
  }

  lemma EndAdded(entries: seq<TreeEntry>, open: Path, rest: seq<Path>, paths: seq<Path>)
    requires AllSettled(entries, open, rest) && OpensNoneTwice(entries) && HoldsFiles(entries, paths)
    ensures AllSettled(entries + [EndDir], open, rest)
    ensures OpensNoneTwice(entries + [EndDir]) && HoldsFiles(entries + [EndDir], paths)
  {}

  /** A directory that the next path is in, and that is not open, was never opened before. */
  lemma DirAdded(entries: seq<TreeEntry>, open: Path, dir: Path, rest: seq<Path>, paths: seq<Path>)
    requires AllSettled(entries, open, rest) && OpensNoneTwice(entries) && HoldsFiles(entries, paths)
    requires Inside(open, dir) && rest != [] && Inside(dir, rest[0]) && rest[0] in paths
    ensures AllSettled(entries + [Dir(dir)], dir, rest)
    ensures OpensNoneTwice(entries + [Dir(dir)]) && HoldsFiles(entries + [Dir(dir)], paths)
  {
    forall i | 0 <= i < |entries| && entries[i].Dir?
      ensures entries[i].path != dir && Settled(entries[i].path, dir, rest)
    {
      assert Settled(entries[i].path, open, rest);
    }
  }

  lemma FileAdded(entries: seq<TreeEntry>, open: Path, file: Path, rest: seq<Path>, paths: seq<Path>)
    requires AllSettled(entries, open, rest) && OpensNoneTwice(entries) && HoldsFiles(entries, paths) && rest != []
    ensures AllSettled(entries + [File(file)], open, rest[1..])
    ensures OpensNoneTwice(entries + [File(file)]) && HoldsFiles(entries + [File(file)], paths)
  {
    forall i | 0 <= i < |entries| && entries[i].Dir?
      ensures Settled(entries[i].path, open, rest[1..])
    {
      assert Settled(entries[i].path, open, rest);
    }
  }

  class Tree {
    const paths: seq<Path>
    var cursor: nat
    var dirs: Path
    ghost var emitted: seq<TreeEntry>

    /** The open directories are those of the last file, or of the next one. */
    predicate Standing()
      reads this
      requires cursor <= |paths|
    {
      || dirs == []
      || (cursor < |paths| && Inside(dirs, paths[cursor]))
      || (cursor > 0 && Inside(dirs, paths[cursor - 1]))
    }

    ghost predicate Valid()
      reads this
    {
      && Sorted(paths) && (forall i | 0 <= i < |paths| :: paths[i] != [])
      && cursor <= |paths| && Standing()
      && Replay(emitted) == Some(Replayed(dirs, paths[..cursor]))
      && OpensNoneTwice(emitted) && HoldsFiles(emitted, paths)
      && AllSettled(emitted, dirs, paths[cursor..])
    }

    constructor (paths: seq<Path>)
      requires Sorted(paths) && forall i | 0 <= i < |paths| :: paths[i] != []
      ensures Valid() && this.paths == paths && emitted == [] && cursor == 0 && dirs == []
    {
      this.paths, cursor, dirs, emitted := paths, 0, [], [];
    }

    /** How many entries there may be before the next file, or before the end. */
    ghost function Distance(): nat
      reads this
      requires cursor <= |paths|
    {
      if cursor == |paths| then |dirs|
      else if dirs <= paths[cursor] && |dirs| <= |paths[cursor]| then |paths[cursor]| - |dirs|
      else |paths[cursor]| + |dirs| + 1
    }

    /** None of the paths to come is in the innermost directory any more. */
    lemma InnermostIsDone()
      requires Valid() && dirs != [] && (cursor < |paths| ==> !(dirs <= paths[cursor]))
      ensures forall k | cursor <= k < |paths| :: !Inside(dirs, paths[k])
      ensures cursor > 0 && Inside(dirs, paths[cursor - 1])
    {
      forall k | cursor <= k < |paths|
        ensures !Inside(dirs, paths[k])
      {
        if k > cursor && Inside(dirs, paths[k]) {
          SortedInOrder(paths, cursor, k);
          PrefixBetween(dirs, paths[cursor - 1], paths[cursor], paths[k]);
        }
      }
    }

    /** The open directories never use up the whole next path, so there is a component left to look at. */
    lemma ComponentIsLeft()
      requires Valid() && cursor < |paths| && dirs <= paths[cursor]
      ensures |dirs| < |paths[cursor]|
    {
      if dirs == paths[cursor] {
        assert cursor > 0 && Inside(dirs, paths[cursor - 1]);
        DirComesFirst(dirs, paths[cursor - 1]);
        assert false;
      }
    }

    ghost function Left(): seq<TreeEntry>
      reads this
      requires cursor <= |paths|
    {
      ToCome(paths[cursor..], dirs)
    }

    method CloseInnermost() returns (entry: TreeEntry)
      requires Valid() && dirs != [] && (cursor < |paths| ==> !(dirs <= paths[cursor]))
      modifies this`dirs, this`emitted
      ensures Valid() && entry == EndDir && emitted == old(emitted) + [entry] && Distance() < old(Distance())
      ensures old(Left()) == [entry] + Left()
    {
      hide AllSettled, OpensNoneTwice, HoldsFiles, Sorted, Replay, ToCome;
      InnermostIsDone();
      ReplayPush(emitted, EndDir);
      CloseSettled(emitted, dirs, paths[cursor..]);
      ComeEnd(paths[cursor..], dirs);
      EndAdded(emitted, dirs[..|dirs| - 1], paths[cursor..], paths);
      entry := EndDir;
      dirs := dirs[..|dirs| - 1];
      emitted := emitted + [EndDir];
    }

    method OpenNext() returns (entry: TreeEntry)
      requires Valid() && cursor < |paths| && dirs <= paths[cursor] && |dirs| + 1 < |paths[cursor]|
      modifies this`dirs, this`emitted
      ensures Valid() && entry == Dir(dirs) && emitted == old(emitted) + [entry] && Distance() < old(Distance())
      ensures old(Left()) == [entry] + Left()
    {
      hide AllSettled, OpensNoneTwice, HoldsFiles, Sorted, Replay, ToCome;
      var path := paths[cursor][..|dirs| + 1];
      assert path[..|path| - 1] == dirs && Inside(path, paths[cursor]);
      ReplayPush(emitted, Dir(path));
      assert paths[cursor..][0] == paths[cursor];
      DirAdded(emitted, dirs, path, paths[cursor..], paths);
      ComeDir(paths[cursor..], dirs, path);
      entry := Dir(path);
      dirs := path;
      emitted := emitted + [entry];
    }

    method GiveFile() returns (entry: TreeEntry)
      requires Valid() && cursor < |paths| && dirs <= paths[cursor] && |dirs| + 1 == |paths[cursor]|
      modifies this`cursor, this`emitted
      ensures Valid() && entry == File(old(paths[cursor])) && emitted == old(emitted) + [entry] && cursor == old(cursor) + 1
      ensures old(Left()) == [entry] + Left()
    {
      hide AllSettled, OpensNoneTwice, HoldsFiles, Sorted, Replay, ToCome;
      entry := File(paths[cursor]);
      assert paths[cursor][..|paths[cursor]| - 1] == dirs;
      assert paths[..cursor + 1] == paths[..cursor] + [paths[cursor]];
      ReplayPush(emitted, entry);
      FileAdded(emitted, dirs, paths[cursor], paths[cursor..], paths);
      ComeFile(paths[cursor..], dirs);
      assert paths[cursor..][1..] == paths[cursor + 1..];
      cursor := cursor + 1;
      emitted := emitted + [entry];
    }

    /** The next entry, if there is one; it always has a component to look at, so it never panics. */
    method Next() returns (entry: Option<TreeEntry>)
      requires Valid()
      modifies this`cursor, this`dirs, this`emitted
      ensures Valid()
      ensures entry.None? ==> cursor == |paths| && dirs == [] && emitted == old(emitted)
      ensures entry.Some? ==> emitted == old(emitted) + [entry.value] && old(Left()) == [entry.value] + Left()
      ensures entry.Some? ==> cursor > old(cursor) || (cursor == old(cursor) && Distance() < old(Distance()))
    {
      hide AllSettled, OpensNoneTwice, HoldsFiles, Sorted, Replay, ToCome;
      if cursor == |paths| {
        if dirs == [] {
          return None;
        }
        var e := CloseInnermost();
        return Some(e);
      }
      var path := paths[cursor];
      for k := 0 to |dirs|
        invariant k <= |path| && dirs[..k] == path[..k]
        invariant Valid() && dirs == old(dirs) && cursor == old(cursor) && emitted == old(emitted)
      {
        if k == |path| || path[k] != dirs[k] {
          assert !(dirs <= path);
          var e := CloseInnermost();
          return Some(e);
        }
        assert dirs[..k + 1] == dirs[..k] + [dirs[k]] && path[..k + 1] == path[..k] + [path[k]];
      }
      ComponentIsLeft();
      if |path| - |dirs| - 1 >= 1 {
        var e := OpenNext();
        return Some(e);
      }
      var e := GiveFile();
      return Some(e);
    }

    /**
     * All entries are the walk of the tree: they hold exactly these files in their order, in the directories that their
     * paths name, each opened once and closed.
     */
    method All() returns (entries: seq<TreeEntry>)
      requires Valid() && emitted == [] && cursor == 0 && dirs == []
      modifies this
      ensures (forall i | 0 <= i < |paths| :: |paths[i]| > 0) && entries == Walk(paths, 0)
      ensures Replay(entries) == Some(Replayed([], paths))
      ensures OpensNoneTwice(entries) && HoldsFiles(entries, paths)
    {
      hide AllSettled, OpensNoneTwice, HoldsFiles, Sorted, Replay, ToCome;
      entries := [];
      assert paths[0..] == paths;
      AllToCome(paths);
      while true
        invariant Valid() && entries == emitted && entries + Left() == Walk(paths, 0)
        decreases |paths| - cursor, Distance()
      {
        var entry := Next();
        if entry.None? {
          break;
        }
        Associative(entries, [entry.value], Left());
        entries := entries + [entry.value];
      }
      assert paths[..cursor] == paths && paths[cursor..] == [];
    }
  }
}
