/** Normalising and sealing modes, writing the manifest, and why the digest taken before
    sealing and renaming is the one recomputed afterwards (scripts/leitstand-release.py). */
module ReleaseBuild {
  import opened Common
  import opened PathText
  import opened ByteCodec
  import opened DigestStream
  import opened ReleaseTree

  // ---------------------------------------------------------------- modes

  const PRIVATE := Modes(0x1C0, 0x1C0, 0x180) // 0700, 0700, 0600
  const SEALED := Modes(0x140, 0x140, 0x100)  // 0500, 0500, 0400

  datatype Modes = Modes(directory: nat, executable: nat, plain: nat)

  /** `private_release_permissions` and `seal_release` as functions of the tree. */
  function Chmod(node: Node, m: Modes): Node
    decreases node, 1, 0
  {
    match node
    case Directory(_, entries) => Directory(m.directory, ChmodAll(entries, m, node))
    case Regular(mode, content) => Regular(if Executable(mode) then m.executable else m.plain, content)
    case Symlink(_) => node
    case Special => node
  }

  function ChmodAll(s: seq<Entry>, m: Modes, ghost parent: Node): (r: seq<Entry>)
    requires parent.Directory? && forall e :: e in s ==> e in parent.entries
    ensures |r| == |s|
    ensures forall i :: 0 <= i < |s| ==> s[i] in parent.entries && r[i] == Entry(s[i].name, Chmod(s[i].node, m))
    decreases parent, 0, |s|
  {
    if s == [] then []
    else
      assert s[0] in parent.entries;
      [Entry(s[0].name, Chmod(s[0].node, m))] + ChmodAll(s[1..], m, parent)
  }

  predicate KeepsExecutable(m: Modes) {
    Executable(m.executable) && !Executable(m.plain)
  }

  lemma BothKeepExecutable()
    ensures KeepsExecutable(PRIVATE) && KeepsExecutable(SEALED)
  {
  }

  /** `b` is `a` after a change of modes, entry by entry. */
  ghost predicate Moded(a: seq<Entry>, b: seq<Entry>, m: Modes) {
    |a| == |b| && forall i :: 0 <= i < |a| ==> b[i] == Entry(a[i].name, Chmod(a[i].node, m))
  }

  lemma {:induction false} OnlyModed(place: Place, dir: Path, a: seq<Entry>, b: seq<Entry>, m: Modes, directories: bool)
    requires Moded(a, b, m)
    ensures Moded(Only(place, dir, a, directories), Only(place, dir, b, directories), m)
  {
    if a != [] { OnlyModed(place, dir, a[1..], b[1..], m, directories); }
  }

  lemma {:induction false} InsertModed(e: Entry, s: seq<Entry>, t: seq<Entry>, m: Modes)
    requires Moded(s, t, m)
    ensures Moded(InsertEntry(e, s), InsertEntry(Entry(e.name, Chmod(e.node, m)), t), m)
  {
    if s != [] && !NameLess(e.name, s[0].name) { InsertModed(e, s[1..], t[1..], m); }
  }

  lemma {:induction false} SortModed(a: seq<Entry>, b: seq<Entry>, m: Modes)
    requires Moded(a, b, m)
    ensures Moded(SortEntries(a), SortEntries(b), m)
  {
    if a != [] {
      SortModed(a[1..], b[1..], m);
      InsertModed(a[0], SortEntries(a[1..]), SortEntries(b[1..]), m);
    }
  }

  lemma {:induction false} RecordsOfModed(dir: Path, a: seq<Entry>, b: seq<Entry>, m: Modes)
    requires Moded(a, b, m) && KeepsExecutable(m)
    ensures RecordsOf(dir, a) == RecordsOf(dir, b)
  {
    if a != [] { RecordsOfModed(dir, a[1..], b[1..], m); }
  }

  /** Changing modes changes no record: only the executable bit is hashed. */
  lemma {:induction false} RecordsModed(place: Place, dir: Path, node: Node, m: Modes)
    requires node.Directory? && KeepsExecutable(m)
    ensures Records(place, dir, Chmod(node, m)) == Records(place, dir, node)
    decreases node, 1, 0
  {
    var a, b := node.entries, Chmod(node, m).entries;
    assert Moded(a, b, m);
    OnlyModed(place, dir, a, b, m, true);
    OnlyModed(place, dir, a, b, m, false);
    var dirs, dirs' := Dirs(place, dir, a), Dirs(place, dir, b);
    SortModed(Only(place, dir, a, true), Only(place, dir, b, true), m);
    SortModed(Only(place, dir, a, false), Only(place, dir, b, false), m);
    RecordsOfModed(dir, dirs, dirs', m);
    RecordsOfModed(dir, Others(place, dir, a), Others(place, dir, b), m);
    BelowModed(place, dir, dirs, dirs', node, Chmod(node, m), m);
  }

  lemma {:induction false} BelowModed(place: Place, dir: Path, a: seq<Entry>, b: seq<Entry>, node: Node, node': Node,
                                      m: Modes)
    requires node.Directory? && node'.Directory? && Moded(a, b, m) && KeepsExecutable(m)
    requires (forall e :: e in a ==> e in node.entries) && (forall e :: e in b ==> e in node'.entries)
    ensures Below(place, dir, a, node) == Below(place, dir, b, node')
    decreases node, 0, |a|
  {
    if a != [] {
      assert a[0] in node.entries;
      if a[0].node.Directory? { RecordsModed(place, dir + [a[0].name], a[0].node, m); }
      BelowModed(place, dir, a[1..], b[1..], node, node', m);
    }
  }

  /** Nor does it change whether the walk raises. */
  lemma {:induction false} WalkableModed(place: Place, dir: Path, node: Node, m: Modes)
    requires node.Directory?
    ensures Walkable(place, dir, Chmod(node, m)) <==> Walkable(place, dir, node)
    decreases node
  {
    var a, b := node.entries, Chmod(node, m).entries;
    forall i | 0 <= i < |a|
      ensures EntryWalks(place, dir, a[i]) <==> EntryWalks(place, dir, b[i])
    {
      if a[i].node.Directory? { WalkableModed(place, dir + [a[i].name], a[i].node, m); }
    }
    WalkableByIndex(place, dir, node);
    WalkableByIndex(place, dir, Chmod(node, m));
  }

  ghost predicate EntryWalks(place: Place, dir: Path, e: Entry) {
    Acceptable(place, dir, e) && (e.node.Directory? ==> Walkable(place, dir + [e.name], e.node))
  }

  lemma WalkableByIndex(place: Place, dir: Path, node: Node)
    requires node.Directory?
    ensures Walkable(place, dir, node) <==>
      forall i :: 0 <= i < |node.entries| ==> EntryWalks(place, dir, node.entries[i])
  {
    if forall i :: 0 <= i < |node.entries| ==> EntryWalks(place, dir, node.entries[i]) {
      forall e | e in node.entries ensures EntryWalks(place, dir, e) {
        var i :| 0 <= i < |node.entries| && node.entries[i] == e;
      }
    }
  }

  lemma {:induction false} FilesModed(at: Path, node: Node, m: Modes)
    ensures FilesOf(at, Chmod(node, m)) == FilesOf(at, node)
    decreases node, 1, 0
  {
    if node.Directory? {
      EntriesFilesModed(at, node.entries, Chmod(node, m).entries, node, Chmod(node, m), m);
    }
  }

  lemma {:induction false} EntriesFilesModed(dir: Path, a: seq<Entry>, b: seq<Entry>, node: Node, node': Node, m: Modes)
    requires node.Directory? && node'.Directory? && Moded(a, b, m)
    requires (forall e :: e in a ==> e in node.entries) && (forall e :: e in b ==> e in node'.entries)
    ensures FilesOfEntries(dir, a, node) == FilesOfEntries(dir, b, node')
    decreases node, 0, |a|
  {
    if a != [] {
      assert a[0] in node.entries;
      FilesModed(dir + [a[0].name], a[0].node, m);
      EntriesFilesModed(dir, a[1..], b[1..], node, node', m);
    }
  }

  // ---------------------------------------------------------------- the manifest

  /** `s` without entries named like the manifest. */
  function Drop(s: seq<Entry>): (r: seq<Entry>)
    ensures forall x :: x in r <==> x in s && x.name != MANIFEST
  {
    if s == [] then []
    else
      assert s == [s[0]] + s[1..];
      if s[0].name == MANIFEST then Drop(s[1..]) else [s[0]] + Drop(s[1..])
  }

  lemma {:induction false} InsertSorted(e: Entry, s: seq<Entry>)
    requires IsSorted(s)
    ensures IsSorted(InsertEntry(e, s))
  {
    NameOrderTotal();
    if s == [] || NameLess(e.name, s[0].name) {
      assert forall x :: x in s ==> !NameLess(x.name, e.name);
    } else {
      InsertSorted(e, s[1..]);
      assert forall x :: x in InsertEntry(e, s[1..]) ==> !NameLess(x.name, s[0].name);
    }
  }

  lemma {:induction false} SortIsSorted(s: seq<Entry>)
    ensures IsSorted(SortEntries(s))
  {
    if s != [] {
      SortIsSorted(s[1..]);
      InsertSorted(s[0], SortEntries(s[1..]));
    }
  }

  lemma {:induction false} DropInsert(e: Entry, s: seq<Entry>)
    requires IsSorted(s)
    ensures Drop(InsertEntry(e, s)) == if e.name == MANIFEST then Drop(s) else InsertEntry(e, Drop(s))
  {
    if s != [] {
      if NameLess(e.name, s[0].name) {
        NameOrderTotal();
        assert ([e] + s)[1..] == s;
        assert forall x :: x in Drop(s) ==> NameLess(e.name, x.name);
      } else {
        DropInsert(e, s[1..]);
        assert ([s[0]] + InsertEntry(e, s[1..]))[1..] == InsertEntry(e, s[1..]);
        if s[0].name == MANIFEST && e.name != MANIFEST {
          assert Drop(s) == Drop(s[1..]);
        }
      }
    }
  }

  lemma {:induction false} DropSort(s: seq<Entry>)
    ensures Drop(SortEntries(s)) == SortEntries(Drop(s))
  {
    if s != [] {
      DropSort(s[1..]);
      SortIsSorted(s[1..]);
      DropInsert(s[0], SortEntries(s[1..]));
    }
  }

  lemma {:induction false} DroppedHasNoRecord(s: seq<Entry>)
    ensures RecordsOf([], Drop(s)) == RecordsOf([], s)
  {
    if s != [] {
      DroppedHasNoRecord(s[1..]);
    }
  }

  lemma {:induction false} DropOnly(place: Place, s: seq<Entry>, directories: bool)
    ensures Drop(Only(place, [], s, directories)) == Only(place, [], Drop(s), directories)
  {
    if s != [] { DropOnly(place, s[1..], directories); }
  }

  lemma {:induction false} DropSplit(a: seq<Entry>, m: Entry, b: seq<Entry>)
    requires m.name == MANIFEST && forall e :: e in a + b ==> e.name != MANIFEST
    ensures Drop(a + [m] + b) == a + b == Drop(a + b)
    decreases a
  {
    var s, t := a + [m] + b, a + b;
    if a == [] {
      assert s[1..] == b && t == b;
      DropNothing(b);
    } else {
      assert s[1..] == a[1..] + [m] + b && t[1..] == a[1..] + b;
      assert a[0] in t && forall e :: e in a[1..] + b ==> e in t;
      DropSplit(a[1..], m, b);
    }
  }

  lemma {:induction false} DropNothing(s: seq<Entry>)
    requires forall e :: e in s ==> e.name != MANIFEST
    ensures Drop(s) == s
  {
    if s != [] {
      assert s[0] in s && forall e :: e in s[1..] ==> e in s;
      DropNothing(s[1..]);
    }
  }

  lemma {:induction false} OnlyDirectoriesSplit(place: Place, a: seq<Entry>, m: Entry, b: seq<Entry>)
    requires !DirectoryLike(place, [], m)
    ensures Only(place, [], a + [m] + b, true) == Only(place, [], a + b, true)
    decreases a
  {
    if a == [] {
      assert ([] + [m] + b)[1..] == b && [] + b == b;
    } else {
      assert (a + [m] + b)[1..] == a[1..] + [m] + b && (a + b)[1..] == a[1..] + b;
      OnlyDirectoriesSplit(place, a[1..], m, b);
    }
  }

  lemma {:induction false} BelowIgnoresParent(place: Place, dir: Path, dirs: seq<Entry>, p: Node, q: Node)
    requires p.Directory? && q.Directory?
    requires (forall e :: e in dirs ==> e in p.entries) && (forall e :: e in dirs ==> e in q.entries)
    ensures Below(place, dir, dirs, p) == Below(place, dir, dirs, q)
    decreases dirs
  {
    if dirs != [] { BelowIgnoresParent(place, dir, dirs[1..], p, q); }
  }

  lemma {:induction false} FilesIgnoreParent(dir: Path, s: seq<Entry>, p: Node, q: Node)
    requires p.Directory? && q.Directory?
    requires (forall e :: e in s ==> e in p.entries) && (forall e :: e in s ==> e in q.entries)
    ensures FilesOfEntries(dir, s, p) == FilesOfEntries(dir, s, q)
    decreases s
  {
    if s != [] { FilesIgnoreParent(dir, s[1..], p, q); }
  }

  /** A regular file leaves the directories and links as they are. */
  lemma {:induction false} FilesSplit(dir: Path, a: seq<Entry>, m: Entry, b: seq<Entry>, p: Node, q: Node)
    requires p.Directory? && q.Directory? && m.node.Regular?
    requires (forall e :: e in a + [m] + b ==> e in p.entries) && (forall e :: e in a + b ==> e in q.entries)
    ensures FilesOfEntries(dir, a + [m] + b, p) == FilesOfEntries(dir, a + b, q)
    decreases a
  {
    var s, t := a + [m] + b, a + b;
    if a == [] {
      assert s[1..] == b && t == b;
      assert forall e :: e in b ==> e in s;
      FilesIgnoreParent(dir, b, p, q);
    } else {
      assert s[1..] == a[1..] + [m] + b && t[1..] == a[1..] + b;
      assert forall e :: e in s[1..] ==> e in s;
      assert forall e :: e in t[1..] ==> e in t;
      FilesSplit(dir, a[1..], m, b, p, q);
    }
  }

  /** Wherever the manifest lands in the root's listing, it changes no record. */
  lemma ManifestIsExcluded(place: Place, mode: nat, a: seq<Entry>, m: Entry, b: seq<Entry>)
    requires m.name == MANIFEST && m.node.Regular? && forall e :: e in a + b ==> e.name != MANIFEST
    ensures Records(place, [], Directory(mode, a + [m] + b)) == Records(place, [], Directory(mode, a + b))
    ensures Walkable(place, [], Directory(mode, a + [m] + b)) <==> Walkable(place, [], Directory(mode, a + b))
  {
    var more, less := a + [m] + b, a + b;
    OnlyDirectoriesSplit(place, a, m, b);
    assert forall e :: e in more <==> e in less || e == m;
    BelowIgnoresParent(place, [], Dirs(place, [], less), Directory(mode, more), Directory(mode, less));
    OthersDropManifest(place, a, m, b);
    DroppedHasNoRecord(Others(place, [], more));
    DroppedHasNoRecord(Others(place, [], less));
  }

  lemma OthersDropManifest(place: Place, a: seq<Entry>, m: Entry, b: seq<Entry>)
    requires m.name == MANIFEST && forall e :: e in a + b ==> e.name != MANIFEST
    ensures Drop(Others(place, [], a + [m] + b)) == Drop(Others(place, [], a + b))
  {
    var more, less := a + [m] + b, a + b;
    DropSplit(a, m, b);
    DropOnly(place, more, false);
    DropOnly(place, less, false);
    DropSort(Only(place, [], more, false));
    DropSort(Only(place, [], less, false));
  }

  // ---------------------------------------------------------------- build, then verify

  /** The tree `build_release` has when it takes its digest. */
  function Built(t: Node): Node { Chmod(t, PRIVATE) }

  /** What it leaves under the final name: the manifest written, everything sealed. */
  function Published(t: Node, at: nat, manifest: Bytes): Node
    requires t.Directory? && at <= |t.entries|
  {
    var built := Built(t);
    var written := Entry(MANIFEST, Regular(0x180, manifest));
    Chmod(Directory(built.mode, built.entries[..at] + [written] + built.entries[at..]), SEALED)
  }

  lemma ModesKeepPlace(world: World, root: Path, t: Node, m: Modes)
    ensures Placed(world, root, Chmod(t, m)) == Placed(world, root, t)
  {
    FilesModed(root, t, m);
  }

  /** Nothing the walk looks at is changed between the digest and the rename. */
  lemma PublishedIsBuilt(world: World, root: Path, t: Node, at: nat, manifest: Bytes)
    requires t.Directory? && at <= |t.entries| && forall e :: e in t.entries ==> e.name != MANIFEST
    ensures var place := Placed(world, root, t);
      && Placed(world, root, Published(t, at, manifest)) == place == Placed(world, root, Built(t))
      && Records(place, [], Published(t, at, manifest)) == Records(place, [], t) == Records(place, [], Built(t))
      && (Walkable(place, [], Published(t, at, manifest)) <==> Walkable(place, [], t))
      && (Walkable(place, [], Built(t)) <==> Walkable(place, [], t))
  {
    BothKeepExecutable();
    var place, built := Placed(world, root, t), Built(t);
    var a, b, m := built.entries[..at], built.entries[at..], Entry(MANIFEST, Regular(0x180, manifest));
    var withManifest := Directory(built.mode, a + [m] + b);
    assert a + b == built.entries && built == Directory(built.mode, a + b);
    ModesKeepPlace(world, root, t, PRIVATE);
    ModesKeepPlace(world, root, withManifest, SEALED);
    FilesSplit(root, a, m, b, withManifest, built);
    RecordsModed(place, [], t, PRIVATE);
    WalkableModed(place, [], t, PRIVATE);
    ManifestIsExcluded(place, built.mode, a, m, b);
    RecordsModed(place, [], withManifest, SEALED);
    WalkableModed(place, [], withManifest, SEALED);
  }

  /** The walk raises before the rename exactly if it would raise on the tree as it came,
      and likewise afterwards. */
  lemma DigestExists(world: World, root: Path, t: Node, at: nat, manifest: Bytes)
    requires t.Directory? && at <= |t.entries| && forall e :: e in t.entries ==> e.name != MANIFEST
    ensures TreeStream(world, root, Built(t)).Some? <==> Walkable(Placed(world, root, t), [], t)
    ensures TreeStream(world, root, Published(t, at, manifest)).Some? <==> Walkable(Placed(world, root, t), [], t)
  {
    PublishedIsBuilt(world, root, t, at, manifest);
  }

  /** The names and link targets of a file system. */
  ghost predicate NulFreeNames(node: Node)
    decreases node
  {
    && (node.Symlink? ==> NulFree(node.text))
    && (node.Directory? ==> forall e :: e in node.entries ==> NulFree(e.name) && NulFreeNames(e.node))
  }

  lemma {:induction false} JoinedIsNulFree(p: Path)
    requires forall i :: 0 <= i < |p| ==> NulFree(p[i])
    ensures NulFree(Join(p))
  {
    if |p| > 1 { JoinedIsNulFree(p[1..]); }
  }

  ghost predicate AllPlausible(records: seq<Record>) {
    forall r :: r in records ==> Plausible(r)
  }

  ghost predicate NulFreePath(p: Path) {
    forall i :: 0 <= i < |p| ==> NulFree(p[i])
  }

  lemma {:induction false} RecordsArePlausible(place: Place, dir: Path, node: Node)
    requires node.Directory? && NulFreeNames(node) && NulFreePath(dir)
    ensures AllPlausible(Records(place, dir, node))
    decreases node, 1, 0
  {
    var dirs := Dirs(place, dir, node.entries);
    EntriesArePlausible(dir, dirs);
    EntriesArePlausible(dir, Others(place, dir, node.entries));
    BelowIsPlausible(place, dir, dirs, node);
  }

  lemma {:induction false} EntriesArePlausible(dir: Path, s: seq<Entry>)
    requires NulFreePath(dir) && forall e :: e in s ==> NulFree(e.name) && NulFreeNames(e.node)
    ensures AllPlausible(RecordsOf(dir, s))
  {
    if s != [] {
      assert s[0] in s;
      JoinedIsNulFree(dir + [s[0].name]);
      EntriesArePlausible(dir, s[1..]);
    }
  }

  lemma {:induction false} BelowIsPlausible(place: Place, dir: Path, dirs: seq<Entry>, node: Node)
    requires node.Directory? && NulFreeNames(node) && NulFreePath(dir) && forall e :: e in dirs ==> e in node.entries
    ensures AllPlausible(Below(place, dir, dirs, node))
    decreases node, 0, |dirs|
  {
    if dirs != [] {
      assert dirs[0] in node.entries;
      if dirs[0].node.Directory? { RecordsArePlausible(place, dir + [dirs[0].name], dirs[0].node); }
      BelowIsPlausible(place, dir, dirs[1..], node);
    }
  }

  /** The digest recomputed under the final name is the one taken while building exactly if
      every link leads inside from there too and the walk meets the same listing. */
  lemma BuildThenVerify(t: Node, at: nat, manifest: Bytes, before: World, temporary: Path, after: World, final: Path)
    requires t.Directory? && at <= |t.entries| && forall e :: e in t.entries ==> e.name != MANIFEST
    requires NulFreeNames(t) && TreeStream(before, temporary, Built(t)).Some?
    ensures var here, there := Placed(before, temporary, t), Placed(after, final, t);
      (TreeStream(after, final, Published(t, at, manifest)) == TreeStream(before, temporary, Built(t))) <==>
        Walkable(there, [], t) && Records(there, [], t) == Records(here, [], t)
  {
    PublishedIsBuilt(before, temporary, t, at, manifest);
    PublishedIsBuilt(after, final, t, at, manifest);
    var here, there := Placed(before, temporary, t), Placed(after, final, t);
    RecordsArePlausible(here, [], t);
    RecordsArePlausible(there, [], t);
    if Stream(Records(there, [], t)) == Stream(Records(here, [], t)) {
      StreamInjective(Records(there, [], t), Records(here, [], t));
    }
  }
}
