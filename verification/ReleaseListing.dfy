/** What a release digest says about the tree it was taken of: everything but modes, the
    order of entries and the manifest (scripts/leitstand-release.py, `release_tree_sha256`). */
module ReleaseListing {
  import opened Common
  import opened PathText
  import opened DigestStream
  import opened ReleaseTree
  import opened ReleaseBuild

  // ---------------------------------------------------------------- the order of the walk

  lemma {:induction false} InsertKeeps(e: Entry, s: seq<Entry>)
    ensures multiset(InsertEntry(e, s)) == multiset(s) + multiset{e}
  {
    if s != [] && !NameLess(e.name, s[0].name) {
      InsertKeeps(e, s[1..]);
      assert s == [s[0]] + s[1..];
    }
  }

  lemma {:induction false} SortKeeps(s: seq<Entry>)
    ensures multiset(SortEntries(s)) == multiset(s)
  {
    if s != [] {
      SortKeeps(s[1..]);
      InsertKeeps(s[0], SortEntries(s[1..]));
      assert s == [s[0]] + s[1..];
    }
  }

  lemma {:induction false} OnlySplits(place: Place, dir: Path, s: seq<Entry>)
    ensures multiset(Only(place, dir, s, true)) + multiset(Only(place, dir, s, false)) == multiset(s)
  {
    if s != [] {
      OnlySplits(place, dir, s[1..]);
      assert s == [s[0]] + s[1..];
    }
  }

  /** The entries, sorted by name, those `os.walk` takes for directories before the others. */
  ghost predicate Walked(place: Place, dir: Path, entries: seq<Entry>, dirs: seq<Entry>, others: seq<Entry>) {
    && IsSorted(dirs) && IsSorted(others) && multiset(dirs) + multiset(others) == multiset(entries)
    && (forall e :: e in dirs ==> DirectoryLike(place, dir, e))
    && (forall e :: e in others ==> !DirectoryLike(place, dir, e))
  }

  /** The records of a directory: its entries in that order, then, in the order of the real
      directories among them, what is below each. */
  lemma WalkOrder(place: Place, dir: Path, node: Node) returns (dirs: seq<Entry>, others: seq<Entry>)
    requires node.Directory?
    ensures Walked(place, dir, node.entries, dirs, others) && (forall e :: e in dirs ==> e in node.entries)
    ensures Records(place, dir, node) == RecordsOf(dir, dirs) + RecordsOf(dir, others) + Below(place, dir, dirs, node)
  {
    dirs, others := Dirs(place, dir, node.entries), Others(place, dir, node.entries);
    OnlySplits(place, dir, node.entries);
    SortKeeps(Only(place, dir, node.entries, true));
    SortKeeps(Only(place, dir, node.entries, false));
    SortIsSorted(Only(place, dir, node.entries, true));
    SortIsSorted(Only(place, dir, node.entries, false));
  }

  /** `mode & 0o111`, digit by digit. */
  lemma ExecutableBits(user: nat, group: nat, other: nat)
    requires user < 8 && group < 8 && other < 8
    ensures Executable(64 * user + 8 * group + other) <==> user % 2 == 1 || group % 2 == 1 || other % 2 == 1
  {
    var mode := 64 * user + 8 * group + other;
    assert mode / 64 == user && mode / 8 == 8 * user + group;
  }

  /** Owner-only while building, read-only afterwards; a file stays executable exactly if it was. */
  lemma ModesMean(mode: nat, content: Bytes, entries: seq<Entry>)
    ensures Chmod(Regular(mode, content), PRIVATE) == Regular(if Executable(mode) then 0x1C0 else 0x180, content)
    ensures Chmod(Regular(mode, content), SEALED) == Regular(if Executable(mode) then 0x140 else 0x100, content)
    ensures Chmod(Directory(mode, entries), PRIVATE).mode == 0x1C0
    ensures Chmod(Directory(mode, entries), SEALED).mode == 0x140
  {
  }

  // ---------------------------------------------------------------- what the digest knows

  /** What the digest knows of an entry. */
  datatype Kind = IsDirectory | IsLink(text: Bytes) | IsFile(executable: bool, content: Bytes)

  function KindOf(node: Node): Option<Kind> {
    match node
    case Directory(_, _) => Some(IsDirectory)
    case Symlink(text) => Some(IsLink(text))
    case Regular(mode, content) => Some(IsFile(Executable(mode), content))
    case Special => None
  }

  /** An entry of this kind is found under `p` in the tree. */
  ghost predicate Finds(node: Node, p: Path, k: Kind)
    decreases |p|
  {
    node.Directory? && p != [] && exists e :: e in node.entries && FoundBy(e, p, k)
  }

  ghost predicate FoundBy(e: Entry, p: Path, k: Kind)
    requires p != []
    decreases |p|, 0
  {
    e.name == p[0] && if |p| == 1 then KindOf(e.node) == Some(k) else Finds(e.node, p[1..], k)
  }

  function RecordFor(p: Path, k: Kind): Record {
    match k
    case IsDirectory => DirRecord(Join(p))
    case IsLink(text) => LinkRecord(Join(p), text)
    case IsFile(executable, content) => FileRecord(Join(p), executable, content)
  }

  lemma {:induction false} RecordsOfMembers(dir: Path, s: seq<Entry>, r: Record)
    ensures r in RecordsOf(dir, s) <==> exists e :: e in s && r in RecordOf(dir, e)
  {
    if s != [] {
      RecordsOfMembers(dir, s[1..], r);
      assert s == [s[0]] + s[1..];
    }
  }

  lemma {:induction false} BelowMembers(place: Place, dir: Path, dirs: seq<Entry>, parent: Node, r: Record)
    requires parent.Directory? && forall e :: e in dirs ==> e in parent.entries
    ensures r in Below(place, dir, dirs, parent) <==>
      exists e :: e in dirs && e.node.Directory? && r in Records(place, dir + [e.name], e.node)
    decreases |dirs|
  {
    if dirs != [] {
      BelowMembers(place, dir, dirs[1..], parent, r);
      BelowFirst(place, dir, dirs, parent);
      assert dirs == [dirs[0]] + dirs[1..];
      assert forall e :: e in dirs <==> e == dirs[0] || e in dirs[1..];
    }
  }

  /** The records of a directory are those of its entries and those below them. */
  lemma RecordsMembers(place: Place, dir: Path, node: Node, r: Record)
    requires node.Directory?
    ensures r in Records(place, dir, node) <==> exists e :: e in node.entries && Gives(place, dir, e, r)
  {
    var dirs, others := Dirs(place, dir, node.entries), Others(place, dir, node.entries);
    RecordsOfMembers(dir, dirs, r);
    RecordsOfMembers(dir, others, r);
    BelowMembers(place, dir, dirs, node, r);
    assert forall e :: e in node.entries <==> e in dirs || e in others;
    if e :| e in node.entries && Gives(place, dir, e, r) {
      assert e in dirs || r in RecordOf(dir, e);
    }
  }

  ghost predicate Gives(place: Place, dir: Path, e: Entry, r: Record) {
    r in RecordOf(dir, e) || (e.node.Directory? && r in Records(place, dir + [e.name], e.node))
  }

  lemma {:induction false} FoundIsRecorded(place: Place, dir: Path, node: Node, p: Path, k: Kind)
    requires Finds(node, p, k) && dir + p != [MANIFEST]
    ensures RecordFor(dir + p, k) in Records(place, dir, node)
    decreases |p|
  {
    var e :| e in node.entries && FoundBy(e, p, k);
    var r := RecordFor(dir + p, k);
    if |p| == 1 {
      assert p == [e.name];
    } else {
      assert dir + p == dir + [e.name] + p[1..];
      assert |dir + [e.name] + p[1..]| > 1;
      FoundIsRecorded(place, dir + [e.name], e.node, p[1..], k);
    }
    assert Gives(place, dir, e, r);
    RecordsMembers(place, dir, node, r);
  }

  lemma {:induction false} RecordedIsFound(place: Place, dir: Path, node: Node, r: Record) returns (p: Path, k: Kind)
    requires node.Directory? && r in Records(place, dir, node)
    ensures p != [] && Finds(node, p, k) && r == RecordFor(dir + p, k) && dir + p != [MANIFEST]
    decreases node
  {
    RecordsMembers(place, dir, node, r);
    var e :| e in node.entries && Gives(place, dir, e, r);
    if r in RecordOf(dir, e) {
      p := [e.name];
      k := EntryIsFound(dir, node, e, r);
    } else {
      var q;
      q, k := RecordedIsFound(place, dir + [e.name], e.node, r);
      p := [e.name] + q;
      DeeperIsFound(dir, node, e, q, k);
    }
  }

  lemma EntryIsFound(dir: Path, node: Node, e: Entry, r: Record) returns (k: Kind)
    requires node.Directory? && e in node.entries && r in RecordOf(dir, e)
    ensures Finds(node, [e.name], k) && r == RecordFor(dir + [e.name], k) && dir + [e.name] != [MANIFEST]
  {
    k := KindOf(e.node).value;
    assert (dir + [e.name])[|dir|] == e.name;
    assert FoundBy(e, [e.name], k);
  }

  lemma DeeperIsFound(dir: Path, node: Node, e: Entry, q: Path, k: Kind)
    requires node.Directory? && e in node.entries && Finds(e.node, q, k)
    ensures Finds(node, [e.name] + q, k) && dir + ([e.name] + q) == dir + [e.name] + q
    ensures dir + ([e.name] + q) != [MANIFEST]
  {
    var p := [e.name] + q;
    assert p[1..] == q && |dir + p| > 1;
    assert FoundBy(e, p, k);
  }

  ghost predicate SlashFreeNames(node: Node)
    decreases node
  {
    node.Directory? ==> forall e :: e in node.entries ==> SLASH !in e.name && SlashFreeNames(e.node)
  }

  lemma {:induction false} FoundIsSlashFree(node: Node, p: Path, k: Kind)
    requires Finds(node, p, k) && SlashFreeNames(node)
    ensures SlashFree(p)
    decreases |p|
  {
    var e :| e in node.entries && FoundBy(e, p, k);
    if |p| > 1 { FoundIsSlashFree(e.node, p[1..], k); }
    assert forall i :: 0 < i < |p| ==> p[i] == p[1..][i - 1];
  }

  /** Names and link texts as file systems have them. */
  ghost predicate RealNames(node: Node) {
    NulFreeNames(node) && SlashFreeNames(node)
  }

  /** Trees with the same digest have the same paths, apart from the manifest, and under each
      the same kind of entry, link text, executable bit and bytes - wherever they are. */
  lemma DigestDeterminesTree(w: World, a: Path, t: Node, v: World, b: Path, u: Node, p: Path, k: Kind)
    requires RealNames(t) && RealNames(u) && TreeStream(w, a, t).Some? && TreeStream(w, a, t) == TreeStream(v, b, u)
    requires p != [MANIFEST]
    ensures Finds(t, p, k) <==> Finds(u, p, k)
  {
    var here, there := Placed(w, a, t), Placed(v, b, u);
    RecordsArePlausible(here, [], t);
    RecordsArePlausible(there, [], u);
    StreamInjective(Records(here, [], t), Records(there, [], u));
    if Finds(t, p, k) { FoundInBoth(here, t, there, u, p, k); }
    if Finds(u, p, k) { FoundInBoth(there, u, here, t, p, k); }
  }

  lemma FoundInBoth(here: Place, t: Node, there: Place, u: Node, p: Path, k: Kind)
    requires SlashFreeNames(t) && SlashFreeNames(u) && t.Directory? && u.Directory?
    requires Records(here, [], t) == Records(there, [], u) && Finds(t, p, k) && p != [MANIFEST]
    ensures Finds(u, p, k)
  {
    FoundAtRoot(here, t, p, k);
    var q, l := RecordedAtRoot(there, u, RecordFor(p, k));
    FoundIsSlashFree(t, p, k);
    FoundIsSlashFree(u, q, l);
    RecordTellsPath(p, k, q, l);
  }

  lemma FoundAtRoot(here: Place, t: Node, p: Path, k: Kind)
    requires t.Directory? && Finds(t, p, k) && p != [MANIFEST]
    ensures RecordFor(p, k) in Records(here, [], t)
  {
    assert [] + p == p;
    FoundIsRecorded(here, [], t, p, k);
  }

  lemma RecordedAtRoot(there: Place, u: Node, r: Record) returns (q: Path, l: Kind)
    requires u.Directory? && r in Records(there, [], u)
    ensures q != [] && Finds(u, q, l) && r == RecordFor(q, l)
  {
    q, l := RecordedIsFound(there, [], u, r);
    assert [] + q == q;
  }

  lemma RecordTellsPath(p: Path, k: Kind, q: Path, l: Kind)
    requires p != [] && q != [] && SlashFree(p) && SlashFree(q) && RecordFor(p, k) == RecordFor(q, l)
    ensures p == q && k == l
  {
    JoinInjective(p, q);
  }
}
