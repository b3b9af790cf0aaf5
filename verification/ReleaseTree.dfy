/** The release tree, its links, and the walk that feeds its digest
    (scripts/leitstand-release.py). */
module ReleaseTree {
  import opened Common
  import opened PathText
  import opened LinkFollowing
  import opened DigestStream

  /** A directory's entries are in the order the file system lists them. */
  datatype Node =
    | Directory(mode: nat, entries: seq<Entry>)
    | Regular(mode: nat, content: Bytes)
    | Symlink(text: Bytes)
    | Special

  datatype Entry = Entry(name: Name, node: Node)

  /** release-manifest.json */
  const MANIFEST: Name :=
    [114, 101, 108, 101, 97, 115, 101, 45, 109, 97, 110, 105, 102, 101, 115, 116, 46, 106, 115, 111, 110]

  // ---------------------------------------------------------------- links

  /** Where a tree is, and everything `lstat` answers there.  What becomes of a path that
      leads back to itself depends on the version of `pathlib`: `spins` says whether it is
      let through. */
  datatype Place = Place(files: Files, root: Path, spins: (Path, Bytes) -> bool)

  /** Where the link with this text in directory `dir` leads. */
  function LinkEnd(place: Place, dir: Path, text: Bytes): Resolution {
    Follow(place.files, false, LinksOf(place.files), if IsAbsolute(text) then [] else place.root + dir, Split(text))
  }

  /** `_runtime_link_target` does not raise. */
  predicate Inside(place: Place, dir: Path, text: Bytes) {
    match LinkEnd(place, dir, text)
    case Ends(path, _) => place.root <= path
    case Loops => place.spins(dir, text)
    case Leaves => false
  }

  /** `os.walk` takes the link for a directory. */
  predicate FindsDirectory(place: Place, dir: Path, text: Bytes) {
    var end := LinkEnd(place, dir, text);
    end.Ends? && end.solid
  }

  /** The directories and links of a tree put at `at`. */
  function FilesOf(at: Path, node: Node): Files
    decreases node, 1, 0
  {
    match node
    case Directory(_, entries) => FilesOfEntries(at, entries, node)[at := Dir]
    case Symlink(text) => map[at := Link(text)]
    case _ => map[]
  }

  function FilesOfEntries(dir: Path, s: seq<Entry>, ghost parent: Node): Files
    requires parent.Directory? && forall e :: e in s ==> e in parent.entries
    decreases parent, 0, |s|
  {
    if s == [] then map[]
    else
      assert s[0] in parent.entries;
      FilesOf(dir + [s[0].name], s[0].node) + FilesOfEntries(dir, s[1..], parent)
  }

  /** The rest of the machine. */
  datatype World = World(files: Files, spins: (Path, Bytes) -> bool)

  /** A tree at `root`; the directories above it are real ones. */
  function Placed(world: World, root: Path, t: Node): Place {
    Place((map p | p in world.files && !(root <= p) && !(p <= root) :: world.files[p])
          + (map p | p in Ancestors(root) :: Dir) + FilesOf(root, t),
          root, world.spins)
  }

  function Ancestors(root: Path): (r: set<Path>)
    ensures forall p :: p in r <==> p < root
  {
    var r := set k | 0 <= k < |root| :: root[..k];
    assert forall p :: p < root ==> p == root[..|p|];
    r
  }

  // ---------------------------------------------------------------- the walk

  ghost predicate IsSorted(s: seq<Entry>) {
    forall i, j :: 0 <= i < j < |s| ==> !NameLess(s[j].name, s[i].name)
  }

  function InsertEntry(e: Entry, s: seq<Entry>): (r: seq<Entry>)
    ensures forall x :: x in r <==> x == e || x in s
  {
    if s == [] || NameLess(e.name, s[0].name) then [e] + s
    else
      assert s == [s[0]] + s[1..];
      [s[0]] + InsertEntry(e, s[1..])
  }

  /** `dirnames.sort()`, `filenames.sort()` */
  function SortEntries(s: seq<Entry>): (r: seq<Entry>)
    ensures forall x :: x in r <==> x in s
  {
    if s == [] then []
    else
      assert s == [s[0]] + s[1..];
      InsertEntry(s[0], SortEntries(s[1..]))
  }

  /** What `os.walk` files under directory names. */
  predicate DirectoryLike(place: Place, dir: Path, e: Entry) {
    e.node.Directory? || (e.node.Symlink? && FindsDirectory(place, dir, e.node.text))
  }

  function Only(place: Place, dir: Path, s: seq<Entry>, directories: bool): (r: seq<Entry>)
    ensures forall x :: x in r <==> x in s && DirectoryLike(place, dir, x) == directories
  {
    if s == [] then []
    else
      assert s == [s[0]] + s[1..];
      var rest := Only(place, dir, s[1..], directories);
      if DirectoryLike(place, dir, s[0]) == directories then [s[0]] + rest else rest
  }

  function Dirs(place: Place, dir: Path, s: seq<Entry>): seq<Entry> { SortEntries(Only(place, dir, s, true)) }

  function Others(place: Place, dir: Path, s: seq<Entry>): seq<Entry> { SortEntries(Only(place, dir, s, false)) }

  /** `mode & 0o111` */
  predicate Executable(mode: nat) {
    mode / 64 % 2 == 1 || mode / 8 % 2 == 1 || mode % 2 == 1
  }

  /** The record of one entry; none for the manifest and for what makes the walk raise. */
  function RecordOf(dir: Path, e: Entry): seq<Record> {
    var name := Join(dir + [e.name]);
    if dir == [] && e.name == MANIFEST then []
    else
      match e.node
      case Directory(_, _) => [DirRecord(name)]
      case Regular(mode, content) => [FileRecord(name, Executable(mode), content)]
      case Symlink(text) => [LinkRecord(name, text)]
      case Special => []
  }

  function RecordsOf(dir: Path, s: seq<Entry>): seq<Record> {
    if s == [] then [] else RecordOf(dir, s[0]) + RecordsOf(dir, s[1..])
  }

  /** The records of one directory and, in sorted order, of its subdirectories. */
  function Records(place: Place, dir: Path, node: Node): seq<Record>
    requires node.Directory?
    decreases node, 1, 0
  {
    var dirs := Dirs(place, dir, node.entries);
    RecordsOf(dir, dirs) + RecordsOf(dir, Others(place, dir, node.entries)) + Below(place, dir, dirs, node)
  }

  function Below(place: Place, dir: Path, dirs: seq<Entry>, ghost parent: Node): seq<Record>
    requires parent.Directory? && forall e :: e in dirs ==> e in parent.entries
    decreases parent, 0, |dirs|
  {
    if dirs == [] then []
    else
      assert dirs[0] in parent.entries;
      (if dirs[0].node.Directory? then Records(place, dir + [dirs[0].name], dirs[0].node) else [])
      + Below(place, dir, dirs[1..], parent)
  }

  /** The entry does not make the walk raise by itself. */
  predicate Acceptable(place: Place, dir: Path, e: Entry) {
    !e.node.Special? && (e.node.Symlink? ==> Inside(place, dir, e.node.text))
  }

  /** No entry makes the walk raise: no special file, and every link leads inside. */
  predicate Walkable(place: Place, dir: Path, node: Node)
    requires node.Directory?
    decreases node
  {
    forall e :: e in node.entries ==>
      && Acceptable(place, dir, e)
      && (e.node.Directory? ==> Walkable(place, dir + [e.name], e.node))
  }

  /** The bytes under `release_tree_sha256` of a tree at `root`; `None` is an exception. */
  function TreeStream(world: World, root: Path, t: Node): Option<Bytes> {
    var place := Placed(world, root, t);
    if t.Directory? && Walkable(place, [], t) then Some(Stream(Records(place, [], t))) else None
  }

  /** What the loops over `dirnames` and `filenames` feed; `None` is an exception. */
  method HashEntries(place: Place, dir: Path, s: seq<Entry>, digest: Bytes) returns (r: Option<Bytes>)
    ensures r.Some? <==> AllAcceptable(place, dir, s)
    ensures r.Some? ==> r.value == digest + Stream(RecordsOf(dir, s))
  {
    var fed := digest;
    for i := 0 to |s|
      invariant forall j :: 0 <= j < i ==> Acceptable(place, dir, s[j])
      invariant fed + Stream(RecordsOf(dir, s[i..])) == digest + Stream(RecordsOf(dir, s))
    {
      if !Acceptable(place, dir, s[i]) {
        return None;
      }
      assert s[i..][0] == s[i] && s[i..][1..] == s[i + 1..];
      StreamConcat(RecordOf(dir, s[i]), RecordsOf(dir, s[i + 1..]));
      Associate(fed, Stream(RecordOf(dir, s[i])), Stream(RecordsOf(dir, s[i + 1..])));
      fed := HashListing(fed, RecordOf(dir, s[i]));
    }
    return Some(fed);
  }

  lemma Associate(a: Bytes, b: Bytes, c: Bytes)
    ensures a + b + c == a + (b + c)
  {
  }

  /** Directories that can be walked, each with all that is below it. */
  ghost predicate AllWalkable(place: Place, dir: Path, dirs: seq<Entry>) {
    forall e :: e in dirs && e.node.Directory? ==> Walkable(place, dir + [e.name], e.node)
  }

  ghost predicate AllAcceptable(place: Place, dir: Path, s: seq<Entry>) {
    forall e :: e in s ==> Acceptable(place, dir, e)
  }

  lemma WalkableInParts(place: Place, dir: Path, node: Node)
    requires node.Directory?
    ensures var dirs := Dirs(place, dir, node.entries);
      Walkable(place, dir, node) <==>
        && AllAcceptable(place, dir, dirs) && AllAcceptable(place, dir, Others(place, dir, node.entries))
        && AllWalkable(place, dir, dirs)
  {
    assert forall e :: e in node.entries ==>
      e in Dirs(place, dir, node.entries) || e in Others(place, dir, node.entries);
  }

  /** The walk of one directory and of everything below it, feeding the digest as the
      entries come and raising at the first that is not acceptable. */
  method HashDirectory(place: Place, dir: Path, node: Node, digest: Bytes) returns (r: Option<Bytes>)
    requires node.Directory?
    ensures r.Some? <==> Walkable(place, dir, node)
    ensures r.Some? ==> r.value == digest + Stream(Records(place, dir, node))
    decreases node, 1
  {
    WalkableInParts(place, dir, node);
    var dirs, others := Dirs(place, dir, node.entries), Others(place, dir, node.entries);
    r := HashEntries(place, dir, dirs, digest);
    if r.Some? {
      r := HashEntries(place, dir, others, r.value);
      if r.Some? {
        r := HashBelow(place, dir, dirs, node, r.value);
        RecordsConcat(place, dir, node, digest);
      }
    }
  }

  /** What `os.walk` does next: the directories below, in the order they were sorted into. */
  method HashBelow(place: Place, dir: Path, dirs: seq<Entry>, ghost parent: Node, digest: Bytes)
    returns (r: Option<Bytes>)
    requires parent.Directory? && forall e :: e in dirs ==> e in parent.entries
    ensures r.Some? <==> AllWalkable(place, dir, dirs)
    ensures r.Some? ==> r.value == digest + Stream(Below(place, dir, dirs, parent))
    decreases parent, 0
  {
    r := Some(digest);
    for i := 0 to |dirs|
      invariant r.Some? ==> BelowFed(place, dir, dirs, i, parent, digest, r.value)
      invariant r.None? ==> !AllWalkable(place, dir, dirs)
    {
      assert dirs[i] in dirs;
      if r.Some? && dirs[i].node.Directory? {
        ghost var fed := r.value;
        r := HashDirectory(place, dir + [dirs[i].name], dirs[i].node, r.value);
        if r.Some? { BelowStep(place, dir, dirs, i, parent, digest, fed); }
      } else if r.Some? {
        BelowSkip(place, dir, dirs, i, parent, digest, r.value);
      }
    }
    if r.Some? { BelowDone(place, dir, dirs, parent, digest, r.value); }
  }

  /** The first `i` of the directories have been fed. */
  ghost predicate BelowFed(place: Place, dir: Path, dirs: seq<Entry>, i: nat, parent: Node, digest: Bytes, fed: Bytes)
    requires i <= |dirs| && parent.Directory? && forall e :: e in dirs ==> e in parent.entries
  {
    && AllWalkable(place, dir, dirs[..i])
    && fed + Stream(Below(place, dir, dirs[i..], parent)) == digest + Stream(Below(place, dir, dirs, parent))
  }

  lemma BelowDone(place: Place, dir: Path, dirs: seq<Entry>, parent: Node, digest: Bytes, fed: Bytes)
    requires parent.Directory? && forall e :: e in dirs ==> e in parent.entries
    requires BelowFed(place, dir, dirs, |dirs|, parent, digest, fed)
    ensures AllWalkable(place, dir, dirs) && fed == digest + Stream(Below(place, dir, dirs, parent))
  {
    assert dirs[..|dirs|] == dirs && dirs[|dirs|..] == [] && fed + [] == fed;
  }

  lemma BelowStep(place: Place, dir: Path, dirs: seq<Entry>, i: nat, parent: Node, digest: Bytes, fed: Bytes)
    requires i < |dirs| && parent.Directory? && forall e :: e in dirs ==> e in parent.entries
    requires BelowFed(place, dir, dirs, i, parent, digest, fed)
    requires dirs[i].node.Directory? && Walkable(place, dir + [dirs[i].name], dirs[i].node)
    ensures var more := fed + Stream(Records(place, dir + [dirs[i].name], dirs[i].node));
      BelowFed(place, dir, dirs, i + 1, parent, digest, more)
  {
    assert dirs[i..][0] == dirs[i] && dirs[i..][1..] == dirs[i + 1..] && dirs[..i + 1] == dirs[..i] + [dirs[i]];
    var first, rest := Records(place, dir + [dirs[i].name], dirs[i].node), Below(place, dir, dirs[i + 1..], parent);
    BelowFirst(place, dir, dirs[i..], parent);
    StreamConcat(first, rest);
    Associate(fed, Stream(first), Stream(rest));
  }

  lemma BelowSkip(place: Place, dir: Path, dirs: seq<Entry>, i: nat, parent: Node, digest: Bytes, fed: Bytes)
    requires i < |dirs| && parent.Directory? && forall e :: e in dirs ==> e in parent.entries
    requires BelowFed(place, dir, dirs, i, parent, digest, fed) && !dirs[i].node.Directory?
    ensures BelowFed(place, dir, dirs, i + 1, parent, digest, fed)
  {
    assert dirs[i..][0] == dirs[i] && dirs[i..][1..] == dirs[i + 1..] && dirs[..i + 1] == dirs[..i] + [dirs[i]];
    BelowFirst(place, dir, dirs[i..], parent);
  }

  lemma BelowFirst(place: Place, dir: Path, s: seq<Entry>, parent: Node)
    requires s != [] && parent.Directory? && forall e :: e in s ==> e in parent.entries
    ensures !s[0].node.Directory? ==> Below(place, dir, s, parent) == Below(place, dir, s[1..], parent)
    ensures s[0].node.Directory? ==>
      Below(place, dir, s, parent)
      == Records(place, dir + [s[0].name], s[0].node) + Below(place, dir, s[1..], parent)
  {
    var rest := Below(place, dir, s[1..], parent);
    assert [] + rest == rest;
  }

  lemma RecordsConcat(place: Place, dir: Path, node: Node, digest: Bytes)
    requires node.Directory?
    ensures var dirs := Dirs(place, dir, node.entries);
      digest + Stream(Records(place, dir, node))
      == digest + Stream(RecordsOf(dir, dirs)) + Stream(RecordsOf(dir, Others(place, dir, node.entries)))
         + Stream(Below(place, dir, dirs, node))
  {
    var dirs := Dirs(place, dir, node.entries);
    var a, b := RecordsOf(dir, dirs), RecordsOf(dir, Others(place, dir, node.entries));
    var c := Below(place, dir, dirs, node);
    StreamConcat(a + b, c);
    StreamConcat(a, b);
    Associate(digest, Stream(a), Stream(b));
    Associate(digest, Stream(a) + Stream(b), Stream(c));
  }

  /** `release_tree_sha256`, up to the hash itself. */
  method DigestTree(world: World, root: Path, t: Node) returns (r: Option<Bytes>)
    ensures r == TreeStream(world, root, t)
  {
    if !t.Directory? {
      return None;
    }
    var place := Placed(world, root, t);
    r := HashDirectory(place, [], t, []);
    EmptyFirst(Stream(Records(place, [], t)));
  }

  lemma EmptyFirst(a: Bytes)
    ensures [] + a == a
  {
  }
}
