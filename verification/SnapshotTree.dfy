/** The Bureau registry snapshot: inventory checks, the length-prefixed digest stream and
    the task documents taken from the hashed bytes
    (scripts/leitstand-export-operator-snapshots). */
module SnapshotTree {
  import opened Common
  import opened Orders
  import opened ByteCodec
  import opened PathText
  import opened LinkFollowing

  /** What `lstat` says about a path below the snapshot root. */
  datatype Found = FoundDirectory | FoundFile(content: Bytes, links: nat) | FoundOther

  type FileSystem = map<Path, Found>

  /** `relative.as_posix()` */
  function Posix(p: Path): Bytes {
    if p == [] then [DOT] else Join(p)
  }

  // ---------------------------------------------------------------- the stream

  datatype Blob = Blob(key: Bytes, content: Bytes)

  predicate Fits(b: Blob) {
    |b.key| < Pow256(4) && |b.content| < Pow256(8)
  }

  function Encode(b: Blob): Bytes {
    BigEndian(|b.key|, 4) + b.key + BigEndian(|b.content|, 8) + b.content
  }

  function Stream(blobs: seq<Blob>): Bytes {
    if blobs == [] then [] else Encode(blobs[0]) + Stream(blobs[1..])
  }

  /** Reads `k` bytes of length and that many bytes. */
  function TakePrefixed(s: Bytes, k: nat): (r: Option<(Bytes, Bytes)>)
    ensures r.Some? ==> |r.value.1| + k <= |s|
  {
    if |s| < k then None
    else
      var n := FromBigEndian(s[..k]);
      if |s| < k + n then None else Some((s[k..k + n], s[k + n..]))
  }

  function Decode(s: Bytes): Option<seq<Blob>>
    decreases |s|
  {
    if s == [] then Some([])
    else
      match TakePrefixed(s, 4)
      case None => None
      case Some((key, afterKey)) =>
        match TakePrefixed(afterKey, 8)
        case None => None
        case Some((content, rest)) =>
          match Decode(rest)
          case None => None
          case Some(more) => Some([Blob(key, content)] + more)
  }

  lemma TakesBack(x: Bytes, k: nat, rest: Bytes)
    requires |x| < Pow256(k)
    ensures TakePrefixed(BigEndian(|x|, k) + (x + rest), k) == Some((x, rest))
  {
    BigEndianRoundTrip(|x|, k);
    CutsBack(BigEndian(|x|, k), x, rest);
    TakesKnown(BigEndian(|x|, k) + (x + rest), k, x, rest);
  }

  lemma TakesKnown(s: Bytes, k: nat, x: Bytes, rest: Bytes)
    requires |s| == k + |x| + |rest| && FromBigEndian(s[..k]) == |x|
    requires s[k..k + |x|] == x && s[k + |x|..] == rest
    ensures TakePrefixed(s, k) == Some((x, rest))
  {
  }

  lemma CutsBack(n: Bytes, x: Bytes, rest: Bytes)
    ensures var s := n + (x + rest);
      s[..|n|] == n && s[|n|..|n| + |x|] == x && s[|n| + |x|..] == rest
  {
    var s := n + (x + rest);
    assert s[|n|..] == x + rest;
  }

  lemma EncodeThen(b: Blob, rest: Bytes)
    ensures Encode(b) + rest == BigEndian(|b.key|, 4) + (b.key + (BigEndian(|b.content|, 8) + (b.content + rest)))
  {
    var n, m := BigEndian(|b.key|, 4), BigEndian(|b.content|, 8);
    assert n + b.key + m + b.content + rest == n + b.key + m + (b.content + rest);
    assert n + b.key + m + (b.content + rest) == n + b.key + (m + (b.content + rest));
  }

  /** For keys below 2^32 bytes and contents below 2^64 bytes the stream decodes back. */
  lemma {:induction false} StreamRoundTrip(blobs: seq<Blob>)
    requires forall b :: b in blobs ==> Fits(b)
    ensures Decode(Stream(blobs)) == Some(blobs)
  {
    if blobs != [] {
      var b, rest := blobs[0], Stream(blobs[1..]);
      assert b in blobs;
      EncodeThen(b, rest);
      var afterKey := BigEndian(|b.content|, 8) + (b.content + rest);
      TakesBack(b.key, 4, afterKey);
      TakesBack(b.content, 8, rest);
      StreamRoundTrip(blobs[1..]);
      assert [b] + blobs[1..] == blobs;
    }
  }

  lemma {:induction false} StreamAppend(blobs: seq<Blob>, b: Blob)
    ensures Stream(blobs + [b]) == Stream(blobs) + Encode(b)
  {
    if blobs == [] {
      assert [] + [b] == [b] && [b][1..] == [] && Encode(b) + [] == [] + Encode(b);
    } else {
      assert (blobs + [b])[0] == blobs[0] && (blobs + [b])[1..] == blobs[1..] + [b];
      StreamAppend(blobs[1..], b);
      assert Encode(blobs[0]) + (Stream(blobs[1..]) + Encode(b)) == Encode(blobs[0]) + Stream(blobs[1..]) + Encode(b);
    }
  }

  lemma SmallBigEndian(n: byte, k: nat)
    requires k > 0
    ensures BigEndian(n as nat, k) == seq(k - 1, _ => 0 as byte) + [n]
  {
    BigEndianZero(k - 1);
  }

  /** A file `a` with two bytes, written out. */
  lemma FormatExample()
    ensures Stream([Blob([97], [98, 99])]) == [0, 0, 0, 1, 97] + ([0, 0, 0, 0, 0, 0, 0, 2] + [98, 99])
  {
    var b := Blob([97], [98, 99]);
    SmallBigEndian(1, 4);
    SmallBigEndian(2, 8);
    var n, m: Bytes := [0, 0, 0, 1], [0, 0, 0, 0, 0, 0, 0, 2];
    assert seq(3, _ => 0 as byte) + [1] == n && seq(7, _ => 0 as byte) + [2] == m;
    assert Encode(b) == n + [97] + m + [98, 99];
    assert [b][1..] == [] && Encode(b) + [] == Encode(b);
  }

  lemma {:induction false} BigEndianZero(k: nat)
    ensures BigEndian(0, k) == seq(k, _ => 0 as byte)
  {
    if k > 0 { BigEndianZero(k - 1); }
  }

  // ---------------------------------------------------------------- reading

  /** `require_declared_file` does not raise: real directories down to one regular file. */
  predicate Declared(fs: FileSystem, p: Path) {
    && p != []
    && (forall k :: 1 <= k < |p| ==> p[..k] in fs && fs[p[..k]].FoundDirectory?)
    && p in fs && fs[p].FoundFile? && fs[p].links == 1
  }

  predicate Readable(fs: FileSystem, p: Path) {
    Declared(fs, p) && Fits(Blob(Posix(p), fs[p].content))
  }

  /** The hashed records of the paths, in order. */
  function BlobsOf(fs: FileSystem, paths: seq<Path>): (r: seq<Blob>)
    requires forall i :: 0 <= i < |paths| ==> Readable(fs, paths[i])
    ensures |r| == |paths|
    ensures forall i :: 0 <= i < |r| ==> Readable(fs, paths[i]) && r[i] == Blob(Posix(paths[i]), fs[paths[i]].content)
  {
    if paths == [] then []
    else
      var last := paths[|paths| - 1];
      assert Readable(fs, last);
      BlobsOf(fs, paths[..|paths| - 1]) + [Blob(Posix(last), fs[last].content)]
  }

  /** The dictionary filled beside the digest; a later record of the same key wins. */
  function ContentsOf(blobs: seq<Blob>): map<Bytes, Bytes> {
    if blobs == [] then map[]
    else ContentsOf(blobs[..|blobs| - 1])[blobs[|blobs| - 1].key := blobs[|blobs| - 1].content]
  }

  lemma {:induction false} ContentsByKey(blobs: seq<Blob>, i: nat)
    requires i < |blobs| && forall j, k :: 0 <= j < k < |blobs| ==> blobs[j].key != blobs[k].key
    ensures blobs[i].key in ContentsOf(blobs) && ContentsOf(blobs)[blobs[i].key] == blobs[i].content
  {
    if i < |blobs| - 1 { ContentsByKey(blobs[..|blobs| - 1], i); }
  }

  /** `read_snapshot_tree`; `digest` stands for what has been fed to the hash object, and
      `None` is an exception. */
  method ReadTree(fs: FileSystem, paths: seq<Path>) returns (r: Option<(Bytes, map<Bytes, Bytes>)>)
    ensures r.Some? <==> forall i :: 0 <= i < |paths| ==> Readable(fs, paths[i])
    ensures r.Some? ==> r.value == (Stream(BlobsOf(fs, paths)), ContentsOf(BlobsOf(fs, paths)))
  {
    var digest: Bytes, contents: map<Bytes, Bytes> := [], map[];
    for i := 0 to |paths|
      invariant forall j :: 0 <= j < i ==> Readable(fs, paths[j])
      invariant digest == Stream(BlobsOf(fs, paths[..i]))
      invariant contents == ContentsOf(BlobsOf(fs, paths[..i]))
    {
      var p := paths[i];
      if !Declared(fs, p) {
        return None;
      }
      var key, content := Posix(p), fs[p].content;
      contents := contents[key := content];
      if |key| >= Pow256(4) || |content| >= Pow256(8) {
        return None;
      }
      ReadStep(fs, paths, i, digest);
      digest := digest + BigEndian(|key|, 4) + key + BigEndian(|content|, 8) + content;
    }
    assert paths[..|paths|] == paths;
    return Some((digest, contents));
  }

  lemma ReadStep(fs: FileSystem, paths: seq<Path>, i: nat, digest: Bytes)
    requires i < |paths| && forall j :: 0 <= j <= i ==> Readable(fs, paths[j])
    requires digest == Stream(BlobsOf(fs, paths[..i]))
    ensures Readable(fs, paths[i])
    ensures var key, content := Posix(paths[i]), fs[paths[i]].content;
      var before, after := BlobsOf(fs, paths[..i]), BlobsOf(fs, paths[..i + 1]);
      && Stream(after) == digest + BigEndian(|key|, 4) + key + BigEndian(|content|, 8) + content
      && ContentsOf(after) == ContentsOf(before)[key := content]
  {
    var b := Blob(Posix(paths[i]), fs[paths[i]].content);
    var before := BlobsOf(fs, paths[..i]);
    assert paths[..i + 1][..i] == paths[..i] && paths[..i + 1][i] == paths[i];
    assert BlobsOf(fs, paths[..i + 1]) == before + [b];
    assert (before + [b])[..i] == before;
    StreamAppend(before, b);
    Associate(digest, BigEndian(|b.key|, 4), b.key, BigEndian(|b.content|, 8), b.content);
  }

  lemma Associate(s: Bytes, a: Bytes, b: Bytes, c: Bytes, d: Bytes)
    ensures s + a + b + c + d == s + (a + b + c + d)
  {
  }

  // ---------------------------------------------------------------- the inventory

  ghost predicate DistinctKeys(paths: seq<Path>) {
    forall i, j :: 0 <= i < j < |paths| ==> Posix(paths[i]) != Posix(paths[j])
  }

  /** `Path(item).parts` of a relative path: no empty parts, no single dots. */
  function Parts(item: Bytes): Path {
    Named(Split(item))
  }

  function Named(parts: seq<Name>): (r: Path)
    ensures forall x :: x in r <==> x in parts && x != [] && x != [DOT]
  {
    if parts == [] then []
    else
      assert parts == [parts[0]] + parts[1..];
      if parts[0] == [] || parts[0] == [DOT] then Named(parts[1..]) else [parts[0]] + Named(parts[1..])
  }

  predicate Safe(item: Option<Bytes>) {
    item.Some? && !IsAbsolute(item.value) && [DOT, DOT] !in Parts(item.value)
  }

  /** A safe path, resolved part by part from the root of the snapshot, never leaves it and ends
      at the path that is read. */
  lemma SafeStaysBelow(item: Bytes)
    requires Safe(Some(item))
    ensures var end := Follow(map[], true, {}, [], Split(item)); end.Ends? && end.path == Parts(item)
  {
    assert [] + Parts(item) == Parts(item);
    PartsStayBelow([], Split(item));
  }

  lemma {:induction false} PartsStayBelow(at: Path, parts: seq<Name>)
    requires [DOT, DOT] !in Named(parts)
    ensures var end := Follow(map[], true, {}, at, parts); end.Ends? && end.path == at + Named(parts)
    decreases parts
  {
    if parts != [] {
      var part, rest := parts[0], parts[1..];
      assert parts == [part] + rest;
      if IsIdle(part) {
        PartsStayBelow(at, rest);
      } else {
        assert Named(parts) == [part] + Named(rest) && part in Named(parts);
        assert forall x :: x in Named(rest) ==> x in Named(parts);
        PartsStayBelow(at + [part], rest);
        assert at + [part] + Named(rest) == at + ([part] + Named(rest));
      }
    }
  }

  /** The keys of the first `n` items are pairwise different. */
  ghost predicate Unrepeated(items: seq<Option<Bytes>>) {
    forall i, j :: 0 <= i < j < |items| && items[i].Some? && items[j].Some? ==>
      Posix(Parts(items[i].value)) != Posix(Parts(items[j].value))
  }

  ghost predicate Parsed(items: seq<Option<Bytes>>, paths: seq<Path>) {
    && |paths| == |items|
    && forall i :: 0 <= i < |items| ==> Safe(items[i]) && paths[i] == Parts(items[i].value)
  }

  function KeySet(paths: seq<Path>): (r: set<Bytes>)
    ensures forall i :: 0 <= i < |paths| ==> Posix(paths[i]) in r
  {
    set i | 0 <= i < |paths| :: Posix(paths[i])
  }

  /** The paths an inventory's strings stand for. */
  function PathsOf(items: seq<Option<Bytes>>): (r: seq<Path>)
    ensures (forall i :: 0 <= i < |items| ==> Safe(items[i])) ==> Parsed(items, r)
  {
    seq(|items|, i requires 0 <= i < |items| => if items[i].Some? then Parts(items[i].value) else [])
  }

  /** Every item is a relative path without "..", and no two name the same file. */
  ghost predicate GoodInventory(items: seq<Option<Bytes>>) {
    items != [] && (forall i :: 0 <= i < |items| ==> Safe(items[i])) && Unrepeated(items)
  }

  /** The four reasons for refusing an inventory: none of them applies. */
  lemma InventoryMeans(items: seq<Option<Bytes>>)
    ensures GoodInventory(items) <==>
      && items != []
      && (forall i :: 0 <= i < |items| ==>
           items[i].Some? && !IsAbsolute(items[i].value) && [DOT, DOT] !in Parts(items[i].value))
      && (forall i, j :: 0 <= i < j < |items| ==> Posix(Parts(items[i].value)) != Posix(Parts(items[j].value)))
  {
  }

  /** The loop over the inventory's `paths`; an item that is not a string is `None`. */
  method CheckInventory(items: seq<Option<Bytes>>) returns (r: Option<seq<Path>>)
    ensures r.Some? <==> GoodInventory(items)
    ensures r.Some? ==> r.value == PathsOf(items) && Parsed(items, r.value) && DistinctKeys(r.value)
  {
    if items == [] {
      return None;
    }
    var paths: seq<Path>, seen: set<Bytes> := [], {};
    for i := 0 to |items|
      invariant Parsed(items[..i], paths) && DistinctKeys(paths)
      invariant seen == KeySet(paths)
    {
      if items[i].None? {
        return None;
      }
      var relative := Parts(items[i].value);
      var key := Posix(relative);
      if IsAbsolute(items[i].value) || [DOT, DOT] in relative {
        assert !Safe(items[i]);
        return None;
      }
      if key in seen {
        ghost var j :| 0 <= j < i && Posix(paths[j]) == key;
        assert items[..i][j] == items[j];
        assert !Unrepeated(items);
        return None;
      }
      ghost var before := paths;
      seen := seen + {key};
      paths := paths + [relative];
      KeySetStep(before, relative);
      assert forall j :: 0 <= j < i ==> items[..i + 1][j] == items[..i][j];
    }
    assert items[..|items|] == items;
    assert paths == PathsOf(items);
    return Some(paths);
  }

  lemma KeySetStep(paths: seq<Path>, p: Path)
    ensures KeySet(paths + [p]) == KeySet(paths) + {Posix(p)}
  {
    var more := paths + [p];
    forall k | k in KeySet(paths) ensures k in KeySet(more) {
      var i :| 0 <= i < |paths| && Posix(paths[i]) == k;
      assert more[i] == paths[i];
    }
    assert more[|paths|] == p;
  }

  // ---------------------------------------------------------------- the tasks

  const REGISTRY: Name := [114, 101, 103, 105, 115, 116, 114, 121]
  const TASKS: Name := [116, 97, 115, 107, 115]
  const QUEUE: Name := [113, 117, 101, 117, 101, 46, 106, 115, 111, 110]
  const JSON_SUFFIX: Bytes := [46, 106, 115, 111, 110]

  predicate IsTask(p: Path) {
    && |p| == 3 && p[0] == REGISTRY && p[1] == TASKS
    && |p[2]| > 5 && p[2][|p[2]| - 5..] == JSON_SUFFIX
  }

  function TaskPaths(paths: seq<Path>): (r: seq<Path>)
    ensures forall p :: p in r <==> p in paths && IsTask(p)
  {
    if paths == [] then []
    else
      assert paths == [paths[0]] + paths[1..];
      if IsTask(paths[0]) then [paths[0]] + TaskPaths(paths[1..]) else TaskPaths(paths[1..])
  }

  predicate PathLess(a: Path, b: Path) { LexLess(NameLess, a, b) }

  lemma PathOrderTotal()
    ensures Total(PathLess)
  {
    LexTotal(ByteLess, NameLess);
    LexTotal(NameLess, PathLess);
  }

  datatype Task = Task(path: Path, document: Bytes)

  /** Each declared path with the bytes found under its key. */
  ghost predicate Documented(tasks: seq<Task>, declared: seq<Path>, contents: map<Bytes, Bytes>) {
    && |tasks| == |declared|
    && forall i :: 0 <= i < |tasks| ==>
         Posix(declared[i]) in contents && tasks[i] == Task(declared[i], contents[Posix(declared[i])])
  }

  /** The bytes each task is parsed from: the ones that were hashed. */
  method TakeDocuments(declared: seq<Path>, contents: map<Bytes, Bytes>) returns (tasks: seq<Task>)
    requires forall p :: p in declared ==> Posix(p) in contents
    ensures Documented(tasks, declared, contents)
  {
    tasks := [];
    for i := 0 to |declared|
      invariant |tasks| == i
      invariant forall j :: 0 <= j < i ==> tasks[j] == Task(declared[j], contents[Posix(declared[j])])
    {
      tasks := tasks + [Task(declared[i], contents[Posix(declared[i])])];
    }
  }

  /** The tasks are exactly the task files on disk, each once and in order, all of them
      declared, and every document is the one hashed under its path. */
  ghost predicate TasksAreHashed(tasks: seq<Task>, items: seq<Option<Bytes>>, actual: seq<Path>, hashed: seq<Blob>) {
    && (forall i, j :: 0 <= i < j < |tasks| ==> PathLess(tasks[i].path, tasks[j].path))
    && (forall p :: p in actual <==> exists i :: 0 <= i < |tasks| && tasks[i].path == p)
    && (forall i :: 0 <= i < |items| && items[i].Some? && IsTask(Parts(items[i].value)) ==>
         Parts(items[i].value) in actual)
    && (forall i, j :: 0 <= i < j < |hashed| ==> hashed[i].key != hashed[j].key)
    && (forall i :: 0 <= i < |tasks| ==> Blob(Posix(tasks[i].path), tasks[i].document) in hashed)
  }

  lemma DocumentsAreHashed(fs: FileSystem, items: seq<Option<Bytes>>, paths: seq<Path>, declared: seq<Path>,
                           actual: seq<Path>, tasks: seq<Task>)
    requires Parsed(items, paths) && DistinctKeys(paths)
    requires forall i :: 0 <= i < |paths| ==> Readable(fs, paths[i])
    requires declared == Sort(PathLess, TaskPaths(paths)) == Sort(PathLess, actual)
    requires Documented(tasks, declared, ContentsOf(BlobsOf(fs, paths)))
    ensures TasksAreHashed(tasks, items, actual, BlobsOf(fs, paths))
  {
    PathOrderTotal();
    forall i | 0 <= i < |tasks|
      ensures Blob(Posix(tasks[i].path), tasks[i].document) in BlobsOf(fs, paths)
    {
      assert declared[i] in declared;
      DocumentIsHashed(fs, paths, declared[i]);
    }
    TasksAreActual(declared, actual, tasks, ContentsOf(BlobsOf(fs, paths)));
    DeclaredTasksAreActual(items, paths, actual);
  }

  lemma TasksAreActual(declared: seq<Path>, actual: seq<Path>, tasks: seq<Task>, contents: map<Bytes, Bytes>)
    requires declared == Sort(PathLess, actual) && Documented(tasks, declared, contents)
    ensures forall p :: p in actual <==> exists i :: 0 <= i < |tasks| && tasks[i].path == p
  {
    forall p
      ensures p in actual <==> exists i :: 0 <= i < |tasks| && tasks[i].path == p
    {
      assert p in actual <==> p in declared;
      if p in declared { var i :| 0 <= i < |declared| && declared[i] == p; assert tasks[i].path == p; }
    }
  }

  lemma DeclaredTasksAreActual(items: seq<Option<Bytes>>, paths: seq<Path>, actual: seq<Path>)
    requires Parsed(items, paths) && Sort(PathLess, TaskPaths(paths)) == Sort(PathLess, actual)
    ensures forall i :: 0 <= i < |items| && items[i].Some? && IsTask(Parts(items[i].value)) ==>
      Parts(items[i].value) in actual
  {
    forall i | 0 <= i < |items| && items[i].Some? && IsTask(Parts(items[i].value))
      ensures Parts(items[i].value) in actual
    {
      assert paths[i] in TaskPaths(paths);
      assert paths[i] in Sort(PathLess, TaskPaths(paths));
    }
  }

  lemma DocumentIsHashed(fs: FileSystem, paths: seq<Path>, p: Path)
    requires DistinctKeys(paths) && forall i :: 0 <= i < |paths| ==> Readable(fs, paths[i])
    requires p in paths
    ensures var blobs := BlobsOf(fs, paths);
      Posix(p) in ContentsOf(blobs) && Blob(Posix(p), ContentsOf(blobs)[Posix(p)]) in blobs
  {
    var blobs := BlobsOf(fs, paths);
    var j :| 0 <= j < |paths| && paths[j] == p;
    ContentsByKey(blobs, j);
    assert blobs[j] == Blob(Posix(p), ContentsOf(blobs)[Posix(p)]);
  }

  ghost predicate SameFiles(a: seq<Path>, b: seq<Path>) {
    forall p :: p in a <==> p in b
  }

  lemma SortedEqualMeansSameFiles(a: seq<Path>, b: seq<Path>)
    ensures Sort(PathLess, a) == Sort(PathLess, b) <==> SameFiles(a, b)
  {
    PathOrderTotal();
    if SameFiles(a, b) {
      SortForgetsOrder(PathLess, a, b);
    }
    if Sort(PathLess, a) == Sort(PathLess, b) {
      forall p ensures p in a <==> p in b {
        assert p in a <==> p in Sort(PathLess, a);
      }
    }
  }

  /** Everything the script checks before it parses a task. */
  ghost predicate Accepts(fs: FileSystem, items: seq<Option<Bytes>>, expected: Bytes, actual: seq<Path>) {
    GoodInventory(items) && MatchesDisk(fs, PathsOf(items), expected, actual)
  }

  ghost predicate MatchesDisk(fs: FileSystem, paths: seq<Path>, expected: Bytes, actual: seq<Path>) {
    && (forall i :: 0 <= i < |paths| ==> Readable(fs, paths[i]))
    && Stream(BlobsOf(fs, paths)) == expected
    && [REGISTRY, QUEUE] in paths
    && SameFiles(actual, TaskPaths(paths))
  }

  /** The part of the script that reads and compares; the hashed records are `BlobsOf`. */
  method ReadChecked(fs: FileSystem, paths: seq<Path>, expected: Bytes, actual: seq<Path>)
    returns (r: Option<map<Bytes, Bytes>>)
    ensures r.Some? <==> MatchesDisk(fs, paths, expected, actual)
    ensures r.Some? ==> r.value == ContentsOf(BlobsOf(fs, paths))
  {
    var read := ReadTree(fs, paths);
    if read.None? || read.value.0 != expected {
      return None;
    }
    SortedEqualMeansSameFiles(actual, TaskPaths(paths));
    if [REGISTRY, QUEUE] !in paths || Sort(PathLess, actual) != Sort(PathLess, TaskPaths(paths)) {
      return None;
    }
    return Some(read.value.1);
  }

  /** The part of the script that parses the tasks, once everything is checked. */
  method ParseTasks(ghost fs: FileSystem, ghost items: seq<Option<Bytes>>, paths: seq<Path>,
                    contents: map<Bytes, Bytes>,
                    ghost expected: Bytes, ghost actual: seq<Path>)
    returns (tasks: seq<Task>)
    requires Parsed(items, paths) && DistinctKeys(paths) && MatchesDisk(fs, paths, expected, actual)
    requires contents == ContentsOf(BlobsOf(fs, paths))
    ensures Decode(expected).Some? && TasksAreHashed(tasks, items, actual, Decode(expected).value)
  {
    var declared := Sort(PathLess, TaskPaths(paths));
    StreamRoundTrip(BlobsOf(fs, paths));
    DeclaredAreRead(fs, paths, declared);
    SortedEqualMeansSameFiles(actual, TaskPaths(paths));
    tasks := TakeDocuments(declared, contents);
    DocumentsAreHashed(fs, items, paths, declared, actual, tasks);
  }

  /** The script from its inventory to its task documents.  `expected` is what the deployment
      manifest's digest was taken of; `actual` are the task files on disk, each once. */
  method LoadTasks(fs: FileSystem, items: seq<Option<Bytes>>, expected: Bytes, actual: seq<Path>)
    returns (r: Option<seq<Task>>)
    ensures r.Some? <==> Accepts(fs, items, expected, actual)
    ensures r.Some? ==> Decode(expected).Some? && TasksAreHashed(r.value, items, actual, Decode(expected).value)
  {
    r := None;
    var paths := CheckInventory(items);
    if paths.Some? {
      var contents := ReadChecked(fs, paths.value, expected, actual);
      if contents.Some? {
        var tasks := ParseTasks(fs, items, paths.value, contents.value, expected, actual);
        r := Some(tasks);
      }
    }
  }

  lemma DeclaredAreRead(fs: FileSystem, paths: seq<Path>, declared: seq<Path>)
    requires DistinctKeys(paths) && forall i :: 0 <= i < |paths| ==> Readable(fs, paths[i])
    requires declared == Sort(PathLess, TaskPaths(paths))
    ensures forall p :: p in declared ==> Posix(p) in ContentsOf(BlobsOf(fs, paths))
  {
    forall p | p in declared
      ensures Posix(p) in ContentsOf(BlobsOf(fs, paths))
    {
      DocumentIsHashed(fs, paths, p);
    }
  }
}
