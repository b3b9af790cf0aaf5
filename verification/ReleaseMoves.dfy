/** Which release trees can be moved: the links that lead to the same place in the tree
    wherever it is put, and the links that do not (scripts/leitstand-release.py). */
module ReleaseMoves {
  import opened Common
  import opened PathText
  import opened LinkFollowing
  import opened ReleaseTree
  import opened ReleaseBuild

  // ---------------------------------------------------------------- a tree somewhere else

  lemma {:induction false} FilesAreBelow(at: Path, node: Node)
    ensures forall p :: p in FilesOf(at, node) ==> at <= p
    decreases node, 1, 0
  {
    if node.Directory? { EntryFilesAreBelow(at, node.entries, node); }
  }

  lemma {:induction false} EntryFilesAreBelow(dir: Path, s: seq<Entry>, parent: Node)
    requires parent.Directory? && forall e :: e in s ==> e in parent.entries
    ensures forall p :: p in FilesOfEntries(dir, s, parent) ==> dir < p
    decreases parent, 0, |s|
  {
    if s != [] {
      assert s[0] in parent.entries;
      FilesAreBelow(dir + [s[0].name], s[0].node);
      EntryFilesAreBelow(dir, s[1..], parent);
    }
  }

  lemma {:induction false} FilesShift(root: Path, at: Path, node: Node)
    ensures Shifted(FilesOf(at, node), root, FilesOf(root + at, node))
    decreases node, 1, 0
  {
    forall p ensures root + p == root + at <==> p == at {
      assert (root + p)[|root|..] == p && (root + at)[|root|..] == at;
    }
    if node.Directory? { EntryFilesShift(root, at, node.entries, node); }
  }

  lemma {:induction false} EntryFilesShift(root: Path, dir: Path, s: seq<Entry>, parent: Node)
    requires parent.Directory? && forall e :: e in s ==> e in parent.entries
    ensures Shifted(FilesOfEntries(dir, s, parent), root, FilesOfEntries(root + dir, s, parent))
    decreases parent, 0, |s|
  {
    if s != [] {
      assert s[0] in parent.entries;
      assert root + dir + [s[0].name] == root + (dir + [s[0].name]);
      FilesShift(root, dir + [s[0].name], s[0].node);
      EntryFilesShift(root, dir, s[1..], parent);
    }
  }

  lemma PlacedShifts(world: World, root: Path, t: Node)
    ensures Shifted(FilesOf([], t), root, Placed(world, root, t).files)
    ensures ShiftedLinks(LinksOf(FilesOf([], t)), root, LinksOf(Placed(world, root, t).files))
  {
    FilesShift(root, [], t);
    assert root + [] == root;
  }

  // ---------------------------------------------------------------- links that stay

  /** Where a link in `dir` of the tree leads without ever leaving the tree. */
  function EndInTree(t: Node, dir: Path, text: Bytes): Resolution {
    if IsAbsolute(text) then Leaves
    else Follow(FilesOf([], t), true, LinksOf(FilesOf([], t)), dir, Split(text))
  }

  /** No special file, and every link, with the links on its way, stays in the tree. */
  ghost predicate LinksStay(t: Node, dir: Path, node: Node)
    requires node.Directory?
    decreases node
  {
    forall e :: e in node.entries ==> EntryStays(t, dir, e)
  }

  ghost predicate EntryStays(t: Node, dir: Path, e: Entry)
    decreases e
  {
    && !e.node.Special?
    && (e.node.Symlink? ==> EndInTree(t, dir, e.node.text).Ends?)
    && (e.node.Directory? ==> LinksStay(t, dir + [e.name], e.node))
  }

  /** A link that stays in its tree leads to the same place wherever the tree is put. */
  lemma StayingLinkTravels(world: World, root: Path, t: Node, dir: Path, text: Bytes)
    requires EndInTree(t, dir, text).Ends?
    ensures var end := EndInTree(t, dir, text);
      LinkEnd(Placed(world, root, t), dir, text) == Ends(root + end.path, end.solid)
  {
    PlacedShifts(world, root, t);
    var place := Placed(world, root, t);
    FollowTravels(FilesOf([], t), LinksOf(FilesOf([], t)), dir, Split(text), root, place.files, LinksOf(place.files));
  }

  lemma {:induction false} StayingLinksWalk(world: World, root: Path, t: Node, dir: Path, node: Node)
    requires node.Directory? && LinksStay(t, dir, node)
    ensures Walkable(Placed(world, root, t), dir, node)
    decreases node
  {
    var place := Placed(world, root, t);
    forall e | e in node.entries
      ensures Acceptable(place, dir, e) && (e.node.Directory? ==> Walkable(place, dir + [e.name], e.node))
    {
      assert EntryStays(t, dir, e);
      if e.node.Symlink? { StayingLinkTravels(world, root, t, dir, e.node.text); }
      if e.node.Directory? { StayingLinksWalk(world, root, t, dir + [e.name], e.node); }
    }
  }

  /** Two places at which `os.walk` sorts every entry in the same way. */
  ghost predicate SameKinds(p: Place, q: Place, dir: Path, s: seq<Entry>) {
    forall e :: e in s ==> DirectoryLike(p, dir, e) == DirectoryLike(q, dir, e)
  }

  lemma {:induction false} OnlyAgrees(p: Place, q: Place, dir: Path, s: seq<Entry>, directories: bool)
    requires SameKinds(p, q, dir, s)
    ensures Only(p, dir, s, directories) == Only(q, dir, s, directories)
  {
    if s != [] {
      assert s[0] in s && forall e :: e in s[1..] ==> e in s;
      OnlyAgrees(p, q, dir, s[1..], directories);
    }
  }

  lemma {:induction false} StayingRecordsTravel(t: Node, w: World, a: Path, v: World, b: Path, dir: Path, node: Node)
    requires node.Directory? && LinksStay(t, dir, node)
    ensures Records(Placed(w, a, t), dir, node) == Records(Placed(v, b, t), dir, node)
    decreases node, 1, 0
  {
    var p, q := Placed(w, a, t), Placed(v, b, t);
    forall e | e in node.entries ensures DirectoryLike(p, dir, e) == DirectoryLike(q, dir, e) {
      assert EntryStays(t, dir, e);
      if e.node.Symlink? {
        StayingLinkTravels(w, a, t, dir, e.node.text);
        StayingLinkTravels(v, b, t, dir, e.node.text);
      }
    }
    OnlyAgrees(p, q, dir, node.entries, true);
    OnlyAgrees(p, q, dir, node.entries, false);
    StayingBelowTravels(t, w, a, v, b, dir, Dirs(p, dir, node.entries), node);
  }

  lemma {:induction false} StayingBelowTravels(t: Node, w: World, a: Path, v: World, b: Path, dir: Path,
                                               dirs: seq<Entry>, node: Node)
    requires node.Directory? && LinksStay(t, dir, node) && forall e :: e in dirs ==> e in node.entries
    ensures Below(Placed(w, a, t), dir, dirs, node) == Below(Placed(v, b, t), dir, dirs, node)
    decreases node, 0, |dirs|
  {
    if dirs != [] {
      assert dirs[0] in node.entries && EntryStays(t, dir, dirs[0]);
      if dirs[0].node.Directory? { StayingRecordsTravel(t, w, a, v, b, dir + [dirs[0].name], dirs[0].node); }
      StayingBelowTravels(t, w, a, v, b, dir, dirs[1..], node);
    }
  }

  /** A tree whose links stay in it builds at any place, and its digest is found again at
      any other, whatever else is on the machine. */
  lemma BuiltReleaseVerifies(t: Node, at: nat, manifest: Bytes,
                             before: World, temporary: Path, after: World, final: Path)
    requires t.Directory? && at <= |t.entries| && forall e :: e in t.entries ==> e.name != MANIFEST
    requires LinksStay(t, [], t)
    ensures TreeStream(before, temporary, Built(t)).Some?
    ensures TreeStream(after, final, Published(t, at, manifest)) == TreeStream(before, temporary, Built(t))
  {
    StayingLinksWalk(before, temporary, t, [], t);
    StayingLinksWalk(after, final, t, [], t);
    StayingRecordsTravel(t, before, temporary, after, final, [], t);
    PublishedIsBuilt(before, temporary, t, at, manifest);
    PublishedIsBuilt(after, final, t, at, manifest);
  }

  // ---------------------------------------------------------------- links that do not

  /** The parts of all link texts. */
  function Texts(node: Node): set<Name>
    decreases node, 1, 0
  {
    match node
    case Symlink(text) => (set x | x in Split(text))
    case Directory(_, entries) => TextsOf(entries, node)
    case _ => {}
  }

  function TextsOf(s: seq<Entry>, ghost parent: Node): (r: set<Name>)
    requires parent.Directory? && forall e :: e in s ==> e in parent.entries
    ensures forall e :: e in s ==> e in parent.entries && Texts(e.node) <= r
    decreases parent, 0, |s|
  {
    if s == [] then {}
    else
      assert s[0] in parent.entries;
      Texts(s[0].node) + TextsOf(s[1..], parent)
  }

  ghost predicate TextsWithin(files: Files, texts: set<Name>) {
    forall p, x :: p in files && files[p].Link? && x in Split(files[p].text) ==> x in texts
  }

  lemma {:induction false} FilesSayTexts(at: Path, node: Node)
    ensures TextsWithin(FilesOf(at, node), Texts(node))
    decreases node, 1, 0
  {
    if node.Directory? { EntryFilesSayTexts(at, node.entries, node); }
  }

  lemma {:induction false} EntryFilesSayTexts(dir: Path, s: seq<Entry>, parent: Node)
    requires parent.Directory? && forall e :: e in s ==> e in parent.entries
    ensures TextsWithin(FilesOfEntries(dir, s, parent), TextsOf(s, parent))
    decreases parent, 0, |s|
  {
    if s != [] {
      assert s[0] in parent.entries;
      FilesSayTexts(dir + [s[0].name], s[0].node);
      EntryFilesSayTexts(dir, s[1..], parent);
    }
  }

  /** A machine with nothing else on it, which does not let looping links through. */
  const BARE := World(map[], (dir, text) => false)

  lemma BareIsAlone(t: Node, spare: Name)
    requires t.Directory? && spare !in Texts(t)
    ensures Alone(Placed(BARE, [spare], t).files, spare)
  {
    var files := Placed(BARE, [spare], t).files;
    FilesSayTexts([spare], t);
    FilesAreBelow([spare], t);
    forall p | p in files && files[p].Link? ensures [spare] <= p && spare !in Split(files[p].text) {
      assert p in FilesOf([spare], t);
    }
  }

  lemma StrayLinkFails(t: Node, dir: Path, text: Bytes, spare: Name)
    requires t.Directory? && spare !in Texts(t) && spare !in Split(text) && !EndInTree(t, dir, text).Ends?
    ensures !Inside(Placed(BARE, [spare], t), dir, text)
  {
    var place := Placed(BARE, [spare], t);
    BareIsAlone(t, spare);
    PlacedShifts(BARE, [spare], t);
    var rel, left := FilesOf([], t), LinksOf(place.files);
    if IsAbsolute(text) {
      OutsideStays(place.files, left, [], Split(text), spare);
    } else if EndInTree(t, dir, text).Leaves? {
      LeavingEndsOutside(rel, LinksOf(rel), dir, Split(text), spare, place.files, left);
    } else {
      FollowTravels(rel, LinksOf(rel), dir, Split(text), [spare], place.files, left);
    }
  }

  lemma {:induction false} StrayLinksFail(t: Node, dir: Path, node: Node, spare: Name)
    requires t.Directory? && node.Directory? && !LinksStay(t, dir, node)
    requires spare !in Texts(t) && spare !in Texts(node)
    ensures !Walkable(Placed(BARE, [spare], t), dir, node)
    decreases node
  {
    var e :| e in node.entries && !EntryStays(t, dir, e);
    assert Texts(e.node) <= TextsOf(node.entries, node);
    if e.node.Symlink? {
      StrayLinkFails(t, dir, e.node.text, spare);
    } else if e.node.Directory? {
      StrayLinksFail(t, dir + [e.name], e.node, spare);
    }
  }

  /** The trees that can be walked wherever they are put, on whatever machine, are exactly
      those whose links stay in the tree. */
  lemma WalkableEverywhere(t: Node)
    requires t.Directory?
    ensures LinksStay(t, [], t) <==> forall world, root :: Walkable(Placed(world, root, t), [], t)
  {
    if LinksStay(t, [], t) {
      forall world, root ensures Walkable(Placed(world, root, t), [], t) {
        StayingLinksWalk(world, root, t, [], t);
      }
    } else {
      var spare := FreshName(Texts(t));
      StrayLinksFail(t, [], t, spare);
    }
  }

  // ---------------------------------------------------------------- three links

  const A: Name := [97]
  const D: Name := [100]
  const S: Name := [115]
  const X: Name := [120]

  lemma SplitTwo(a: Name, b: Name)
    requires SLASH !in a && SLASH !in b
    ensures Split(a + [SLASH] + b) == [a, b]
  {
    SplitFirst(a, b);
    SplitName(b);
  }

  lemma SplitThree(a: Name, b: Name, c: Name)
    requires SLASH !in a && SLASH !in b && SLASH !in c
    ensures Split(a + [SLASH] + (b + [SLASH] + c)) == [a, b, c]
  {
    SplitFirst(a, b + [SLASH] + c);
    SplitTwo(b, c);
  }

  /** An absolute link into the build directory passes the build's digest and, once that
      directory is gone, fails the verification after the rename. */
  lemma AbsoluteLinkBreaks(t: Node, before: World, temporary: Path, after: World, final: Path)
    requires t == Directory(0x1C0, [Entry(A, Symlink([SLASH] + A))])
    requires temporary == [A] && final == [X] && [A] !in after.files
    ensures TreeStream(before, temporary, Built(t)).Some? && TreeStream(after, final, Published(t, 0, [])).None?
  {
    DigestExists(before, temporary, t, 0, []);
    DigestExists(after, final, t, 0, []);
    OneLinkWalks(Placed(before, temporary, t), t);
    OneLinkWalks(Placed(after, final, t), t);
    AbsoluteEnd(before, temporary, t);
    AbsoluteEnd(after, final, t);
  }

  lemma OneLinkWalks(place: Place, t: Node)
    requires t.Directory? && |t.entries| == 1 && t.entries[0].node.Symlink?
    ensures Walkable(place, [], t) <==> Inside(place, [], t.entries[0].node.text)
  {
    assert t.entries[0] in t.entries && forall e :: e in t.entries ==> e == t.entries[0];
  }

  lemma AbsoluteEnd(world: World, root: Path, t: Node)
    requires t == Directory(0x1C0, [Entry(A, Symlink([SLASH] + A))])
    requires root == [A] || (root == [X] && [A] !in world.files)
    ensures Inside(Placed(world, root, t), [], [SLASH] + A) <==> root == [A]
  {
    SplitTwo([], A);
    assert [] + [SLASH] + A == [SLASH] + A;
    var files := Placed(world, root, t).files;
    var left := LinksOf(files);
    FilesAreBelow(root, t);
    assert !IsLink(files, [A]) by {
      if root == [X] { assert root[0] != [A][0]; } else { assert FilesOf(root, t)[root] == Dir; }
    }
    var parts: seq<Name> := [[], A];
    assert parts[1..] == [A] && parts[1..][1..] == [] && [] + [A] == [A];
    assert Enter(files, false, left, [], A, []) == Ends([A], IsDir(files, [A]));
    assert Follow(files, false, left, [], [A]).path == [A];
    assert Follow(files, false, left, [], parts).path == [A];
    assert A[0] != X[0];
  }

  /** The link `d -> ..` in directory `s`, and `x -> s/d/..` beside it: no part of either text
      climbs out, but the second leaves the tree through the first. */
  lemma LinkThroughLinkLeaves(t: Node, inner: Node)
    requires inner == Directory(0x1C0, [Entry(D, Symlink(PARENT))])
    requires t == Directory(0x1C0, [Entry(S, inner), Entry(X, Symlink(S + [SLASH] + (D + [SLASH] + PARENT)))])
    ensures EndInTree(t, [S], PARENT).Ends?
    ensures EndInTree(t, [], S + [SLASH] + (D + [SLASH] + PARENT)).Leaves? && !LinksStay(t, [], t)
  {
    var files := FilesOf([], t);
    ChainFiles(t, inner);
    SplitThree(S, D, PARENT);
    SplitName(PARENT);
    StepUp(files, LinksOf(files));
    ChainLeaves(files, LinksOf(files));
    assert t.entries[1] in t.entries && !EntryStays(t, [], t.entries[1]);
  }

  lemma ChainFiles(t: Node, inner: Node)
    requires inner == Directory(0x1C0, [Entry(D, Symlink(PARENT))])
    requires t == Directory(0x1C0, [Entry(S, inner), Entry(X, Symlink(S + [SLASH] + (D + [SLASH] + PARENT)))])
    ensures var files := FilesOf([], t);
      [S] in files && files[[S]].Dir? && [S, D] in files && files[[S, D]] == Link(PARENT)
  {
    var rest := t.entries[1..];
    assert [] + [S] == [S] && [S] + [D] == [S, D] && [] + [X] == [X];
    assert inner.entries[1..] == [] && rest[1..] == [];
    assert FilesOfEntries([S], inner.entries, inner) == map[[S, D] := Link(PARENT)];
    assert FilesOf([S], inner) == map[[S, D] := Link(PARENT), [S] := Dir];
    assert FilesOfEntries([], rest, t) == map[[X] := Link(rest[0].node.text)];
    assert [X][0] != [S][0];
  }

  /** `..` from directory `s` ends at the root. */
  lemma StepUp(files: Files, left: set<Path>)
    ensures var r := Follow(files, true, left, [S], [PARENT]); r.Ends? && r.path == []
  {
    assert [S][..0] == [] && [PARENT][1..] == [];
  }

  lemma ChainLeaves(files: Files, left: set<Path>)
    requires !IsLink(files, [S]) && IsLink(files, [S, D]) && files[[S, D]].text == PARENT && [S, D] in left
    ensures Follow(files, true, left, [], [S, D, PARENT]).Leaves?
  {
    var parts: seq<Name> := [S, D, PARENT];
    assert parts[1..] == [D, PARENT] && parts[1..][1..] == [PARENT] && [] + [S] == [S] && [S] + [D] == [S, D];
    SplitName(PARENT);
    StepUp(files, left - {[S, D]});
    assert Follow(files, true, left, [], [PARENT]).Leaves?;
    assert Enter(files, true, left, [S], D, [PARENT]).Leaves?;
    assert Follow(files, true, left, [S], [D, PARENT]).Leaves?;
  }
}
