/** Following symbolic links the way `Path.resolve` does: component by component, links in
    the middle of a path included. */
module LinkFollowing {
  import opened Common
  import opened PathText

  /** What `lstat` says about a path, as far as it matters here: a regular file is treated
      like a path that does not exist. */
  datatype Found = Dir | Link(text: Bytes)

  type Files = map<Path, Found>

  /** `solid` says that a directory was found at every step and at the end. */
  datatype Resolution =
    | Ends(path: Path, solid: bool)
    | Loops   // the path leads back to a link that is being followed
    | Leaves  // only when jailed: the path leaves its tree

  function And(r: Resolution, solid: bool): Resolution {
    if r.Ends? then Ends(r.path, r.solid && solid) else r
  }

  predicate IsDir(files: Files, p: Path) { p in files && files[p].Dir? }

  predicate IsLink(files: Files, p: Path) { p in files && files[p].Link? }

  function LinksOf(files: Files): (r: set<Path>)
    ensures forall p :: p in r <==> IsLink(files, p)
  {
    set p | p in files && files[p].Link?
  }

  const PARENT: Name := [DOT, DOT]

  predicate IsIdle(part: Name) { part == [] || part == [DOT] }

  /** Resolves `parts` from `at`; `left` are the links that are not being followed.  A jailed
      resolution neither climbs above the root nor starts over from it.  Remembering links
      that have been followed, as the program does, changes no answer. */
  function Follow(files: Files, jailed: bool, left: set<Path>, at: Path, parts: seq<Name>): Resolution
    decreases left, |parts|, 0
  {
    var here := IsDir(files, at);
    if parts == [] then Ends(at, here)
    else
      var part, rest := parts[0], parts[1..];
      if IsIdle(part) then And(Follow(files, jailed, left, at, rest), here)
      else if part == PARENT then
        if at == [] then (if jailed then Leaves else And(Follow(files, jailed, left, at, rest), here))
        else And(Follow(files, jailed, left, at[..|at| - 1], rest), here)
      else And(Enter(files, jailed, left, at, part, rest), here)
  }

  /** Goes on from the entry `part` of `at`, through it if it is a link. */
  function Enter(files: Files, jailed: bool, left: set<Path>, at: Path, part: Name, rest: seq<Name>): Resolution
    decreases left, |rest|, 1
  {
    var next := at + [part];
    if !IsLink(files, next) then Follow(files, jailed, left, next, rest)
    else if next !in left then Loops
    else if jailed && IsAbsolute(files[next].text) then Leaves
    else
      var base := if IsAbsolute(files[next].text) then [] else at;
      var link := Follow(files, jailed, left - {next}, base, Split(files[next].text));
      if link.Ends? then And(Follow(files, jailed, left, link.path, rest), link.solid) else link
  }

  /** The files of a tree, and the same tree below `root` among other files. */
  ghost predicate Shifted(files: Files, root: Path, placed: Files) {
    forall p :: (p in files <==> root + p in placed) && (p in files ==> placed[root + p] == files[p])
  }

  ghost predicate ShiftedLinks(left: set<Path>, root: Path, placedLeft: set<Path>) {
    forall p :: p in left <==> root + p in placedLeft
  }

  lemma FollowingShifts(left: set<Path>, root: Path, placedLeft: set<Path>, link: Path)
    requires ShiftedLinks(left, root, placedLeft)
    ensures ShiftedLinks(left - {link}, root, placedLeft - {root + link})
  {
    forall p ensures root + p == root + link <==> p == link {
      assert (root + p)[|root|..] == p && (root + link)[|root|..] == link;
    }
  }

  /** `s` is what `r`, a jailed resolution, becomes below `root`. */
  ghost predicate Travels(r: Resolution, s: Resolution, root: Path) {
    (r.Ends? ==> s == Ends(root + r.path, r.solid)) && (r.Loops? ==> s == Loops)
  }

  lemma DirShifts(files: Files, root: Path, placed: Files, at: Path)
    requires Shifted(files, root, placed)
    ensures IsDir(files, at) == IsDir(placed, root + at)
  {
  }

  /** One step that is no name: an idle part or a step up. */
  lemma StepTravels(files: Files, left: set<Path>, at: Path, parts: seq<Name>,
                    root: Path, placed: Files, placedLeft: set<Path>)
    requires parts != [] && !IsName(parts[0]) && (parts[0] == PARENT ==> at != [])
    requires IsDir(files, at) == IsDir(placed, root + at)
    requires var next, rest := if parts[0] == PARENT then at[..|at| - 1] else at, parts[1..];
      Travels(Follow(files, true, left, next, rest), Follow(placed, false, placedLeft, root + next, rest), root)
    ensures Travels(Follow(files, true, left, at, parts), Follow(placed, false, placedLeft, root + at, parts), root)
  {
    if at != [] { assert (root + at)[..|root + at| - 1] == root + at[..|at| - 1]; }
  }

  /** Following that never leaves its tree goes the same way wherever the tree is put. */
  lemma {:induction false} FollowTravels(files: Files, left: set<Path>, at: Path, parts: seq<Name>,
                                         root: Path, placed: Files, placedLeft: set<Path>)
    requires Shifted(files, root, placed) && ShiftedLinks(left, root, placedLeft)
    ensures Travels(Follow(files, true, left, at, parts), Follow(placed, false, placedLeft, root + at, parts), root)
    decreases left, |parts|, 0
  {
    DirShifts(files, root, placed, at);
    if parts != [] {
      var part, rest := parts[0], parts[1..];
      if IsName(part) {
        NameTravels(files, left, at, part, rest, root, placed, placedLeft);
      } else if part != PARENT || at != [] {
        FollowTravels(files, left, if part == PARENT then at[..|at| - 1] else at, rest, root, placed, placedLeft);
        StepTravels(files, left, at, parts, root, placed, placedLeft);
      }
    }
  }

  predicate IsName(part: Name) { !IsIdle(part) && part != PARENT }

  lemma {:induction false} NameTravels(files: Files, left: set<Path>, at: Path, part: Name, rest: seq<Name>,
                                       root: Path, placed: Files, placedLeft: set<Path>)
    requires Shifted(files, root, placed) && ShiftedLinks(left, root, placedLeft) && IsName(part)
    ensures var r := Enter(files, true, left, at, part, rest);
      Travels(r, Enter(placed, false, placedLeft, root + at, part, rest), root)
    decreases left, |rest|, 1
  {
    var next := at + [part];
    assert root + at + [part] == root + next;
    if !IsLink(files, next) {
      FollowTravels(files, left, next, rest, root, placed, placedLeft);
    } else if next in left && !IsAbsolute(files[next].text) {
      FollowingShifts(left, root, placedLeft, next);
      var text := Split(files[next].text);
      FollowTravels(files, left - {next}, at, text, root, placed, placedLeft - {root + next});
      var r := Follow(files, true, left - {next}, at, text);
      if r.Ends? { FollowTravels(files, left, r.path, rest, root, placed, placedLeft); }
    }
  }

  // ------------------------------------------------------------ leaving the tree

  /** Nothing but the tree below `[spare]`, and no link says `spare`. */
  ghost predicate Alone(placed: Files, spare: Name) {
    forall p :: p in placed && placed[p].Link? ==> [spare] <= p && spare !in Split(placed[p].text)
  }

  predicate EndsOutside(r: Resolution, spare: Name) {
    r.Ends? && !([spare] <= r.path)
  }

  /** Once outside, such a path never finds its way back. */
  lemma {:induction false} OutsideStays(placed: Files, left: set<Path>, at: Path, parts: seq<Name>, spare: Name)
    requires Alone(placed, spare) && !([spare] <= at) && spare !in parts
    ensures EndsOutside(Follow(placed, false, left, at, parts), spare)
    decreases |parts|
  {
    if parts != [] {
      var part, rest := parts[0], parts[1..];
      assert part in parts && spare !in rest;
      if IsIdle(part) {
        OutsideStays(placed, left, at, rest, spare);
      } else if part == PARENT {
        OutsideStays(placed, left, if at == [] then at else at[..|at| - 1], rest, spare);
      } else {
        assert !([spare] <= at + [part]) by { if at == [] { assert (at + [part])[0] == part; } }
        OutsideStays(placed, left, at + [part], rest, spare);
      }
    }
  }

  /** Following that leaves its tree ends outside, where the tree is all there is. */
  lemma {:induction false} LeavingEndsOutside(files: Files, left: set<Path>, at: Path, parts: seq<Name>,
                                              spare: Name, placed: Files, placedLeft: set<Path>)
    requires Shifted(files, [spare], placed) && ShiftedLinks(left, [spare], placedLeft)
    requires Alone(placed, spare) && spare !in parts
    requires Follow(files, true, left, at, parts).Leaves?
    ensures EndsOutside(Follow(placed, false, placedLeft, [spare] + at, parts), spare)
    decreases left, |parts|, 0
  {
    var root := [spare];
    var part, rest := parts[0], parts[1..];
    assert part in parts && spare !in rest;
    if IsIdle(part) {
      LeavingEndsOutside(files, left, at, rest, spare, placed, placedLeft);
    } else if part == PARENT {
      assert (root + at)[..|root + at| - 1] == if at == [] then [] else root + at[..|at| - 1];
      if at == [] {
        OutsideStays(placed, placedLeft, [], rest, spare);
      } else {
        LeavingEndsOutside(files, left, at[..|at| - 1], rest, spare, placed, placedLeft);
      }
    } else {
      NameLeaves(files, left, at, part, rest, spare, placed, placedLeft);
    }
  }

  lemma {:induction false} NameLeaves(files: Files, left: set<Path>, at: Path, part: Name, rest: seq<Name>,
                                      spare: Name, placed: Files, placedLeft: set<Path>)
    requires Shifted(files, [spare], placed) && ShiftedLinks(left, [spare], placedLeft)
    requires Alone(placed, spare) && spare !in rest && IsName(part)
    requires Enter(files, true, left, at, part, rest).Leaves?
    ensures EndsOutside(Enter(placed, false, placedLeft, [spare] + at, part, rest), spare)
    decreases left, |rest|, 1
  {
    var next := at + [part];
    assert [spare] + at + [part] == [spare] + next;
    if !IsLink(files, next) {
      LeavingEndsOutside(files, left, next, rest, spare, placed, placedLeft);
    } else {
      var text, inner := Split(files[next].text), placedLeft - {[spare] + next};
      assert placed[[spare] + next].Link?;
      FollowingShifts(left, [spare], placedLeft, next);
      if IsAbsolute(files[next].text) {
        OutsideStays(placed, inner, [], text, spare);
        OutsideStays(placed, placedLeft, Follow(placed, false, inner, [], text).path, rest, spare);
      } else {
        var r := Follow(files, true, left - {next}, at, text);
        if r.Leaves? {
          LeavingEndsOutside(files, left - {next}, at, text, spare, placed, inner);
          OutsideStays(placed, placedLeft, Follow(placed, false, inner, [spare] + at, text).path, rest, spare);
        } else {
          FollowTravels(files, left - {next}, at, text, [spare], placed, inner);
          LeavingEndsOutside(files, left, r.path, rest, spare, placed, placedLeft);
        }
      }
    }
  }

  lemma {:induction false} LongestName(names: set<Name>) returns (n: nat)
    ensures forall x :: x in names ==> |x| <= n
  {
    n := 0;
    if names != {} {
      var x :| x in names;
      var m := LongestName(names - {x});
      n := if |x| > m then |x| else m;
      assert forall y :: y in names ==> y == x || y in names - {x};
    }
  }

  /** A name that does not occur. */
  lemma FreshName(names: set<Name>) returns (spare: Name)
    ensures spare !in names && spare != []
  {
    var n := LongestName(names);
    spare := seq(n + 1, _ => 97);
  }
}
