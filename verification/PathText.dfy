/** Paths as sequences of names, their textual form, and the order of names. */
module PathText {
  import opened Common
  import opened Orders

  type Name = Bytes
  type Path = seq<Name>

  const SLASH: byte := 47
  const DOT: byte := 46

  /** The parts between slashes. */
  function Split(text: Bytes): (r: seq<Name>)
    ensures |r| > 0
  {
    if text == [] then [[]]
    else if text[0] == SLASH then [[]] + Split(text[1..])
    else var rest := Split(text[1..]); [[text[0]] + rest[0]] + rest[1..]
  }

  function Join(p: Path): Bytes {
    if p == [] then []
    else if |p| == 1 then p[0]
    else p[0] + [SLASH] + Join(p[1..])
  }

  predicate IsAbsolute(text: Bytes) { text != [] && text[0] == SLASH }

  ghost predicate SlashFree(p: Path) {
    forall i :: 0 <= i < |p| ==> SLASH !in p[i]
  }

  lemma {:induction false} SplitName(name: Name)
    requires SLASH !in name
    ensures Split(name) == [name]
  {
    if name != [] {
      SplitName(name[1..]);
      assert [name[0]] + name[1..] == name;
    }
  }

  lemma {:induction false} SplitFirst(name: Name, rest: Bytes)
    requires SLASH !in name
    ensures Split(name + [SLASH] + rest) == [name] + Split(rest)
  {
    var text := name + [SLASH] + rest;
    if name == [] {
      assert text[1..] == rest;
    } else {
      assert text[1..] == name[1..] + [SLASH] + rest;
      SplitFirst(name[1..], rest);
      assert [text[0]] + name[1..] == name;
    }
  }

  /** A path of names is recovered from its text. */
  lemma {:induction false} SplitJoin(p: Path)
    requires p != [] && SlashFree(p)
    ensures Split(Join(p)) == p
  {
    if |p| == 1 {
      SplitName(p[0]);
    } else {
      SplitJoin(p[1..]);
      SplitFirst(p[0], Join(p[1..]));
    }
  }

  lemma JoinInjective(p: Path, q: Path)
    requires p != [] && q != [] && SlashFree(p) && SlashFree(q) && Join(p) == Join(q)
    ensures p == q
  {
    SplitJoin(p);
    SplitJoin(q);
  }

  predicate ByteLess(a: byte, b: byte) { a < b }

  predicate NameLess(a: Name, b: Name) { LexLess(ByteLess, a, b) }

  lemma NameOrderTotal()
    ensures Total(NameLess)
  {
    LexTotal(ByteLess, NameLess);
  }
}
