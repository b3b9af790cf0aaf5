/** The node identities of a Mermaid map (src/controllers/ecosystemMapNavigation.ts,
    `extractMermaidNodeIdentities`). */
module MermaidNodes {
  import opened Common
  import opened JsText

  /** The three groups of a line that defines a node; `caption` is its label. */
  datatype Definition = Definition(mermaidId: JsString, caption: JsString, nodeId: JsString)

  /** A line; `None` is one the expression does not match. */
  type Line = Option<Definition>

  datatype Identity = Identity(mermaidId: JsString, nodeId: JsString, caption: JsString, line: nat)

  predicate Usable(line: Line) {
    line.Some? && Trim(line.value.caption) != [] && Trim(line.value.nodeId) != []
  }

  function IdentityAt(lines: seq<Line>, i: nat): Identity
    requires i < |lines| && lines[i].Some?
  {
    Identity(lines[i].value.mermaidId, Trim(lines[i].value.nodeId), Trim(lines[i].value.caption), i + 1)
  }

  /** Two identities that cannot both be used. */
  predicate Clash(a: Identity, b: Identity) {
    a.mermaidId == b.mermaidId || a.nodeId == b.nodeId
  }

  ghost predicate Clashes(found: seq<Identity>, x: Identity) {
    exists a :: 0 <= a < |found| && Clash(found[a], x)
  }

  ghost predicate ClashesBefore(found: seq<Identity>, x: Identity) {
    exists a :: 0 <= a < |found| && found[a].line < x.line && Clash(found[a], x)
  }

  ghost predicate Has(found: seq<Identity>, line: nat) {
    exists a :: 0 <= a < |found| && found[a].line == line
  }

  /** Read from a usable line among the first `n`, as it stands. */
  ghost predicate FromLine(lines: seq<Line>, n: nat, x: Identity)
    requires n <= |lines|
  {
    1 <= x.line <= n && Usable(lines[x.line - 1]) && x == IdentityAt(lines, x.line - 1)
  }

  /** In the order of the lines, neither id used twice. */
  ghost predicate Compatible(found: seq<Identity>) {
    forall a, b :: 0 <= a < b < |found| ==> found[a].line < found[b].line && !Clash(found[a], found[b])
  }

  /** A usable line is missing only if an identity from before it clashes with it. */
  ghost predicate Accounted(lines: seq<Line>, found: seq<Identity>, i: nat)
    requires i < |lines|
  {
    Usable(lines[i]) && !Has(found, i + 1) ==> ClashesBefore(found, IdentityAt(lines, i))
  }

  /** The identities of the first `n` lines. */
  ghost predicate IsExtraction(lines: seq<Line>, n: nat, found: seq<Identity>)
    requires n <= |lines|
  {
    && (forall a :: 0 <= a < |found| ==> FromLine(lines, n, found[a]))
    && Compatible(found)
    && (forall i :: 0 <= i < n ==> Accounted(lines, found, i))
  }

  /** A line that is not used: because it is unusable, or because of a clash. */
  lemma SkipLine(lines: seq<Line>, i: nat, found: seq<Identity>)
    requires i < |lines| && IsExtraction(lines, i, found)
    requires Usable(lines[i]) ==> Clashes(found, IdentityAt(lines, i))
    ensures IsExtraction(lines, i + 1, found)
  {
    forall a | 0 <= a < |found| ensures FromLine(lines, i + 1, found[a]) {
      assert FromLine(lines, i, found[a]);
    }
  }

  lemma UseLine(lines: seq<Line>, i: nat, found: seq<Identity>)
    requires i < |lines| && IsExtraction(lines, i, found)
    requires Usable(lines[i]) && !Clashes(found, IdentityAt(lines, i))
    ensures IsExtraction(lines, i + 1, found + [IdentityAt(lines, i)])
  {
    var x := IdentityAt(lines, i);
    forall a | 0 <= a < |found| ensures FromLine(lines, i + 1, found[a]) {
      assert FromLine(lines, i, found[a]);
    }
    forall j | 0 <= j < i + 1 ensures Accounted(lines, found + [x], j) {
      MoreAccounts(lines, found, x, j);
    }
  }

  lemma MoreAccounts(lines: seq<Line>, found: seq<Identity>, x: Identity, j: nat)
    requires j < |lines| && (Accounted(lines, found, j) || x.line == j + 1)
    ensures Accounted(lines, found + [x], j)
  {
    var more := found + [x];
    assert more[|found|] == x;
    if a :| 0 <= a < |found| && found[a].line == j + 1 {
      assert more[a].line == j + 1;
    } else if Usable(lines[j]) && x.line != j + 1 {
      var a :| 0 <= a < |found| && found[a].line < j + 1 && Clash(found[a], IdentityAt(lines, j));
      assert more[a] == found[a];
    }
  }

  /** `extractMermaidNodeIdentities`, from the matched lines on. */
  method ExtractIdentities(lines: seq<Line>) returns (found: seq<Identity>)
    ensures IsExtraction(lines, |lines|, found)
  {
    found := [];
    var mermaidIds: set<JsString>, nodeIds: set<JsString> := {}, {};
    for i := 0 to |lines|
      invariant IsExtraction(lines, i, found)
      invariant Seen(found, mermaidIds, nodeIds)
    {
      if !Usable(lines[i]) {
        SkipLine(lines, i, found);
        continue;
      }
      var x := IdentityAt(lines, i);
      assert Clashes(found, x) <==> x.mermaidId in mermaidIds || x.nodeId in nodeIds;
      if x.mermaidId in mermaidIds || x.nodeId in nodeIds {
        SkipLine(lines, i, found);
        continue;
      }
      UseLine(lines, i, found);
      SeenStep(found, x, mermaidIds, nodeIds);
      mermaidIds, nodeIds := mermaidIds + {x.mermaidId}, nodeIds + {x.nodeId};
      found := found + [x];
    }
  }

  /** The two sets know which identities would clash. */
  ghost predicate Seen(found: seq<Identity>, mermaidIds: set<JsString>, nodeIds: set<JsString>) {
    forall x: Identity :: Clashes(found, x) <==> x.mermaidId in mermaidIds || x.nodeId in nodeIds
  }

  lemma SeenStep(found: seq<Identity>, x: Identity, mermaidIds: set<JsString>, nodeIds: set<JsString>)
    requires Seen(found, mermaidIds, nodeIds)
    ensures Seen(found + [x], mermaidIds + {x.mermaidId}, nodeIds + {x.nodeId})
  {
    var more := found + [x];
    forall y: Identity
      ensures Clashes(more, y) <==> Clashes(found, y) || Clash(x, y)
    {
      if a :| 0 <= a < |found| && Clash(found[a], y) { assert more[a] == found[a]; }
      assert more[|found|] == x;
    }
  }

  /** The answer for `n` lines, without what the last of them gives. */
  function Without(found: seq<Identity>, n: nat): seq<Identity> {
    if found != [] && found[|found| - 1].line == n then found[..|found| - 1] else found
  }

  lemma LastLine(lines: seq<Line>, n: nat, found: seq<Identity>)
    requires 0 < n <= |lines| && IsExtraction(lines, n, found)
    ensures IsExtraction(lines, n - 1, Without(found, n))
  {
    var less := Without(found, n);
    forall a | 0 <= a < |less| ensures FromLine(lines, n - 1, less[a]) {
      assert FromLine(lines, n, found[a]);
    }
    forall i | 0 <= i < n - 1 ensures Accounted(lines, less, i) {
      assert Accounted(lines, found, i);
      FewerAccount(lines, n, found, i);
    }
  }

  /** What the last line gives is decided by the lines before it. */
  lemma LastLineGives(lines: seq<Line>, n: nat, found: seq<Identity>)
    requires 0 < n <= |lines| && IsExtraction(lines, n, found)
    ensures found == if Usable(lines[n - 1]) && !Clashes(Without(found, n), IdentityAt(lines, n - 1))
                     then Without(found, n) + [IdentityAt(lines, n - 1)] else Without(found, n)
  {
    var less := Without(found, n);
    if less == found {
      assert Accounted(lines, found, n - 1);
      if found != [] { LineInRange(lines, n, found, |found| - 1); }
    } else {
      assert FromLine(lines, n, found[|less|]);
      assert found == less + [found[|less|]];
    }
  }

  lemma FewerAccount(lines: seq<Line>, n: nat, found: seq<Identity>, i: nat)
    requires i + 1 < n <= |lines| && Accounted(lines, found, i)
    ensures Accounted(lines, Without(found, n), i)
  {
    var less := Without(found, n);
    if a :| 0 <= a < |found| && found[a].line == i + 1 {
      assert less[a] == found[a];
    } else if Usable(lines[i]) {
      var a :| 0 <= a < |found| && found[a].line < i + 1 && Clash(found[a], IdentityAt(lines, i));
      assert less[a] == found[a];
    }
  }

  lemma LineInRange(lines: seq<Line>, n: nat, found: seq<Identity>, a: nat)
    requires n <= |lines| && IsExtraction(lines, n, found) && a < |found|
    ensures 1 <= found[a].line <= n
  {
    assert FromLine(lines, n, found[a]);
  }

  /** The conditions leave one answer: the greedy one. */
  lemma {:induction false} ExtractionIsUnique(lines: seq<Line>, n: nat, a: seq<Identity>, b: seq<Identity>)
    requires n <= |lines| && IsExtraction(lines, n, a) && IsExtraction(lines, n, b)
    ensures a == b
    decreases n
  {
    if n > 0 {
      LastLine(lines, n, a);
      LastLine(lines, n, b);
      LastLineGives(lines, n, a);
      LastLineGives(lines, n, b);
      ExtractionIsUnique(lines, n - 1, Without(a, n), Without(b, n));
    } else {
      if a != [] { LineInRange(lines, n, a, 0); }
      if b != [] { LineInRange(lines, n, b, 0); }
    }
  }
}
