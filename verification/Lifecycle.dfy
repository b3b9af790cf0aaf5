/** Lifecycle metadata of the ecosystem registry: exact calendar dates and the inspection of
    its nodes (src/controllers/ecosystemMap.ts). */
module Lifecycle {
  import opened Common
  import opened Orders
  import opened JsText

  // ---------------------------------------------------------------- calendar dates

  const HYPHEN: CodeUnit := 0x2D

  predicate IsLeap(year: nat) {
    year % 4 == 0 && (year % 100 != 0 || year % 400 == 0)
  }

  function DaysInMonth(year: nat, month: nat): nat
    requires 1 <= month <= 12
  {
    if month == 2 then (if IsLeap(year) then 29 else 28)
    else if month == 4 || month == 6 || month == 9 || month == 11 then 30
    else 31
  }

  predicate IsDate(year: nat, month: nat, day: nat) {
    1 <= year && 1 <= month <= 12 && 1 <= day <= DaysInMonth(year, month)
  }

  /** `/^(\d{4})-(\d{2})-(\d{2})$/` */
  predicate HasDateShape(s: JsString) {
    && |s| == 10 && s[4] == HYPHEN && s[7] == HYPHEN
    && IsDigits(s[..4]) && IsDigits(s[5..7]) && IsDigits(s[8..])
  }

  function Year(s: JsString): nat requires HasDateShape(s) { ValueOf(s[..4]) }
  function Month(s: JsString): nat requires HasDateShape(s) { ValueOf(s[5..7]) }
  function Day(s: JsString): nat requires HasDateShape(s) { ValueOf(s[8..]) }

  /** `isExactCalendarDate` */
  predicate IsExactDate(s: JsString) {
    HasDateShape(s) && IsDate(Year(s), Month(s), Day(s))
  }

  function DaysBeforeMonth(year: nat, month: nat): nat
    requires 1 <= month <= 12
  {
    if month == 1 then 0 else DaysBeforeMonth(year, month - 1) + DaysInMonth(year, month - 1)
  }

  function DaysInYear(year: nat): nat { if IsLeap(year) then 366 else 365 }

  function DaysBeforeYear(year: nat): nat {
    if year <= 1 then 0 else DaysBeforeYear(year - 1) + DaysInYear(year - 1)
  }

  /** Days since the first of January of year 1. */
  function DayNumber(year: nat, month: nat, day: nat): int
    requires IsDate(year, month, day)
  {
    DaysBeforeYear(year) + DaysBeforeMonth(year, month) + day - 1
  }

  lemma MonthsAddUp(year: nat)
    ensures DaysBeforeMonth(year, 12) + 31 == DaysInYear(year)
  {
    assert DaysBeforeMonth(year, 2) == 31;
    assert DaysBeforeMonth(year, 3) == 31 + DaysInMonth(year, 2);
    assert DaysBeforeMonth(year, 4) == DaysBeforeMonth(year, 3) + 31;
    assert DaysBeforeMonth(year, 5) == DaysBeforeMonth(year, 3) + 61;
    assert DaysBeforeMonth(year, 6) == DaysBeforeMonth(year, 3) + 92;
    assert DaysBeforeMonth(year, 7) == DaysBeforeMonth(year, 3) + 122;
    assert DaysBeforeMonth(year, 8) == DaysBeforeMonth(year, 3) + 153;
    assert DaysBeforeMonth(year, 9) == DaysBeforeMonth(year, 3) + 184;
    assert DaysBeforeMonth(year, 10) == DaysBeforeMonth(year, 3) + 214;
    assert DaysBeforeMonth(year, 11) == DaysBeforeMonth(year, 3) + 245;
  }

  /** The day after: what makes the numbering a calendar. */
  function NextDay(year: nat, month: nat, day: nat): (nat, nat, nat)
    requires IsDate(year, month, day)
  {
    if day < DaysInMonth(year, month) then (year, month, day + 1)
    else if month < 12 then (year, month + 1, 1)
    else (year + 1, 1, 1)
  }

  /** Consecutive days have consecutive numbers, across months, leap days and years. */
  lemma DayNumberCountsDays(year: nat, month: nat, day: nat)
    requires IsDate(year, month, day)
    ensures var (y, m, d) := NextDay(year, month, day);
      IsDate(y, m, d) && DayNumber(y, m, d) == DayNumber(year, month, day) + 1
  {
    if day == DaysInMonth(year, month) && month == 12 {
      MonthsAddUp(year);
    }
  }

  lemma {:induction false} MonthsGrow(year: nat, a: nat, b: nat)
    requires 1 <= a < b <= 12
    ensures DaysBeforeMonth(year, a) + DaysInMonth(year, a) <= DaysBeforeMonth(year, b)
    decreases b
  {
    if a < b - 1 { MonthsGrow(year, a, b - 1); }
  }

  lemma {:induction false} YearsGrow(a: nat, b: nat)
    requires 1 <= a < b
    ensures DaysBeforeYear(a) + DaysInYear(a) <= DaysBeforeYear(b)
    decreases b
  {
    if a < b - 1 { YearsGrow(a, b - 1); }
  }

  lemma WithinYear(year: nat, month: nat, day: nat)
    requires IsDate(year, month, day)
    ensures DaysBeforeMonth(year, month) + day <= DaysInYear(year)
  {
    MonthsAddUp(year);
    if month < 12 { MonthsGrow(year, month, 12); }
  }

  /** Year, month and day, compared in this order. */
  predicate Earlier(a: (nat, nat, nat), b: (nat, nat, nat)) {
    a.0 < b.0 || (a.0 == b.0 && (a.1 < b.1 || (a.1 == b.1 && a.2 < b.2)))
  }

  lemma EarlierHasSmallerNumber(a: (nat, nat, nat), b: (nat, nat, nat))
    requires IsDate(a.0, a.1, a.2) && IsDate(b.0, b.1, b.2) && Earlier(a, b)
    ensures DayNumber(a.0, a.1, a.2) < DayNumber(b.0, b.1, b.2)
  {
    WithinYear(a.0, a.1, a.2);
    if a.0 < b.0 {
      YearsGrow(a.0, b.0);
    } else if a.1 < b.1 {
      MonthsGrow(a.0, a.1, b.1);
    }
  }

  // ---------------------------------------------------------------- strings as dates

  lemma {:induction false} LexByPrefix(a: JsString, b: JsString, x: JsString, y: JsString)
    requires |a| == |b|
    ensures JsLess(a + x, b + y) <==> JsLess(a, b) || (a == b && JsLess(x, y))
  {
    if a == [] {
      assert a + x == x && b + y == y;
    } else {
      assert (a + x)[1..] == a[1..] + x && (b + y)[1..] == b[1..] + y;
      LexByPrefix(a[1..], b[1..], x, y);
      assert a == [a[0]] + a[1..] && b == [b[0]] + b[1..];
    }
  }

  /** Digit strings of one length are ordered, and told apart, by their values. */
  lemma {:induction false} DigitsByValue(a: JsString, b: JsString)
    requires |a| == |b| && (forall i :: 0 <= i < |a| ==> IsDigit(a[i])) && (forall i :: 0 <= i < |b| ==> IsDigit(b[i]))
    ensures JsLess(a, b) <==> ValueOf(a) < ValueOf(b)
    ensures a == b <==> ValueOf(a) == ValueOf(b)
  {
    if a != [] {
      var n := |a| - 1;
      var x, y := a[n], b[n];
      DigitsByValue(a[..n], b[..n]);
      LexByPrefix(a[..n], b[..n], [x], [y]);
      assert a[..n] + [x] == a && b[..n] + [y] == b;
      assert [x][1..] == [] && [y][1..] == [] && !LexLess(UnitLess, [], []);
      assert LexLess(UnitLess, [x], [y]) <==> UnitLess(x, y);
    }
  }

  function Triple(s: JsString): (nat, nat, nat)
    requires HasDateShape(s)
  {
    (Year(s), Month(s), Day(s))
  }

  lemma ShapeOrder(a: JsString, b: JsString)
    requires HasDateShape(a) && HasDateShape(b)
    ensures JsLess(a, b) <==> Earlier(Triple(a), Triple(b))
    ensures a == b <==> Triple(a) == Triple(b)
  {
    DigitsByValue(a[..4], b[..4]);
    DigitsByValue(a[5..7], b[5..7]);
    DigitsByValue(a[8..], b[8..]);
    JsOrderTotal();
    var hyphen := [HYPHEN];
    assert a == a[..4] + (hyphen + (a[5..7] + (hyphen + a[8..])));
    assert b == b[..4] + (hyphen + (b[5..7] + (hyphen + b[8..])));
    LexByPrefix(a[..4], b[..4], hyphen + (a[5..7] + (hyphen + a[8..])), hyphen + (b[5..7] + (hyphen + b[8..])));
    LexByPrefix(hyphen, hyphen, a[5..7] + (hyphen + a[8..]), b[5..7] + (hyphen + b[8..]));
    LexByPrefix(a[5..7], b[5..7], hyphen + a[8..], hyphen + b[8..]);
    LexByPrefix(hyphen, hyphen, a[8..], b[8..]);
  }

  function Number(s: JsString): int
    requires IsExactDate(s)
  {
    DayNumber(Year(s), Month(s), Day(s))
  }

  /** On accepted dates, string order is calendar order. */
  lemma StringOrderIsCalendarOrder(a: JsString, b: JsString)
    requires IsExactDate(a) && IsExactDate(b)
    ensures JsLess(a, b) <==> Number(a) < Number(b)
    ensures a == b <==> Number(a) == Number(b)
  {
    ShapeOrder(a, b);
    if Earlier(Triple(a), Triple(b)) {
      EarlierHasSmallerNumber(Triple(a), Triple(b));
    } else if Earlier(Triple(b), Triple(a)) {
      EarlierHasSmallerNumber(Triple(b), Triple(a));
    }
  }

  // ---------------------------------------------------------------- nodes

  datatype State = Active | Transition | Reference | Archived | Retired

  datatype RawLifecycle = RawLifecycle(state: Raw<State>, reviewedAt: Raw<JsString>,
                                       evidenceRefs: Raw<seq<Raw<JsString>>>)

  datatype RawNode = RawNode(id: Raw<JsString>, name: Raw<JsString>, kind: Raw<JsString>, purpose: Raw<JsString>,
                             lifecycle: Raw<RawLifecycle>)

  datatype Node = Node(id: JsString, name: JsString, kind: JsString, purpose: JsString, state: State,
                       reviewedAt: JsString, evidenceRefs: seq<JsString>)

  predicate IsNamed(t: Raw<JsString>) { t.Is? && Trim(t.value) != [] }

  predicate IsExact(t: Raw<JsString>) { IsNamed(t) && t.value == Trim(t.value) }

  predicate NoDuplicates<T(==)>(s: seq<T>) {
    forall i, j :: 0 <= i < j < |s| ==> s[i] != s[j]
  }

  predicate ValidLifecycle(l: RawLifecycle) {
    && l.state.Is? && l.reviewedAt.Is? && IsExactDate(l.reviewedAt.value)
    && l.evidenceRefs.Is? && l.evidenceRefs.value != []
    && (forall i :: 0 <= i < |l.evidenceRefs.value| ==> IsExact(l.evidenceRefs.value[i]))
    && NoDuplicates(l.evidenceRefs.value)
  }

  /** The node's own fields are as they must be; whether its id is new is another matter. */
  predicate ValidNode(raw: Raw<RawNode>) {
    && raw.Is? && IsExact(raw.value.id)
    && IsNamed(raw.value.name) && IsNamed(raw.value.kind) && IsNamed(raw.value.purpose)
    && raw.value.lifecycle.Is? && ValidLifecycle(raw.value.lifecycle.value)
  }

  function NodeOf(raw: Raw<RawNode>): Node
    requires ValidNode(raw)
  {
    var l := raw.value.lifecycle.value;
    Node(raw.value.id.value, raw.value.name.value, raw.value.kind.value, raw.value.purpose.value, l.state.value,
         l.reviewedAt.value,
         seq(|l.evidenceRefs.value|, i requires 0 <= i < |l.evidenceRefs.value| => l.evidenceRefs.value[i].value))
  }

  datatype Counts = Counts(active: nat, transition: nat, reference: nat, archived: nat, retired: nat) {
    function Of(s: State): nat {
      match s
      case Active => active
      case Transition => transition
      case Reference => reference
      case Archived => archived
      case Retired => retired
    }

    function Plus(s: State): Counts {
      match s
      case Active => this.(active := active + 1)
      case Transition => this.(transition := transition + 1)
      case Reference => this.(reference := reference + 1)
      case Archived => this.(archived := archived + 1)
      case Retired => this.(retired := retired + 1)
    }

    function Sum(): nat { active + transition + reference + archived + retired }
  }

  const NO_COUNTS := Counts(0, 0, 0, 0, 0)

  function CountState(nodes: seq<Node>, s: State): nat {
    if nodes == [] then 0
    else CountState(nodes[..|nodes| - 1], s) + if nodes[|nodes| - 1].state == s then 1 else 0
  }

  datatype Inspection = Inspection(nodes: seq<Node>, declaredNodeCount: nat, declared: bool,
                                   reviewedAt: Option<JsString>, counts: Counts)

  function Unavailable(declaredNodeCount: nat): Inspection {
    Inspection([], declaredNodeCount, false, None, NO_COUNTS)
  }

  ghost predicate IdsUnique(raw: seq<Raw<RawNode>>) {
    forall i, j :: 0 <= i < j < |raw| && ValidNode(raw[i]) && ValidNode(raw[j]) ==> raw[i].value.id != raw[j].value.id
  }

  /** The nodes are the raw ones, in order, all valid and with different ids. */
  ghost predicate Accepted(raw: seq<Raw<RawNode>>, nodes: seq<Node>) {
    && |nodes| == |raw|
    && (forall i :: 0 <= i < |raw| ==> ValidNode(raw[i]) && nodes[i] == NodeOf(raw[i]))
    && DifferentIds(nodes)
  }

  ghost predicate DifferentIds(nodes: seq<Node>) {
    forall i, j :: 0 <= i < j < |nodes| ==> nodes[i].id != nodes[j].id
  }

  /** The counts are those of the nodes' states, so they sum to the number of nodes. */
  ghost predicate Counted(counts: Counts, nodes: seq<Node>) {
    (forall s :: counts.Of(s) == CountState(nodes, s)) && counts.Sum() == |nodes|
  }

  function Ids(nodes: seq<Node>): (r: set<JsString>)
    ensures forall k :: k in r <==> exists i :: 0 <= i < |nodes| && nodes[i].id == k
  {
    set i | 0 <= i < |nodes| :: nodes[i].id
  }

  lemma CountStep(counts: Counts, nodes: seq<Node>, node: Node)
    requires Counted(counts, nodes)
    ensures Counted(counts.Plus(node.state), nodes + [node])
  {
    assert (nodes + [node])[..|nodes|] == nodes;
    forall s
      ensures counts.Plus(node.state).Of(s) == CountState(nodes + [node], s)
    {
      assert counts.Of(s) == CountState(nodes, s);
    }
  }

  lemma IdStep(nodes: seq<Node>, node: Node)
    ensures Ids(nodes + [node]) == Ids(nodes) + {node.id}
  {
    var more := nodes + [node];
    forall k | k in Ids(nodes) ensures k in Ids(more) {
      var i :| 0 <= i < |nodes| && nodes[i].id == k;
      assert more[i].id == k;
    }
    assert more[|nodes|] == node;
  }

  lemma AcceptStep(raw: seq<Raw<RawNode>>, i: nat, nodes: seq<Node>)
    requires i < |raw| && Accepted(raw[..i], nodes) && ValidNode(raw[i])
    requires NodeOf(raw[i]).id !in Ids(nodes)
    ensures Accepted(raw[..i + 1], nodes + [NodeOf(raw[i])])
  {
    var next, more := raw[..i + 1], nodes + [NodeOf(raw[i])];
    forall j | 0 <= j < |next|
      ensures ValidNode(next[j]) && more[j] == NodeOf(next[j])
    {
      if j < i { assert next[j] == raw[..i][j] && more[j] == nodes[j]; }
    }
    NewIdStep(nodes, NodeOf(raw[i]));
  }

  lemma NewIdStep(nodes: seq<Node>, node: Node)
    requires DifferentIds(nodes) && node.id !in Ids(nodes)
    ensures DifferentIds(nodes + [node])
  {
    assert forall j :: 0 <= j < |nodes| ==> (nodes + [node])[j] == nodes[j] && nodes[j].id in Ids(nodes);
  }

  lemma DuplicateId(raw: seq<Raw<RawNode>>, i: nat, nodes: seq<Node>)
    requires i < |raw| && Accepted(raw[..i], nodes) && ValidNode(raw[i])
    requires NodeOf(raw[i]).id in Ids(nodes)
    ensures !IdsUnique(raw)
  {
    var j :| 0 <= j < |nodes| && nodes[j].id == NodeOf(raw[i]).id;
    assert raw[..i][j] == raw[j] && ValidNode(raw[j]);
  }

  lemma AcceptedIdsAreUnique(raw: seq<Raw<RawNode>>, nodes: seq<Node>)
    requires Accepted(raw, nodes)
    ensures IdsUnique(raw)
  {
    forall i, j | 0 <= i < j < |raw|
      ensures raw[i].value.id != raw[j].value.id
    {
      assert nodes[i].id != nodes[j].id;
    }
  }

  /** The mapping loop of `inspectSemanticNodes`; `None` is the exception that makes the
      whole inspection unavailable. */
  method MapNodes(raw: seq<Raw<RawNode>>) returns (r: Option<(seq<Node>, Counts)>)
    ensures r.Some? <==> (forall i :: 0 <= i < |raw| ==> ValidNode(raw[i])) && IdsUnique(raw)
    ensures r.Some? ==> Accepted(raw, r.value.0) && Counted(r.value.1, r.value.0)
  {
    var counts, seen, nodes: seq<Node> := NO_COUNTS, {}, [];
    for i := 0 to |raw|
      invariant Accepted(raw[..i], nodes) && Counted(counts, nodes) && seen == Ids(nodes)
    {
      if !ValidNode(raw[i]) {
        return None;
      }
      var node := NodeOf(raw[i]);
      if node.id in seen {
        DuplicateId(raw, i, nodes);
        return None;
      }
      AcceptStep(raw, i, nodes);
      CountStep(counts, nodes, node);
      IdStep(nodes, node);
      seen := seen + {node.id};
      counts := counts.Plus(node.state);
      nodes := nodes + [node];
    }
    assert raw[..|raw|] == raw;
    AcceptedIdsAreUnique(raw, nodes);
    return Some((nodes, counts));
  }

  /** `inspectSemanticNodes`, from the parsed `nodes` on; `Other` is no array. */
  method InspectNodes(raw: Raw<seq<Raw<RawNode>>>) returns (r: Inspection)
    ensures r.declared <==>
      && raw.Is? && raw.value != []
      && (forall i :: 0 <= i < |raw.value| ==> ValidNode(raw.value[i])) && IdsUnique(raw.value)
    ensures !r.declared ==> r == Unavailable(if raw.Is? then |raw.value| else 0)
    ensures r.declared ==>
      && Accepted(raw.value, r.nodes) && Counted(r.counts, r.nodes) && r.declaredNodeCount == |raw.value|
      && EarliestReview(r)
  {
    if raw.Other? || raw.value == [] {
      return Unavailable(0);
    }
    var mapped := MapNodes(raw.value);
    if mapped.None? {
      return Unavailable(|raw.value|);
    }
    var (nodes, counts) := mapped.value;
    var reviewedAt := FirstReview(nodes);
    r := Inspection(nodes, |raw.value|, true, Some(reviewedAt), counts);
  }

  /** The reported review date is the earliest of all, by the calendar. */
  ghost predicate EarliestReview(r: Inspection) {
    && r.reviewedAt.Some? && IsExactDate(r.reviewedAt.value)
    && (exists i :: 0 <= i < |r.nodes| && r.nodes[i].reviewedAt == r.reviewedAt.value)
    && (forall i :: 0 <= i < |r.nodes| ==>
         IsExactDate(r.nodes[i].reviewedAt) && Number(r.reviewedAt.value) <= Number(r.nodes[i].reviewedAt))
  }

  function Reviews(nodes: seq<Node>): (r: seq<JsString>)
    ensures |r| == |nodes| && forall i :: 0 <= i < |r| ==> r[i] == nodes[i].reviewedAt
  {
    seq(|nodes|, i requires 0 <= i < |nodes| => nodes[i].reviewedAt)
  }

  /** `.sort(...)[0]` over the review dates. */
  method FirstReview(nodes: seq<Node>) returns (first: JsString)
    requires nodes != [] && forall i :: 0 <= i < |nodes| ==> IsExactDate(nodes[i].reviewedAt)
    ensures IsExactDate(first) && exists i :: 0 <= i < |nodes| && nodes[i].reviewedAt == first
    ensures forall i :: 0 <= i < |nodes| ==> Number(first) <= Number(nodes[i].reviewedAt)
  {
    var dates := Reviews(nodes);
    var sorted := Sort(JsLess, dates);
    JsOrderTotal();
    assert dates[0] in sorted;
    first := sorted[0];
    assert first in dates;
    var k :| 0 <= k < |dates| && dates[k] == first;
    assert nodes[k].reviewedAt == first;
    forall i | 0 <= i < |nodes|
      ensures Number(first) <= Number(nodes[i].reviewedAt)
    {
      assert dates[i] in sorted;
      var j :| 0 <= j < |sorted| && sorted[j] == dates[i];
      StringOrderIsCalendarOrder(first, dates[i]);
    }
  }
}
