/** What the Bureau status projection says about each task
    (scripts/decision_axis_selection.py: `_task_domains`, `_current_balls`, `_domains_for`). */
module BureauProjection {
  import opened Common
  import opened Orders

  // ---------------------------------------------------------------- inputs

  /** A JSON field: text, or something `_text` turns into the empty string. */
  datatype Field = Text(s: string) | NotText

  predicate IsSpace(c: char) {
    || '\t' <= c <= '\r' || '\U{1C}' <= c <= ' ' || c == '\U{85}' || c == '\U{A0}' || c == '\U{1680}'
    || '\U{2000}' <= c <= '\U{200A}' || c == '\U{2028}' || c == '\U{2029}' || c == '\U{202F}'
    || c == '\U{205F}' || c == '\U{3000}'
  }

  function StripLeft(s: string): string {
    if s != [] && IsSpace(s[0]) then StripLeft(s[1..]) else s
  }

  function StripRight(s: string): string {
    if s != [] && IsSpace(s[|s| - 1]) then StripRight(s[..|s| - 1]) else s
  }

  /** `_text` */
  function TextOf(f: Field): string {
    if f.Text? then StripRight(StripLeft(f.s)) else ""
  }

  datatype CurrentBall = CurrentBall(taskId: Field, kind: Field, lane: Field, title: Field)

  /** `None` stands for a value of the wrong JSON type. */
  datatype Ball = Ball(status: Field, current: Option<CurrentBall>, taskIds: Option<seq<Field>>)

  /** A JSON object in its own order; its keys are distinct. */
  type Balls = seq<(string, Ball)>

  ghost predicate DistinctKeys(balls: Balls) {
    forall i, j :: 0 <= i < j < |balls| ==> balls[i].0 != balls[j].0
  }

  // ---------------------------------------------------------------- sets in sorted order

  ghost predicate IsLeast(s: set<string>, x: string) {
    x in s && forall y :: y in s ==> y == x || StringLess(x, y)
  }

  lemma CharOrderTotal()
    ensures Total(CharLess)
  {
  }

  lemma {:induction false} HasLeast(s: set<string>) returns (least: string)
    requires s != {}
    ensures IsLeast(s, least)
  {
    var z :| z in s;
    least := z;
    if s != {z} {
      var rest := HasLeast(s - {z});
      CharOrderTotal();
      LexConnected(CharLess, rest, z);
      if StringLess(rest, z) {
        least := rest;
      } else {
        forall y | y in s && y != z && y != rest ensures StringLess(z, y) {
          assert y in s - {z} && StringLess(z, rest) && StringLess(rest, y);
          LexTransitive(CharLess, z, rest, y);
        }
      }
    }
  }

  function Least(s: set<string>): (x: string)
    requires s != {}
    ensures IsLeast(s, x)
  {
    LeastExists(s);
    var x :| x in s && forall y :: y in s ==> y == x || StringLess(x, y);
    x
  }

  lemma LeastExists(s: set<string>)
    requires s != {}
    ensures exists x :: x in s && forall y :: y in s ==> y == x || StringLess(x, y)
    ensures forall x, y :: x in s && y in s && StringLess(x, y) ==> !StringLess(y, x)
  {
    var least := HasLeast(s);
    forall x, y | x in s && y in s && StringLess(x, y) ensures !StringLess(y, x) {
      CharOrderTotal();
      if StringLess(y, x) {
        LexTransitive(CharLess, x, y, x);
        LexIrreflexive(CharLess, x);
      }
    }
  }

  /** `tuple(sorted(s))` */
  function SortedTuple(s: set<string>): (r: seq<string>)
    ensures forall x :: x in r <==> x in s
    ensures Sorted(StringLess, r)
    ensures r == [] <==> s == {}
  {
    if s == {} then []
    else
      var x := Least(s);
      [x] + SortedTuple(s - {x})
  }

  // ---------------------------------------------------------------- the projections

  type Entry = (string, Ball)

  /** Everything `f` says about the balls. */
  function Collect(balls: Balls, f: Entry -> Option<string>): (r: set<string>)
    ensures forall x :: x in r <==> exists i :: 0 <= i < |balls| && f(balls[i]) == Some(x)
  {
    if balls == [] then {}
    else
      var last := balls[|balls| - 1];
      var init := balls[..|balls| - 1];
      var r := Collect(init, f);
      assert forall i :: 0 <= i < |init| ==> init[i] == balls[i];
      if f(last).Some? then r + {f(last).value} else r
  }

  predicate Lists(b: Ball, task: string) {
    b.taskIds.Some? && exists i :: 0 <= i < |b.taskIds.value| && TextOf(b.taskIds.value[i]) == task
  }

  predicate IsCurrent(b: Ball, task: string) {
    b.current.Some? && TextOf(b.current.value.taskId) == task
  }

  function Given(present: bool, text: string): Option<string> {
    if present && text != "" then Some(text) else None
  }

  /** The domains whose ball lists the task. */
  function MemberDomains(balls: Balls, task: string): set<string> {
    Collect(balls, (b: Entry) => if Lists(b.1, task) then Some(b.0) else None)
  }

  /** The domains whose current ball is the task. */
  function CurrentDomains(balls: Balls, task: string): set<string> {
    Collect(balls, (b: Entry) => if IsCurrent(b.1, task) then Some(b.0) else None)
  }

  function Statuses(balls: Balls, task: string): set<string> {
    Collect(balls, (b: Entry) => Given(IsCurrent(b.1, task), TextOf(b.1.status)))
  }

  function Kinds(balls: Balls, task: string): set<string> {
    Collect(balls, (b: Entry) => if IsCurrent(b.1, task) then Given(true, TextOf(b.1.current.value.kind)) else None)
  }

  function Lanes(balls: Balls, task: string): set<string> {
    Collect(balls, (b: Entry) => if IsCurrent(b.1, task) then Given(true, TextOf(b.1.current.value.lane)) else None)
  }

  /** The first title a current ball gives the task: the one thing that depends on order. */
  function BallTitle(balls: Balls, task: string): string {
    if balls == [] then ""
    else
      var earlier := BallTitle(balls[..|balls| - 1], task);
      var last := balls[|balls| - 1].1;
      if earlier == "" && IsCurrent(last, task) then TextOf(last.current.value.title) else earlier
  }

  /** The tasks some ball is currently at, in order of first appearance. */
  function CurrentTasks(balls: Balls): (r: seq<string>)
    ensures forall t :: t in r <==> t != "" && exists i :: 0 <= i < |balls| && IsCurrent(balls[i].1, t)
    ensures forall x, y :: 0 <= x < y < |r| ==> r[x] != r[y]
  {
    if balls == [] then []
    else
      var init := balls[..|balls| - 1];
      var earlier := CurrentTasks(init);
      var last := balls[|balls| - 1].1;
      assert forall i :: 0 <= i < |init| ==> init[i] == balls[i];
      assert last == balls[|balls| - 1].1;
      if last.current.Some? && TextOf(last.current.value.taskId) != "" && TextOf(last.current.value.taskId) !in earlier
      then earlier + [TextOf(last.current.value.taskId)]
      else earlier
  }

  /** `_domains_for`: memberships first, current balls only as a fallback. */
  function DomainsFor(balls: Balls, task: string): seq<string> {
    if MemberDomains(balls, task) != {} then SortedTuple(MemberDomains(balls, task))
    else SortedTuple(CurrentDomains(balls, task))
  }

  predicate IsActive(balls: Balls, task: string) {
    "active" in Statuses(balls, task) || "active_run" in Kinds(balls, task)
  }

  /** The current ball makes the task claimable, if its action is in the now lane. */
  predicate IsClaimable(balls: Balls, task: string) {
    "ready" in Statuses(balls, task) && "eligible_task" in Kinds(balls, task) && "now" in Lanes(balls, task)
  }

  // ---------------------------------------------------------------- the summary

  /** All the selection asks about a task; `current` says that some ball is at it. */
  datatype View = View(domains: seq<string>, current: bool, active: bool, claimable: bool)

  function ViewOf(balls: Balls, task: string): View {
    View(DomainsFor(balls, task), task in CurrentTasks(balls), IsActive(balls, task), IsClaimable(balls, task))
  }

  const NOTHING := View([], false, false, false)

  /** The tasks of all balls, apart from the empty id. */
  function Mentioned(balls: Balls): (r: set<string>)
    ensures forall t :: t in r <==>
      t != "" && exists i :: 0 <= i < |balls| && (Lists(balls[i].1, t) || IsCurrent(balls[i].1, t))
  {
    if balls == [] then {}
    else
      var init, last := balls[..|balls| - 1], balls[|balls| - 1].1;
      var r := Mentioned(init);
      assert forall i :: 0 <= i < |init| ==> init[i] == balls[i];
      var listed :=
        if last.taskIds.Some? then set i | 0 <= i < |last.taskIds.value| :: TextOf(last.taskIds.value[i]) else {};
      assert forall t :: t in listed <==> Lists(last, t);
      r + (listed - {""}) + (if CurrentTaskOf(last) != "" then {CurrentTaskOf(last)} else {})
  }

  /** What the balls say, as a value that no longer knows their order. */
  function Views(balls: Balls): (v: map<string, View>)
    ensures forall t :: t in v <==> t in Mentioned(balls)
    ensures forall t :: t in v ==> v[t] == ViewOf(balls, t)
  {
    map t | t in Mentioned(balls) :: ViewOf(balls, t)
  }

  /** The fallback titles, which do depend on it. */
  function BallTitles(balls: Balls): (r: map<string, string>)
    ensures forall t :: t in r <==> t in Mentioned(balls)
    ensures forall t :: t in r ==> r[t] == BallTitle(balls, t)
  {
    map t | t in Mentioned(balls) :: BallTitle(balls, t)
  }

  // ---------------------------------------------------------------- what the summary means, ball by ball

  /** A ball of the domain lists the id. */
  ghost predicate Listed(balls: Balls, domain: string, task: string) {
    exists x :: x in balls && x.0 == domain && Lists(x.1, task)
  }

  ghost predicate CurrentIn(balls: Balls, domain: string, task: string) {
    exists x :: x in balls && x.0 == domain && IsCurrent(x.1, task)
  }

  lemma CollectMeans(balls: Balls, f: Entry -> Option<string>, x: string)
    ensures x in Collect(balls, f) <==> exists b :: b in balls && f(b) == Some(x)
  {
    if x in Collect(balls, f) {
      var i :| 0 <= i < |balls| && f(balls[i]) == Some(x);
      assert balls[i] in balls;
    }
    if b :| b in balls && f(b) == Some(x) {
      var i :| 0 <= i < |balls| && balls[i] == b;
    }
  }

  /** The domains of an id are those whose balls list it; only an id no ball lists has the
      domains whose current ball it is.  They stand in strict order. */
  lemma DomainsMean(balls: Balls, task: string, domain: string)
    ensures domain in DomainsFor(balls, task) <==>
      if exists d :: Listed(balls, d, task) then Listed(balls, domain, task) else CurrentIn(balls, domain, task)
    ensures forall i, j :: 0 <= i < j < |DomainsFor(balls, task)| ==>
      StringLess(DomainsFor(balls, task)[i], DomainsFor(balls, task)[j])
  {
    forall d ensures d in MemberDomains(balls, task) <==> Listed(balls, d, task) {
      CollectMeans(balls, (b: Entry) => if Lists(b.1, task) then Some(b.0) else None, d);
    }
    CollectMeans(balls, (b: Entry) => if IsCurrent(b.1, task) then Some(b.0) else None, domain);
    if d :| d in MemberDomains(balls, task) { assert Listed(balls, d, task); }
  }

  ghost predicate SomeCurrent(balls: Balls, task: string, test: Ball -> bool) {
    exists x :: x in balls && IsCurrent(x.1, task) && test(x.1)
  }

  lemma StatusMeans(balls: Balls, task: string, text: string)
    requires text != ""
    ensures text in Statuses(balls, task) <==> SomeCurrent(balls, task, (b: Ball) => TextOf(b.status) == text)
  {
    CollectMeans(balls, (b: Entry) => Given(IsCurrent(b.1, task), TextOf(b.1.status)), text);
  }

  lemma KindMeans(balls: Balls, task: string, text: string)
    requires text != ""
    ensures text in Kinds(balls, task) <==>
      SomeCurrent(balls, task, (b: Ball) => b.current.Some? && TextOf(b.current.value.kind) == text)
  {
    CollectMeans(
      balls, (b: Entry) => if IsCurrent(b.1, task) then Given(true, TextOf(b.1.current.value.kind)) else None, text);
  }

  lemma LaneMeans(balls: Balls, task: string, text: string)
    requires text != ""
    ensures text in Lanes(balls, task) <==>
      SomeCurrent(balls, task, (b: Ball) => b.current.Some? && TextOf(b.current.value.lane) == text)
  {
    CollectMeans(
      balls, (b: Entry) => if IsCurrent(b.1, task) then Given(true, TextOf(b.1.current.value.lane)) else None, text);
  }

  /** An id is running if some ball at it is active or has an active run; it is claimable if
      among the balls at it some is ready, some offers an eligible task, and some is in the
      now lane - not necessarily the same one. */
  lemma ViewMeans(balls: Balls, task: string)
    requires task in Views(balls)
    ensures var view := Views(balls)[task];
      && (view.active <==>
           || SomeCurrent(balls, task, (b: Ball) => TextOf(b.status) == "active")
           || SomeCurrent(balls, task, (b: Ball) => b.current.Some? && TextOf(b.current.value.kind) == "active_run"))
      && (view.claimable <==>
           && SomeCurrent(balls, task, (b: Ball) => TextOf(b.status) == "ready")
           && SomeCurrent(balls, task, (b: Ball) => b.current.Some? && TextOf(b.current.value.kind) == "eligible_task")
           && SomeCurrent(balls, task, (b: Ball) => b.current.Some? && TextOf(b.current.value.lane) == "now"))
      && (view.current <==> SomeCurrent(balls, task, (b: Ball) => true))
      && view.domains == DomainsFor(balls, task)
  {
    StatusMeans(balls, task, "active");
    KindMeans(balls, task, "active_run");
    StatusMeans(balls, task, "ready");
    KindMeans(balls, task, "eligible_task");
    LaneMeans(balls, task, "now");
    CurrentMeans(balls, task);
  }

  lemma CurrentMeans(balls: Balls, task: string)
    requires task != ""
    ensures task in CurrentTasks(balls) <==> SomeCurrent(balls, task, (b: Ball) => true)
  {
    if task in CurrentTasks(balls) {
      var i :| 0 <= i < |balls| && IsCurrent(balls[i].1, task);
      assert balls[i] in balls;
    }
  }

  /** What `_text` leaves out is white space on both sides, and it leaves out all of it. */
  lemma {:induction false} StripMeans(s: string) returns (a: string, b: string)
    ensures s == a + TextOf(Text(s)) + b
    ensures (forall c :: c in a ==> IsSpace(c)) && (forall c :: c in b ==> IsSpace(c))
    ensures var t := TextOf(Text(s)); t != "" ==> !IsSpace(t[0]) && !IsSpace(t[|t| - 1])
  {
    a := StripLeftMeans(s);
    b := StripRightMeans(StripLeft(s));
    var t, u := StripLeft(s), TextOf(Text(s));
    assert u != "" ==> u[0] == t[0];
  }

  lemma {:induction false} StripLeftMeans(s: string) returns (a: string)
    ensures s == a + StripLeft(s) && forall c :: c in a ==> IsSpace(c)
    ensures StripLeft(s) != "" ==> !IsSpace(StripLeft(s)[0])
  {
    a := "";
    if s != "" && IsSpace(s[0]) {
      var rest := StripLeftMeans(s[1..]);
      a := [s[0]] + rest;
    }
  }

  lemma {:induction false} StripRightMeans(s: string) returns (b: string)
    ensures s == StripRight(s) + b && forall c :: c in b ==> IsSpace(c)
    ensures var t := StripRight(s); t != "" ==> !IsSpace(t[|t| - 1])
  {
    b := "";
    if s != "" && IsSpace(s[|s| - 1]) {
      var rest := StripRightMeans(s[..|s| - 1]);
      b := rest + [s[|s| - 1]];
    }
  }

  /** The fallback never runs dry: a current task is current in some domain. */
  lemma CurrentTasksHaveDomains(balls: Balls, task: string)
    requires task in CurrentTasks(balls)
    ensures DomainsFor(balls, task) != []
  {
    var i :| 0 <= i < |balls| && IsCurrent(balls[i].1, task);
    assert balls[i].0 in CurrentDomains(balls, task);
  }

  lemma {:induction false} UnmentionedIsNothing(balls: Balls, task: string)
    requires task != "" && task !in Mentioned(balls)
    ensures ViewOf(balls, task) == NOTHING && BallTitle(balls, task) == ""
  {
    assert task !in CurrentTasks(balls);
    AbsentEntry(balls, task);
    assert EntryFor(balls, task) == NO_ENTRY;
    assert MemberDomains(balls, task) == {};
  }

  /** The task a ball is at; empty when it names none. */
  function CurrentTaskOf(b: Ball): string {
    if b.current.Some? then TextOf(b.current.value.taskId) else ""
  }

  // ---------------------------------------------------------------- order independence

  /** The same ball, up to the order (and repetition) of its `task_ids`. */
  ghost predicate Alike(a: Entry, b: Entry) {
    && a.0 == b.0 && a.1.status == b.1.status && a.1.current == b.1.current
    && forall t :: Lists(a.1, t) <==> Lists(b.1, t)
  }

  ghost predicate Has(balls: Balls, x: Entry) {
    exists y :: y in balls && Alike(y, x)
  }

  ghost predicate Includes(a: Balls, b: Balls) {
    forall x :: x in b ==> Has(a, x)
  }

  /** The same balls in any order. */
  ghost predicate SameBalls(a: Balls, b: Balls) {
    Includes(a, b) && Includes(b, a)
  }

  /** A permutation `p` of the balls, with inverse `q`, that may also permute every ball's
      task ids, gives the same balls. */
  lemma PermutationIsSame(a: Balls, b: Balls, p: seq<nat>, q: seq<nat>)
    requires |a| == |b| == |p| == |q|
    requires forall i :: 0 <= i < |a| ==> p[i] < |a| && q[i] < |a| && p[q[i]] == i
    requires forall i :: 0 <= i < |a| ==> Shuffled(a[p[i]], b[i])
    ensures SameBalls(a, b)
  {
    forall x | x in b
      ensures Has(a, x)
    {
      var i :| 0 <= i < |b| && b[i] == x;
      ShuffledIsAlike(a[p[i]], x);
      assert a[p[i]] in a;
    }
    forall x | x in a
      ensures Has(b, x)
    {
      var j :| 0 <= j < |a| && a[j] == x;
      ShuffledIsAlike(a[p[q[j]]], b[q[j]]);
      assert b[q[j]] in b && Alike(b[q[j]], x);
    }
  }

  /** The same ball with its task ids permuted. */
  ghost predicate Shuffled(x: Entry, y: Entry) {
    && x.0 == y.0 && x.1.status == y.1.status && x.1.current == y.1.current
    && (x.1.taskIds.None? <==> y.1.taskIds.None?)
    && (x.1.taskIds.Some? ==> multiset(x.1.taskIds.value) == multiset(y.1.taskIds.value))
  }

  lemma ShuffledIsAlike(x: Entry, y: Entry)
    requires Shuffled(x, y)
    ensures Alike(x, y)
  {
    if x.1.taskIds.Some? {
      forall t ensures Lists(x.1, t) <==> Lists(y.1, t) {
        ListsByElement(x.1, t);
        ListsByElement(y.1, t);
        assert forall f :: f in x.1.taskIds.value <==> f in multiset(x.1.taskIds.value);
        assert forall f :: f in y.1.taskIds.value <==> f in multiset(y.1.taskIds.value);
      }
    }
  }

  lemma ListsByElement(b: Ball, t: string)
    requires b.taskIds.Some?
    ensures Lists(b, t) <==> exists f :: f in b.taskIds.value && TextOf(f) == t
  {
    if f :| f in b.taskIds.value && TextOf(f) == t {
      var i :| 0 <= i < |b.taskIds.value| && b.taskIds.value[i] == f;
    }
  }

  ghost predicate Respects(f: Entry -> Option<string>) {
    forall x, y :: Alike(x, y) ==> f(x) == f(y)
  }

  lemma CollectIncluded(a: Balls, b: Balls, f: Entry -> Option<string>)
    requires Includes(b, a) && Respects(f)
    ensures Collect(a, f) <= Collect(b, f)
  {
    forall x | x in Collect(a, f)
      ensures x in Collect(b, f)
    {
      var i :| 0 <= i < |a| && f(a[i]) == Some(x);
      assert a[i] in a && Has(b, a[i]);
      var y :| y in b && Alike(y, a[i]);
      var j :| 0 <= j < |b| && b[j] == y;
      assert f(b[j]) == Some(x);
    }
  }

  lemma CollectForgetsOrder(a: Balls, b: Balls, f: Entry -> Option<string>)
    requires SameBalls(a, b) && Respects(f)
    ensures Collect(a, f) == Collect(b, f)
  {
    CollectIncluded(a, b, f);
    CollectIncluded(b, a, f);
  }

  lemma DomainsForgetOrder(a: Balls, b: Balls, task: string)
    requires SameBalls(a, b)
    ensures DomainsFor(a, task) == DomainsFor(b, task)
  {
    CollectForgetsOrder(a, b, (x: Entry) => if Lists(x.1, task) then Some(x.0) else None);
    CollectForgetsOrder(a, b, (x: Entry) => if IsCurrent(x.1, task) then Some(x.0) else None);
  }

  lemma StatusesForgetOrder(a: Balls, b: Balls, task: string)
    requires SameBalls(a, b)
    ensures Statuses(a, task) == Statuses(b, task)
  {
    CollectForgetsOrder(a, b, (x: Entry) => Given(IsCurrent(x.1, task), TextOf(x.1.status)));
  }

  lemma KindsForgetOrder(a: Balls, b: Balls, task: string)
    requires SameBalls(a, b)
    ensures Kinds(a, task) == Kinds(b, task)
  {
    CollectForgetsOrder(
      a, b, (x: Entry) => if IsCurrent(x.1, task) then Given(true, TextOf(x.1.current.value.kind)) else None);
  }

  lemma LanesForgetOrder(a: Balls, b: Balls, task: string)
    requires SameBalls(a, b)
    ensures Lanes(a, task) == Lanes(b, task)
  {
    CollectForgetsOrder(
      a, b, (x: Entry) => if IsCurrent(x.1, task) then Given(true, TextOf(x.1.current.value.lane)) else None);
  }

  lemma CurrentTasksIncluded(a: Balls, b: Balls, task: string)
    requires Includes(b, a) && task in CurrentTasks(a)
    ensures task in CurrentTasks(b)
  {
    var i :| 0 <= i < |a| && IsCurrent(a[i].1, task);
    assert a[i] in a && Has(b, a[i]);
    var y :| y in b && Alike(y, a[i]);
    var j :| 0 <= j < |b| && b[j] == y;
    assert IsCurrent(b[j].1, task);
  }

  /** The summary forgets the order of the balls and of their task ids. */
  lemma ViewsForgetOrder(a: Balls, b: Balls)
    requires SameBalls(a, b)
    ensures Views(a) == Views(b)
  {
    forall t
      ensures ViewOf(a, t) == ViewOf(b, t)
    {
      ViewForgetsOrder(a, b, t);
    }
    forall t
      ensures t in Mentioned(a) <==> t in Mentioned(b)
    {
      if t in Mentioned(a) { MentionedIncluded(a, b, t); }
      if t in Mentioned(b) { MentionedIncluded(b, a, t); }
    }
  }

  lemma ViewForgetsOrder(a: Balls, b: Balls, t: string)
    requires SameBalls(a, b)
    ensures ViewOf(a, t) == ViewOf(b, t)
  {
    StatusesForgetOrder(a, b, t);
    KindsForgetOrder(a, b, t);
    LanesForgetOrder(a, b, t);
    DomainsForgetOrder(a, b, t);
    if t in CurrentTasks(a) { CurrentTasksIncluded(a, b, t); }
    if t in CurrentTasks(b) { CurrentTasksIncluded(b, a, t); }
  }

  lemma MentionedIncluded(a: Balls, b: Balls, task: string)
    requires Includes(b, a) && task in Mentioned(a)
    ensures task in Mentioned(b)
  {
    var i :| 0 <= i < |a| && (Lists(a[i].1, task) || IsCurrent(a[i].1, task));
    assert a[i] in a && Has(b, a[i]);
    var y :| y in b && Alike(y, a[i]);
    var j :| 0 <= j < |b| && b[j] == y;
    assert Lists(b[j].1, task) || IsCurrent(b[j].1, task);
  }

  // ---------------------------------------------------------------- the program

  /** One value of the dictionary `_current_balls` returns. */
  datatype CurrentEntry = CurrentEntry(domains: set<string>, statuses: set<string>, kinds: set<string>,
                                       lanes: set<string>, title: string)

  function EntryFor(balls: Balls, task: string): CurrentEntry {
    CurrentEntry(CurrentDomains(balls, task), Statuses(balls, task), Kinds(balls, task), Lanes(balls, task),
                 BallTitle(balls, task))
  }

  function With(s: set<string>, text: string): set<string> {
    if text == "" then s else s + {text}
  }

  /** What one more ball does to a task's entry. */
  function Extended(e: CurrentEntry, domain: string, b: Ball): CurrentEntry
    requires b.current.Some?
  {
    CurrentEntry(e.domains + {domain}, With(e.statuses, TextOf(b.status)), With(e.kinds, TextOf(b.current.value.kind)),
                 With(e.lanes, TextOf(b.current.value.lane)),
                 if e.title == "" then TextOf(b.current.value.title) else e.title)
  }

  lemma EntryStep(balls: Balls, i: nat, task: string)
    requires i < |balls|
    ensures EntryFor(balls[..i + 1], task) ==
      if IsCurrent(balls[i].1, task) then Extended(EntryFor(balls[..i], task), balls[i].0, balls[i].1)
      else EntryFor(balls[..i], task)
  {
    assert balls[..i + 1][..i] == balls[..i] && balls[..i + 1][i] == balls[i];
  }

  lemma MemberStep(balls: Balls, i: nat, task: string)
    requires i < |balls|
    ensures MemberDomains(balls[..i + 1], task) ==
      MemberDomains(balls[..i], task) + if Lists(balls[i].1, task) then {balls[i].0} else {}
  {
    assert balls[..i + 1][..i] == balls[..i] && balls[..i + 1][i] == balls[i];
  }

  /** The dictionary `_current_balls` builds, and the order of its keys. */
  ghost predicate Represents(balls: Balls, order: seq<string>, entries: map<string, CurrentEntry>) {
    order == CurrentTasks(balls) && forall t :: EntryIs(balls, order, entries, t)
  }

  ghost predicate EntryIs(balls: Balls, order: seq<string>, entries: map<string, CurrentEntry>, t: string) {
    && (t in entries <==> t in order)
    && (t in entries ==> entries[t] == EntryFor(balls, t))
  }

  const NO_ENTRY := CurrentEntry({}, {}, {}, {}, "")

  lemma CurrentTasksStep(balls: Balls, i: nat)
    requires i < |balls|
    ensures var task := CurrentTaskOf(balls[i].1);
      CurrentTasks(balls[..i + 1]) == CurrentTasks(balls[..i])
        + if task != "" && task !in CurrentTasks(balls[..i]) then [task] else []
  {
    assert balls[..i + 1][..i] == balls[..i] && balls[..i + 1][i] == balls[i];
  }

  /** What one pass of the loop does to a task. */
  lemma EntryVisited(balls: Balls, i: nat, order: seq<string>, entries: map<string, CurrentEntry>, t: string)
    requires i < |balls| && order == CurrentTasks(balls[..i]) && EntryIs(balls[..i], order, entries, t)
    ensures var (domain, ball) := balls[i];
      var task := CurrentTaskOf(ball);
      var known := if t in entries then entries[t] else NO_ENTRY;
      t in CurrentTasks(balls[..i + 1]) ==>
        EntryFor(balls[..i + 1], t) == if t == task && task != "" then Extended(known, domain, ball) else known
  {
    CurrentTasksStep(balls, i);
    EntryStep(balls, i, t);
    if t != "" && t !in order { AbsentEntry(balls[..i], t); }
  }

  /** The dictionary after one more ball. */
  lemma RepresentsStep(balls: Balls, i: nat, order0: seq<string>, entries0: map<string, CurrentEntry>,
                       order: seq<string>, entries: map<string, CurrentEntry>)
    requires i < |balls| && Represents(balls[..i], order0, entries0)
    requires var (domain, ball) := balls[i];
      var task := CurrentTaskOf(ball);
      var known := if task in entries0 then entries0[task] else NO_ENTRY;
      if task == "" then order == order0 && entries == entries0
      else
        && order == order0 + (if task in entries0 then [] else [task])
        && entries == entries0[task := Extended(known, domain, ball)]
    ensures Represents(balls[..i + 1], order, entries)
  {
    var task, next := CurrentTaskOf(balls[i].1), balls[..i + 1];
    CurrentTasksStep(balls, i);
    assert EntryIs(balls[..i], order0, entries0, task);
    forall t ensures EntryIs(next, order, entries, t) {
      assert EntryIs(balls[..i], order0, entries0, t);
      EntryVisited(balls, i, order0, entries0, t);
    }
  }

  /** `_current_balls` */
  method CurrentBalls(balls: Balls) returns (order: seq<string>, entries: map<string, CurrentEntry>)
    ensures Represents(balls, order, entries)
  {
    order, entries := [], map[];
    for i := 0 to |balls|
      invariant Represents(balls[..i], order, entries)
    {
      var (domain, ball) := balls[i];
      var task := CurrentTaskOf(ball);
      ghost var order0, entries0 := order, entries;
      if task != "" {
        var entry := NO_ENTRY;
        if task in entries {
          entry := entries[task];
        } else {
          order := order + [task];
        }
        entries := entries[task := Extended(entry, domain, ball)];
      }
      RepresentsStep(balls, i, order0, entries0, order, entries);
    }
    assert balls[..|balls|] == balls;
  }

  lemma {:induction false} AbsentEntry(balls: Balls, task: string)
    requires task != "" && task !in CurrentTasks(balls)
    ensures EntryFor(balls, task) == CurrentEntry({}, {}, {}, {}, "")
  {
    if balls != [] {
      var n := |balls| - 1;
      forall i | 0 <= i < n ensures !IsCurrent(balls[..n][i].1, task) { assert balls[..n][i] == balls[i]; }
      AbsentEntry(balls[..n], task);
      EntryStep(balls, n, task);
      assert balls[..n + 1] == balls;
    }
  }

  /** The dictionary of `_task_domains` after a prefix of the balls. */
  ghost predicate Groups(balls: Balls, byTask: map<string, set<string>>) {
    && (forall t :: t in byTask <==> t != "" && MemberDomains(balls, t) != {})
    && (forall t :: t in byTask ==> byTask[t] == MemberDomains(balls, t))
  }

  /** The task's domains after listing `ids` in a ball of `domain`. */
  ghost predicate AddedAt(before: map<string, set<string>>, byTask: map<string, set<string>>, domain: string,
                          ids: seq<Field>, t: string) {
    var listed := t != "" && Named(ids, t);
    && (t in byTask <==> t in before || listed)
    && (t in byTask ==> byTask[t] == (if t in before then before[t] else {}) + (if listed then {domain} else {}))
  }

  /** The inner loop of `_task_domains`. */
  method AddMemberships(before: map<string, set<string>>, domain: string, ids: seq<Field>)
    returns (byTask: map<string, set<string>>)
    ensures forall t :: AddedAt(before, byTask, domain, ids, t)
  {
    byTask := before;
    for j := 0 to |ids|
      invariant forall t :: AddedAt(before, byTask, domain, ids[..j], t)
    {
      var task := TextOf(ids[j]);
      ghost var byTask0, next := byTask, ids[..j + 1];
      assert AddedAt(before, byTask, domain, ids[..j], task);
      if task != "" {
        byTask := byTask[task := (if task in byTask then byTask[task] else {}) + {domain}];
      }
      forall t ensures AddedAt(before, byTask, domain, next, t) {
        assert AddedAt(before, byTask0, domain, ids[..j], t);
        NamedStep(ids, j, t);
      }
    }
    assert ids[..|ids|] == ids;
  }

  lemma GroupsStep(balls: Balls, i: nat, before: map<string, set<string>>, after: map<string, set<string>>)
    requires i < |balls| && Groups(balls[..i], before)
    requires var (domain, ball) := balls[i];
      && (forall t :: t in after <==> t in before || (t != "" && Lists(ball, t)))
      && (forall t :: t in after ==>
           after[t] == (if t in before then before[t] else {}) + (if t != "" && Lists(ball, t) then {domain} else {}))
    ensures Groups(balls[..i + 1], after)
  {
    forall t
      ensures t in after <==> t != "" && MemberDomains(balls[..i + 1], t) != {}
      ensures t in after ==> after[t] == MemberDomains(balls[..i + 1], t)
    {
      MemberStep(balls, i, t);
    }
  }

  /** `_task_domains` */
  method TaskDomains(balls: Balls) returns (m: map<string, seq<string>>)
    ensures forall t :: t in m <==> t != "" && MemberDomains(balls, t) != {}
    ensures forall t :: t in m ==> m[t] == SortedTuple(MemberDomains(balls, t))
  {
    var byTask: map<string, set<string>> := map[];
    for i := 0 to |balls|
      invariant Groups(balls[..i], byTask)
    {
      var (domain, ball) := balls[i];
      var after := byTask;
      if ball.taskIds.Some? {
        after := AddMemberships(byTask, domain, ball.taskIds.value);
        forall t
          ensures t in after <==> t in byTask || (t != "" && Lists(ball, t))
          ensures t in after ==>
            after[t] == (if t in byTask then byTask[t] else {}) + (if t != "" && Lists(ball, t) then {domain} else {})
        {
          assert AddedAt(byTask, after, domain, ball.taskIds.value, t);
          assert Named(ball.taskIds.value, t) == Lists(ball, t);
        }
      }
      GroupsStep(balls, i, byTask, after);
      byTask := after;
    }
    assert balls[..|balls|] == balls;
    m := map t | t in byTask :: SortedTuple(byTask[t]);
  }

  predicate Named(ids: seq<Field>, t: string) {
    exists i :: 0 <= i < |ids| && TextOf(ids[i]) == t
  }

  lemma NamedStep(ids: seq<Field>, j: nat, t: string)
    requires j < |ids|
    ensures Named(ids[..j + 1], t) <==> Named(ids[..j], t) || TextOf(ids[j]) == t
  {
    assert ids[..j + 1] == ids[..j] + [ids[j]];
    if Named(ids[..j + 1], t) {
      var i :| 0 <= i < |ids[..j + 1]| && TextOf(ids[..j + 1][i]) == t;
      if i < j { assert ids[..j][i] == ids[..j + 1][i]; }
    }
    if Named(ids[..j], t) {
      var i :| 0 <= i < |ids[..j]| && TextOf(ids[..j][i]) == t;
      assert ids[..j + 1][i] == ids[..j][i];
    }
    assert ids[..j + 1][j] == ids[j];
  }

  /** The two dictionaries the selection looks tasks up in. */
  datatype Tables = Tables(memberships: map<string, seq<string>>, order: seq<string>,
                           entries: map<string, CurrentEntry>) {
    function Domains(task: string): seq<string> {
      if task in memberships && memberships[task] != [] then memberships[task]
      else if task in entries then SortedTuple(entries[task].domains)
      else []
    }

    function Look(task: string): View {
      var e := if task in entries then entries[task] else NO_ENTRY;
      View(Domains(task), task in entries, "active" in e.statuses || "active_run" in e.kinds,
           "ready" in e.statuses && "eligible_task" in e.kinds && "now" in e.lanes)
    }

    function FallbackTitle(task: string): string {
      if task in entries then entries[task].title else ""
    }

    /** Looking tasks up answers as the summary of the balls does. */
    ghost predicate Describe(views: map<string, View>, titles: map<string, string>) {
      && (forall t :: t != "" ==> Look(t) == if t in views then views[t] else NOTHING)
      && (forall t :: t != "" ==> FallbackTitle(t) == if t in titles then titles[t] else "")
    }
  }

  lemma LookAgrees(t: Tables, balls: Balls, task: string)
    requires task != "" && Represents(balls, t.order, t.entries)
    requires task in t.memberships <==> MemberDomains(balls, task) != {}
    requires task in t.memberships ==> t.memberships[task] == SortedTuple(MemberDomains(balls, task))
    ensures t.Look(task) == ViewOf(balls, task) && t.FallbackTitle(task) == BallTitle(balls, task)
  {
    assert EntryIs(balls, t.order, t.entries, task);
    if task !in t.entries { AbsentEntry(balls, task); }
    var e := if task in t.entries then t.entries[task] else NO_ENTRY;
    assert e == EntryFor(balls, task);
    assert e.domains == CurrentDomains(balls, task) && e.statuses == Statuses(balls, task);
    assert e.kinds == Kinds(balls, task) && e.lanes == Lanes(balls, task);
  }

  /** `_task_domains` and `_current_balls` together. */
  method BuildTables(balls: Balls) returns (t: Tables)
    ensures t.Describe(Views(balls), BallTitles(balls))
    ensures forall x, y :: 0 <= x < y < |t.order| ==> t.order[x] != t.order[y]
    ensures forall x :: x in t.order <==> x in t.entries
    ensures "" !in t.order
  {
    var memberships := TaskDomains(balls);
    var order, entries := CurrentBalls(balls);
    t := Tables(memberships, order, entries);
    forall x ensures x in order <==> x in entries { assert EntryIs(balls, order, entries, x); }
    forall task | task != ""
      ensures t.Look(task) == if task in Views(balls) then Views(balls)[task] else NOTHING
      ensures t.FallbackTitle(task) == if task in BallTitles(balls) then BallTitles(balls)[task] else ""
    {
      LookAgrees(t, balls, task);
      if task !in Mentioned(balls) { UnmentionedIsNothing(balls, task); }
    }
  }
}
