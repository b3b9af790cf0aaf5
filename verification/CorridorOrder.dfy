/** Who comes first in the corridor: the global item, then running work, then claimable work,
    each in its own order, and why an item is missing
    (scripts/decision_axis_selection.py, `build_decision_axis_queue_items`). */
module CorridorOrder {
  import opened Orders
  import opened BureauProjection
  import opened NowCorridor

  function Phase(role: Role): nat {
    match role
    case GlobalFirst => 0
    case GlobalFirstActive => 0
    case AlreadyActive => 1
    case ParallelClaimable => 2
    case AfterCorridor => 3
  }

  /** First by domains, then by id. */
  predicate Before(domains: seq<string>, task: string, otherDomains: seq<string>, otherTask: string) {
    TupleLess(domains, otherDomains) || (domains == otherDomains && StringLess(task, otherTask))
  }

  /** The action makes the id claimable: its lane and its current balls say so. */
  predicate Qualifies(v: Summary, a: Ranked) {
    a.lane == "now" && a.task in v && v[a.task].current && v[a.task].claimable
  }

  /** The first action that makes the id claimable, or their number if there is none. */
  function FirstFor(actions: seq<Ranked>, v: Summary, task: string): (n: nat)
    ensures n <= |actions| && (n < |actions| ==> actions[n].task == task && Qualifies(v, actions[n]))
    ensures forall m :: 0 <= m < n ==> !(actions[m].task == task && Qualifies(v, actions[m]))
  {
    if actions == [] || (actions[0].task == task && Qualifies(v, actions[0])) then 0
    else 1 + FirstFor(actions[1..], v, task)
  }

  // ---------------------------------------------------------------- phases, and running work

  ghost predicate Pairwise(r: (Offer, Offer) -> bool, s: seq<Offer>) {
    forall i, j :: 0 <= i < j < |s| ==> r(s[i], s[j])
  }

  lemma DropOne(a: seq<Offer>, o: Offer, b: seq<Offer>, r: (Offer, Offer) -> bool)
    requires Pairwise(r, a + [o] + b)
    ensures Pairwise(r, a + b)
  {
    var all, fewer := a + [o] + b, a + b;
    forall i, j | 0 <= i < j < |fewer| ensures r(fewer[i], fewer[j]) {
      var k, l := if i < |a| then i else i + 1, if j < |a| then j else j + 1;
      assert fewer[i] == all[k] && fewer[j] == all[l];
    }
  }

  /** The allocator keeps any order its offers come in. */
  lemma {:induction false} FillKeepsOrder(cap: nat, picked: seq<Offer>, offers: seq<Offer>, r: (Offer, Offer) -> bool)
    requires Pairwise(r, picked + offers)
    ensures Pairwise(r, Fill(cap, picked, offers))
    decreases offers
  {
    if offers == [] || |picked| >= cap {
      assert forall i :: 0 <= i < |picked| ==> (picked + offers)[i] == picked[i];
    } else {
      var o, rest := offers[0], offers[1..];
      assert picked + [o] + rest == picked + offers;
      if !Fits(picked, o) {
        DropOne(picked, o, rest, r);
      }
      FillKeepsOrder(cap, Take(picked, o), rest, r);
    }
  }

  /** Phases do not fall, and running work rises. */
  predicate InOrder(a: Offer, b: Offer) {
    && Phase(a.role) <= Phase(b.role)
    && (a.role.AlreadyActive? && b.role.AlreadyActive? ==> Before(a.domains, a.task, b.domains, b.task))
  }

  lemma {:induction false} ClaimableRole(actions: seq<Ranked>, v: Summary)
    ensures forall o :: o in ClaimableOffers(actions, v) ==> o.role == ParallelClaimable
  {
    if actions != [] { ClaimableRole(actions[1..], v); }
  }

  lemma OffersInOrder(actions: seq<Ranked>, v: Summary)
    ensures Pairwise(InOrder, FirstPick(actions, v) + ParallelOffers(actions, v))
  {
    ClaimableRole(actions, v);
    RunningOffersInOrder(v);
    var first, active, claimable := FirstPick(actions, v), ActiveOffers(v), ClaimableOffers(actions, v);
    var s := first + ParallelOffers(actions, v);
    forall i, j | 0 <= i < j < |s| ensures InOrder(s[i], s[j]) {
      assert j >= |first| + |active| ==> s[j] in claimable;
      assert i >= |first| + |active| ==> s[i] in claimable;
    }
  }

  lemma RunningOffersInOrder(v: Summary)
    ensures Pairwise(InOrder, ActiveOffers(v))
  {
    CandidateOrderTotal();
    var cs := ActiveCandidates(v);
    forall i, j | 0 <= i < j < |cs| ensures Before(cs[i].domains, cs[i].task, cs[j].domains, cs[j].task) {
      assert CandidateLess(cs[i], cs[j]);
    }
  }

  /** Phases do not fall along the list. */
  lemma PhasesInOrder(actions: seq<Ranked>, v: Summary, cap: nat, i: nat, j: nat)
    requires i < j < |NowPicks(actions, v, cap)|
    ensures Phase(NowPicks(actions, v, cap)[i].role) <= Phase(NowPicks(actions, v, cap)[j].role)
  {
    OffersInOrder(actions, v);
    FillKeepsOrder(cap, FirstPick(actions, v), ParallelOffers(actions, v), InOrder);
    assert InOrder(NowPicks(actions, v, cap)[i], NowPicks(actions, v, cap)[j]);
  }

  /** Running work stands in the strict order of its domains, then its ids. */
  lemma RunningInOrder(actions: seq<Ranked>, v: Summary, cap: nat, i: nat, j: nat)
    requires i < j < |NowPicks(actions, v, cap)|
    requires NowPicks(actions, v, cap)[i].role == NowPicks(actions, v, cap)[j].role == AlreadyActive
    ensures var now := NowPicks(actions, v, cap);
      Before(now[i].domains, now[i].task, now[j].domains, now[j].task)
  {
    OffersInOrder(actions, v);
    FillKeepsOrder(cap, FirstPick(actions, v), ParallelOffers(actions, v), InOrder);
    assert InOrder(NowPicks(actions, v, cap)[i], NowPicks(actions, v, cap)[j]);
  }

  // ---------------------------------------------------------------- what the items are

  lemma {:induction false} ClaimableComesFrom(actions: seq<Ranked>, v: Summary, o: Offer) returns (n: nat)
    requires o in ClaimableOffers(actions, v)
    ensures n < |actions| && Qualifies(v, actions[n])
    ensures o == Offer(actions[n].task, ParallelClaimable, v[actions[n].task].domains, "")
  {
    if Claimable(v, actions[0]) && o == ClaimableOffer(actions[0], v) {
      n := 0;
    } else {
      var m := ClaimableComesFrom(actions[1..], v, o);
      n := m + 1;
    }
  }

  /** Every item but the first is running work or comes from a qualifying action, with the
      domains the balls give its id. */
  lemma ItemsAreWork(actions: seq<Ranked>, v: Summary, cap: nat, i: nat)
    requires i < |NowPicks(actions, v, cap)| && (i > 0 || actions == [])
    ensures var o := NowPicks(actions, v, cap)[i];
      && o.task in v && v[o.task].current && o.domains == v[o.task].domains != []
      && if o.role == AlreadyActive then v[o.task].active
         else o.role == ParallelClaimable && v[o.task].claimable
              && exists n :: 0 <= n < |actions| && actions[n].task == o.task && actions[n].lane == "now"
  {
    var first, offers := FirstPick(actions, v), ParallelOffers(actions, v);
    NewFits(cap, first, offers, i);
    var o := NowPicks(actions, v, cap)[i];
    if o in ActiveOffers(v) {
      var k :| 0 <= k < |ActiveOffers(v)| && ActiveOffers(v)[k] == o;
      assert ActiveCandidates(v)[k] in CandidatesAmong(v, SortedTuple(v.Keys));
    } else {
      var n := ClaimableComesFrom(actions, v, o);
    }
  }

  /** What is added to the list is an offer that fits. */
  lemma {:induction false} NewFits(cap: nat, picked: seq<Offer>, offers: seq<Offer>, i: nat)
    requires |picked| <= i < |Fill(cap, picked, offers)|
    ensures var o := Fill(cap, picked, offers)[i]; o in offers && Fits(picked, o)
    decreases offers
  {
    var next := Take(picked, offers[0]);
    if i < |next| {
      assert Fill(cap, next, offers[1..])[i] == next[i] == offers[0];
    } else {
      NewFits(cap, next, offers[1..], i);
      FitsLess(picked, next, Fill(cap, picked, offers)[i]);
    }
  }

  lemma FitsLess(picked: seq<Offer>, more: seq<Offer>, o: Offer)
    requires picked <= more && Fits(more, o)
    ensures Fits(picked, o)
  {
    assert forall i :: 0 <= i < |picked| ==> picked[i] == more[i];
  }

  /** The top action comes first, whatever its domains. */
  lemma TopActionFirst(actions: seq<Ranked>, v: Summary, cap: nat)
    requires actions != []
    ensures var now := NowPicks(actions, v, cap);
      && now != [] && now[0].task == actions[0].task
      && now[0].domains == (if actions[0].task in v then v[actions[0].task].domains else [])
      && now[0].role == if actions[0].task in v && v[actions[0].task].active then GlobalFirstActive else GlobalFirst
  {
    assert FirstPick(actions, v) <= NowPicks(actions, v, cap);
  }

  // ---------------------------------------------------------------- claimable work in the order of the actions

  /** Nothing that qualifies before action `n` still fits. */
  ghost predicate Done(actions: seq<Ranked>, v: Summary, n: nat, picked: seq<Offer>)
    requires n <= |actions|
  {
    forall m :: 0 <= m < n && Claimable(v, actions[m]) ==> !Fits(picked, ClaimableOffer(actions[m], v))
  }

  lemma DoneStays(actions: seq<Ranked>, v: Summary, n: nat, picked: seq<Offer>)
    requires n < |actions| && Done(actions, v, n, picked)
    ensures !Claimable(v, actions[n]) ==> Done(actions, v, n + 1, picked)
    ensures Claimable(v, actions[n]) ==> Done(actions, v, n + 1, Take(picked, ClaimableOffer(actions[n], v)))
  {
    var o := ClaimableOffer(actions[n], v);
    var next := Take(picked, o);
    forall m | 0 <= m < n && Claimable(v, actions[m]) ensures !Fits(next, ClaimableOffer(actions[m], v)) {
      if Fits(next, ClaimableOffer(actions[m], v)) { FitsLess(picked, next, ClaimableOffer(actions[m], v)); }
    }
    if Fits(picked, o) { assert next[|picked|] == o; }
  }

  /** A claimable offer that fits, when all before action `n` is done, first qualifies at `n` or later. */
  lemma FirstIsLater(actions: seq<Ranked>, v: Summary, n: nat, picked: seq<Offer>, o: Offer)
    requires n <= |actions| && Done(actions, v, n, picked) && Fits(picked, o)
    requires o == Offer(o.task, ParallelClaimable, ViewIn(v, o.task).domains, "")
    ensures FirstFor(actions, v, o.task) >= n
  {
    var m := FirstFor(actions, v, o.task);
    if m < n { assert ClaimableOffer(actions[m], v) == o; }
  }

  lemma {:induction false} ClaimedInOrder(cap: nat, actions: seq<Ranked>, v: Summary, n: nat, picked: seq<Offer>,
                                          i: nat, j: nat)
    requires n <= |actions| && Done(actions, v, n, picked)
    requires |picked| <= i < j < |Fill(cap, picked, ClaimableOffers(actions[n..], v))|
    ensures var r := Fill(cap, picked, ClaimableOffers(actions[n..], v));
      FirstFor(actions, v, r[i].task) < FirstFor(actions, v, r[j].task)
    decreases |actions| - n
  {
    var offers := ClaimableOffers(actions[n..], v);
    var r := Fill(cap, picked, offers);
    assert actions[n..][0] == actions[n] && actions[n..][1..] == actions[n + 1..];
    DoneStays(actions, v, n, picked);
    if !Claimable(v, actions[n]) {
      ClaimedInOrder(cap, actions, v, n + 1, picked, i, j);
    } else {
      var o, rest := ClaimableOffer(actions[n], v), ClaimableOffers(actions[n + 1..], v);
      var next := Take(picked, o);
      assert offers[0] == o && offers[1..] == rest;
      assert r == Fill(cap, next, rest);
      if i >= |next| {
        ClaimedInOrder(cap, actions, v, n + 1, next, i, j);
      } else {
        assert r[i] == next[i] == o && Qualifies(v, actions[n]);
        NewFits(cap, next, rest, j);
        var m := ClaimableComesFrom(actions[n + 1..], v, r[j]);
        FirstIsLater(actions, v, n + 1, next, r[j]);
      }
    }
  }

  /** Claimable work stands in the order in which its ids first qualify among the actions. */
  lemma ClaimableInOrder(actions: seq<Ranked>, v: Summary, cap: nat, i: nat, j: nat)
    requires i < j < |NowPicks(actions, v, cap)|
    requires NowPicks(actions, v, cap)[i].role == NowPicks(actions, v, cap)[j].role == ParallelClaimable
    ensures var now := NowPicks(actions, v, cap);
      FirstFor(actions, v, now[i].task) < FirstFor(actions, v, now[j].task) < |actions|
  {
    var first, active, claimable := FirstPick(actions, v), ActiveOffers(v), ClaimableOffers(actions, v);
    ItemsAreWork(actions, v, cap, j);
    var p := Fill(cap, first, active);
    FillInTwoParts(cap, first, active, claimable);
    assert actions[0..] == actions;
    RunningRoles(cap, actions, v);
    BehindRunning(p, NowPicks(actions, v, cap), i);
    ClaimedInOrder(cap, actions, v, 0, p, i, j);
    NewFits(cap, p, claimable, j);
    var n := ClaimableComesFrom(actions, v, NowPicks(actions, v, cap)[j]);
  }

  lemma BehindRunning(p: seq<Offer>, now: seq<Offer>, i: nat)
    requires p <= now && i < |now| && forall o :: o in p ==> Phase(o.role) <= 1
    ensures i < |p| ==> Phase(now[i].role) <= 1
  {
    assert i < |p| ==> now[i] == p[i] && p[i] in p;
  }

  lemma RunningRoles(cap: nat, actions: seq<Ranked>, v: Summary)
    ensures forall o :: o in Fill(cap, FirstPick(actions, v), ActiveOffers(v)) ==> Phase(o.role) <= 1
  {
    forall o | o in Fill(cap, FirstPick(actions, v), ActiveOffers(v)) ensures Phase(o.role) <= 1 {
      FillTakesFrom(cap, FirstPick(actions, v), ActiveOffers(v), o);
    }
  }

  // ---------------------------------------------------------------- why an item is missing

  /** When an offer's turn comes: it is taken, or its id is there, or it has no known domain, or
      one of those taken before has one of its domains, or they fill the list. */
  lemma FillDecides(cap: nat, picked: seq<Offer>, a: seq<Offer>, o: Offer, b: seq<Offer>)
    ensures var r, p := Fill(cap, picked, a + ([o] + b)), Fill(cap, picked, a);
      && p <= r
      && (|| o.task in Tasks(r) || o.domains == [] || Overlaps(o.domains, Occupied(p))
          || (|p| >= cap && r == p))
  {
    var p := Fill(cap, picked, a);
    FillInTwoParts(cap, picked, a, [o] + b);
    var r := Fill(cap, picked, a + ([o] + b));
    assert ([o] + b)[0] == o && ([o] + b)[1..] == b;
    if |p| < cap && Fits(p, o) {
      assert p + [o] <= r;
      assert r[|p|] == o;
    } else if o.task in Tasks(p) {
      var k :| 0 <= k < |p| && p[k].task == o.task;
      assert r[k] == p[k];
    }
  }

  ghost predicate SharesDomain(o: Offer, domains: seq<string>) {
    exists d :: d in o.domains && d in domains
  }

  /** Some item with precedence has one of the domains, or items with precedence fill the list. */
  ghost predicate Crowded(now: seq<Offer>, cap: nat, domains: seq<string>, precedes: Offer -> bool) {
    || (exists i :: 0 <= i < |now| && precedes(now[i]) && SharesDomain(now[i], domains))
    || (|now| >= cap && forall i :: 0 <= i < |now| ==> precedes(now[i]))
  }

  lemma CrowdedOut(cap: nat, picked: seq<Offer>, a: seq<Offer>, o: Offer, b: seq<Offer>, precedes: Offer -> bool)
    requires o.task !in Tasks(Fill(cap, picked, a + ([o] + b))) && o.domains != []
    requires forall x :: x in Fill(cap, picked, a) ==> precedes(x)
    ensures Crowded(Fill(cap, picked, a + ([o] + b)), cap, o.domains, precedes)
  {
    var r, p := Fill(cap, picked, a + ([o] + b)), Fill(cap, picked, a);
    FillDecides(cap, picked, a, o, b);
    if Overlaps(o.domains, Occupied(p)) {
      var d :| d in o.domains && d in Occupied(p);
      var i :| 0 <= i < |p| && d in p[i].domains;
      assert r[i] == p[i] && p[i] in p && SharesDomain(r[i], o.domains);
    }
  }

  /** The item has precedence over running work with these domains and this id. */
  predicate Precedes(o: Offer, domains: seq<string>, task: string) {
    Phase(o.role) == 0 || (o.role.AlreadyActive? && Before(o.domains, o.task, domains, task))
  }

  /** Running work with known domains is missing only because of an item with precedence that
      has one of its domains, or because items with precedence fill the list. */
  lemma MissingRunning(actions: seq<Ranked>, v: Summary, cap: nat, task: string)
    requires ParallelAllowed(actions, v)
    requires task in v && v[task].current && v[task].active && v[task].domains != []
    requires task !in Tasks(NowPicks(actions, v, cap))
    ensures Crowded(NowPicks(actions, v, cap), cap, v[task].domains,
                    (o: Offer) => Precedes(o, v[task].domains, task))
  {
    var c := Candidate(v[task].domains, task);
    assert c in ActiveCandidates(v);
    var k :| 0 <= k < |ActiveCandidates(v)| && ActiveCandidates(v)[k] == c;
    var picked, active, claimable := FirstPick(actions, v), ActiveOffers(v), ClaimableOffers(actions, v);
    var a, b := active[..k], active[k + 1..] + claimable;
    SplitAt(active, claimable, k);
    AllEarlier(cap, actions, v, k);
    assert active[k] == ActiveOffer(c);
    CrowdedOut(cap, picked, a, ActiveOffer(c), b, (x: Offer) => Precedes(x, c.domains, task));
  }

  lemma SplitAt(s: seq<Offer>, t: seq<Offer>, k: nat)
    requires k < |s|
    ensures s + t == s[..k] + ([s[k]] + (s[k + 1..] + t))
  {
  }

  lemma AllEarlier(cap: nat, actions: seq<Ranked>, v: Summary, k: nat)
    requires k < |ActiveOffers(v)|
    ensures forall x :: x in Fill(cap, FirstPick(actions, v), ActiveOffers(v)[..k]) ==>
      Precedes(x, ActiveCandidates(v)[k].domains, ActiveCandidates(v)[k].task)
  {
    var picked, a := FirstPick(actions, v), ActiveOffers(v)[..k];
    forall x | x in Fill(cap, picked, a)
      ensures Precedes(x, ActiveCandidates(v)[k].domains, ActiveCandidates(v)[k].task)
    {
      FillTakesFrom(cap, picked, a, x);
      if x in a { EarlierRunning(v, k, x); }
    }
  }

  lemma EarlierRunning(v: Summary, k: nat, x: Offer)
    requires k < |ActiveOffers(v)| && x in ActiveOffers(v)[..k]
    ensures Precedes(x, ActiveCandidates(v)[k].domains, ActiveCandidates(v)[k].task)
  {
    RunningOffersInOrder(v);
    var m :| 0 <= m < k && ActiveOffers(v)[..k][m] == x;
    assert InOrder(ActiveOffers(v)[m], ActiveOffers(v)[k]);
  }

  /** The item has precedence over a claimable id that qualifies at action `n`. */
  predicate ComesBefore(o: Offer, actions: seq<Ranked>, v: Summary, n: nat) {
    Phase(o.role) <= 1 || FirstFor(actions, v, o.task) < n
  }

  lemma {:induction false} ClaimableConcat(a: seq<Ranked>, b: seq<Ranked>, v: Summary)
    ensures ClaimableOffers(a + b, v) == ClaimableOffers(a, v) + ClaimableOffers(b, v)
  {
    if a == [] {
      assert a + b == b;
    } else {
      assert (a + b)[0] == a[0] && (a + b)[1..] == a[1..] + b;
      ClaimableConcat(a[1..], b, v);
    }
  }

  /** The same rule for claimable work, in the order of the actions. */
  lemma MissingClaimable(actions: seq<Ranked>, v: Summary, cap: nat, n: nat)
    requires ParallelAllowed(actions, v) && n < |actions| && Qualifies(v, actions[n])
    requires v[actions[n].task].domains != [] && actions[n].task !in Tasks(NowPicks(actions, v, cap))
    ensures Crowded(NowPicks(actions, v, cap), cap, v[actions[n].task].domains,
                    (o: Offer) => ComesBefore(o, actions, v, n))
  {
    var picked, active := FirstPick(actions, v), ActiveOffers(v);
    var o, x := ClaimableOffer(actions[n], v), ClaimableOffers(actions[..n], v);
    var y := ClaimableOffers(actions[n + 1..], v);
    ClaimableSplit(actions, v, n);
    Regroup(active, x, [o] + y);
    AllComeBefore(cap, actions, v, n);
    CrowdedOut(cap, picked, active + x, o, y, (e: Offer) => ComesBefore(e, actions, v, n));
  }

  lemma Regroup(a: seq<Offer>, b: seq<Offer>, c: seq<Offer>)
    ensures a + (b + c) == (a + b) + c
  {
  }

  lemma AllComeBefore(cap: nat, actions: seq<Ranked>, v: Summary, n: nat)
    requires n < |actions|
    ensures forall e :: e in Fill(cap, FirstPick(actions, v), ActiveOffers(v) + ClaimableOffers(actions[..n], v)) ==>
      ComesBefore(e, actions, v, n)
  {
    var picked, x := FirstPick(actions, v), ClaimableOffers(actions[..n], v);
    forall e | e in Fill(cap, picked, ActiveOffers(v) + x) ensures ComesBefore(e, actions, v, n) {
      FillTakesFrom(cap, picked, ActiveOffers(v) + x, e);
      if e in x { EarlierClaimable(actions, v, n, e); }
    }
  }

  lemma ClaimableSplit(actions: seq<Ranked>, v: Summary, n: nat)
    requires n < |actions| && Claimable(v, actions[n])
    ensures ClaimableOffers(actions, v) ==
      ClaimableOffers(actions[..n], v) + ([ClaimableOffer(actions[n], v)] + ClaimableOffers(actions[n + 1..], v))
  {
    assert actions == actions[..n] + actions[n..];
    assert actions[n..][0] == actions[n] && actions[n..][1..] == actions[n + 1..];
    ClaimableConcat(actions[..n], actions[n..], v);
  }

  lemma EarlierClaimable(actions: seq<Ranked>, v: Summary, n: nat, e: Offer)
    requires n < |actions| && e in ClaimableOffers(actions[..n], v)
    ensures FirstFor(actions, v, e.task) < n
  {
    var m := ClaimableComesFrom(actions[..n], v, e);
    assert actions[..n][m] == actions[m];
  }

  // ---------------------------------------------------------------- the Later list

  predicate GoesLater(a: Ranked, selected: set<string>) {
    a.task !in selected && a.lane != "now"
  }

  /** How many of the actions go later. */
  function LaterCount(actions: seq<Ranked>, selected: set<string>): nat {
    if actions == [] then 0
    else (if GoesLater(actions[0], selected) then 1 else 0) + LaterCount(actions[1..], selected)
  }

  lemma {:induction false} LaterLength(actions: seq<Ranked>, v: Summary, selected: set<string>, cap: nat)
    ensures var n := LaterCount(actions, selected);
      |LaterPicks(actions, v, selected, cap)| == if n < cap then n else cap
    decreases actions
  {
    if actions != [] && cap > 0 {
      LaterLength(actions[1..], v, selected, if GoesLater(actions[0], selected) then cap - 1 else cap);
    }
  }

  /** The Later list, item by item: the action at `n`, if it goes later, stands behind exactly
      those before it that do, if there is room; and there are no other items. */
  lemma {:induction false} LaterItem(actions: seq<Ranked>, v: Summary, selected: set<string>, cap: nat, n: nat)
    requires n < |actions| && GoesLater(actions[n], selected)
    ensures var k, a := LaterCount(actions[..n], selected), actions[n];
      k < cap ==>
        && k < |LaterPicks(actions, v, selected, cap)|
        && LaterPicks(actions, v, selected, cap)[k]
          == Offer(a.task, AfterCorridor, if a.task in v then v[a.task].domains else [],
                   if a.lane == "" then "unknown" else a.lane)
    decreases actions
  {
    if cap > 0 && n > 0 {
      assert actions[..n][0] == actions[0] && actions[..n][1..] == actions[1..][..n - 1];
      LaterItem(actions[1..], v, selected, if GoesLater(actions[0], selected) then cap - 1 else cap, n - 1);
    }
  }

  // ---------------------------------------------------------------- the items that are returned

  /** All of this is about the items: they carry the picks, in their order. */
  lemma ItemsArePicks(actions: seq<Ranked>, balls: Balls, titles: Titles, maxNow: nat, maxLater: nat)
    ensures var r, now := CorridorOf(actions, balls, titles, maxNow, maxLater), NowPicks(actions, Views(balls), maxNow);
      var later := LaterPicks(actions, Views(balls), Tasks(now), maxLater);
      && r.Corridor? && |r.now| == |now| && |r.later| == |later|
      && (forall i :: 0 <= i < |now| ==> r.now[i].offer == now[i])
      && (forall i :: 0 <= i < |later| ==> r.later[i].offer == later[i])
  {
  }

  /** An item's title: the one of its own, else the current ball's, else the id. */
  lemma ItemTitle(o: Offer, titles: Titles, balls: Balls)
    ensures var own := if o.task in titles then TextOf(titles[o.task]) else "";
      var offered := if o.task in BallTitles(balls) then BallTitle(balls, o.task) else "";
      ItemFor(o, titles, BallTitles(balls)).title ==
        if own != "" then own else if offered != "" then offered else o.task
  {
  }
}
