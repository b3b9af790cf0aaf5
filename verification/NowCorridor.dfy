/** The bounded, conflict-free "Now corridor" (scripts/decision_axis_selection.py,
    `build_decision_axis_queue_items`). */
module NowCorridor {
  import opened Common
  import opened Orders
  import opened BureauProjection

  datatype Action = Action(taskId: Field, lane: Field)

  /** The status projection as parsed; `None` stands for a wrong JSON type. */
  datatype Projection = Projection(nextActions: Option<seq<Option<Action>>>,
                                   repositoryBalls: Option<seq<(string, Option<Ball>)>>)

  /** `task_by_id`: the title field of each known task. */
  type Titles = map<string, Field>

  datatype Role = GlobalFirst | GlobalFirstActive | AlreadyActive | ParallelClaimable | AfterCorridor

  /** What is decided about an item.  The source formats `role` and `domains` into `meta`
      and `lane` into `detail`; no domain prints as "unknown". */
  datatype Offer = Offer(task: string, role: Role, domains: seq<string>, lane: string)

  datatype Item = Item(offer: Offer, title: string)

  const UNKNOWN: string := "unknown"

  /** `_repository_balls` */
  function RepositoryBalls(p: Projection): Balls {
    if p.repositoryBalls.None? then [] else KnownBalls(p.repositoryBalls.value)
  }

  function KnownBalls(raw: seq<(string, Option<Ball>)>): Balls {
    if raw == [] then []
    else (if raw[0].1.Some? then [(raw[0].0, raw[0].1.value)] else []) + KnownBalls(raw[1..])
  }

  /** A ranked action after `_text`. */
  datatype Ranked = Ranked(task: string, lane: string)

  /** `_ranked_actions` */
  function RankedActions(p: Projection): (r: seq<Ranked>)
    ensures forall a :: a in r ==> a.task != ""
  {
    if p.nextActions.None? then [] else KnownActions(p.nextActions.value)
  }

  function KnownActions(raw: seq<Option<Action>>): (r: seq<Ranked>)
    ensures forall a :: a in r ==> a.task != ""
  {
    if raw == [] then []
    else
      (if raw[0].Some? && TextOf(raw[0].value.taskId) != ""
       then [Ranked(TextOf(raw[0].value.taskId), TextOf(raw[0].value.lane))] else [])
      + KnownActions(raw[1..])
  }

  // ---------------------------------------------------------------- what is selected

  type Summary = map<string, View>

  function ViewIn(v: Summary, task: string): View {
    if task in v then v[task] else NOTHING
  }

  datatype Candidate = Candidate(domains: seq<string>, task: string)

  predicate CandidateLess(a: Candidate, b: Candidate) {
    TupleLess(a.domains, b.domains) || (a.domains == b.domains && StringLess(a.task, b.task))
  }

  lemma CandidateOrderTotal()
    ensures Total(CandidateLess)
  {
    StringOrderTotal();
  }

  /** Some ball is at the task, and it is running. */
  predicate IsCandidate(v: Summary, task: string) {
    ViewIn(v, task).current && ViewIn(v, task).active
  }

  /** The candidates `tasks` yields, in the order of `tasks`. */
  function CandidatesAmong(v: Summary, tasks: seq<string>): (r: seq<Candidate>)
    ensures forall c :: c in r <==> c.task in tasks && IsCandidate(v, c.task) && c.domains == ViewIn(v, c.task).domains
  {
    if tasks == [] then []
    else
      var init, last := tasks[..|tasks| - 1], tasks[|tasks| - 1];
      assert tasks == init + [last];
      CandidatesAmong(v, init) + if IsCandidate(v, last) then [Candidate(ViewIn(v, last).domains, last)] else []
  }

  /** Second phase: what is already running, in the total order (domains, task).  Any
      enumeration of the tasks gives the same sequence; the tasks are enumerated in order. */
  function ActiveCandidates(v: Summary): seq<Candidate> {
    Sort(CandidateLess, CandidatesAmong(v, SortedTuple(v.Keys)))
  }

  function ActiveOffer(c: Candidate): Offer { Offer(c.task, AlreadyActive, c.domains, "") }

  function ActiveOffers(v: Summary): (r: seq<Offer>)
    ensures |r| == |ActiveCandidates(v)|
    ensures forall i :: 0 <= i < |r| ==> r[i] == ActiveOffer(ActiveCandidates(v)[i])
  {
    var cs := ActiveCandidates(v);
    seq(|cs|, i requires 0 <= i < |cs| => ActiveOffer(cs[i]))
  }

  predicate Claimable(v: Summary, a: Ranked) {
    a.lane == "now" && ViewIn(v, a.task).current && ViewIn(v, a.task).claimable
  }

  function ClaimableOffer(a: Ranked, v: Summary): Offer {
    Offer(a.task, ParallelClaimable, ViewIn(v, a.task).domains, "")
  }

  /** Third phase: claimable actions in Bureau's order. */
  function ClaimableOffers(actions: seq<Ranked>, v: Summary): (r: seq<Offer>)
    ensures forall a :: a in actions && Claimable(v, a) ==> ClaimableOffer(a, v) in r
  {
    if actions == [] then []
    else
      assert actions == [actions[0]] + actions[1..];
      var rest := ClaimableOffers(actions[1..], v);
      if Claimable(v, actions[0]) then [ClaimableOffer(actions[0], v)] + rest else rest
  }

  function LaneText(a: Ranked): string {
    if a.lane == "" then UNKNOWN else a.lane
  }

  /** First phase: Bureau's top priority, whatever its domains. */
  function GlobalOffer(a: Ranked, v: Summary): Offer {
    var view := ViewIn(v, a.task);
    Offer(a.task, if view.active then GlobalFirstActive else GlobalFirst, view.domains, LaneText(a))
  }

  function Tasks(picked: seq<Offer>): (r: set<string>)
    ensures forall t :: t in r <==> exists i :: 0 <= i < |picked| && picked[i].task == t
  {
    set i | 0 <= i < |picked| :: picked[i].task
  }

  function Occupied(picked: seq<Offer>): (r: set<string>)
    ensures forall d :: d in r <==> exists i :: 0 <= i < |picked| && d in picked[i].domains
  {
    set i, d | 0 <= i < |picked| && d in picked[i].domains :: d
  }

  predicate Overlaps(domains: seq<string>, occupied: set<string>) {
    exists d :: d in domains && d in occupied
  }

  predicate Fits(picked: seq<Offer>, o: Offer) {
    o.task !in Tasks(picked) && o.domains != [] && !Overlaps(o.domains, Occupied(picked))
  }

  function Take(picked: seq<Offer>, o: Offer): seq<Offer> {
    if Fits(picked, o) then picked + [o] else picked
  }

  /** The greedy allocator: take each offer that fits until the cap is reached. */
  function Fill(cap: nat, picked: seq<Offer>, offers: seq<Offer>): (r: seq<Offer>)
    ensures picked <= r
    ensures |picked| <= cap ==> |r| <= cap
    decreases offers
  {
    if offers == [] || |picked| >= cap then picked else Fill(cap, Take(picked, offers[0]), offers[1..])
  }

  function FirstPick(actions: seq<Ranked>, v: Summary): seq<Offer> {
    if actions == [] then [] else [GlobalOffer(actions[0], v)]
  }

  /** Parallel work is offered unless the global item has no known domain. */
  predicate ParallelAllowed(actions: seq<Ranked>, v: Summary) {
    actions == [] || ViewIn(v, actions[0].task).domains != []
  }

  function ParallelOffers(actions: seq<Ranked>, v: Summary): seq<Offer> {
    if ParallelAllowed(actions, v) then ActiveOffers(v) + ClaimableOffers(actions, v) else []
  }

  function NowPicks(actions: seq<Ranked>, v: Summary, cap: nat): seq<Offer> {
    Fill(cap, FirstPick(actions, v), ParallelOffers(actions, v))
  }

  function LaterOffer(a: Ranked, v: Summary): Offer {
    Offer(a.task, AfterCorridor, ViewIn(v, a.task).domains, LaneText(a))
  }

  function LaterPicks(actions: seq<Ranked>, v: Summary, selected: set<string>, cap: nat): (r: seq<Offer>)
    ensures |r| <= cap
  {
    if actions == [] || cap == 0 then []
    else if actions[0].task in selected || actions[0].lane == "now" then LaterPicks(actions[1..], v, selected, cap)
    else [LaterOffer(actions[0], v)] + LaterPicks(actions[1..], v, selected, cap - 1)
  }

  // ---------------------------------------------------------------- theorems

  /** The bounded list is the unbounded one cut off. */
  lemma {:induction false} FillIsPrefix(k: nat, larger: nat, picked: seq<Offer>, offers: seq<Offer>)
    requires |picked| <= k <= larger
    ensures Fill(k, picked, offers) == var r := Fill(larger, picked, offers); if k < |r| then r[..k] else r
    decreases offers
  {
    if offers != [] && |picked| < k {
      FillIsPrefix(k, larger, Take(picked, offers[0]), offers[1..]);
    }
  }

  lemma NowIsPrefixOfLargerCap(actions: seq<Ranked>, v: Summary, k: nat, larger: nat)
    requires 1 <= k <= larger
    ensures NowPicks(actions, v, k) == var r := NowPicks(actions, v, larger); if k < |r| then r[..k] else r
  {
    FillIsPrefix(k, larger, FirstPick(actions, v), ParallelOffers(actions, v));
  }

  ghost predicate ConflictFree(picks: seq<Offer>) {
    forall i, j :: 0 <= i < j < |picks| ==>
      picks[i].task != picks[j].task && forall d :: d in picks[i].domains ==> d !in picks[j].domains
  }

  ghost predicate AllKnown(picks: seq<Offer>) {
    forall i :: 0 <= i < |picks| ==> picks[i].domains != []
  }

  lemma {:induction false} FillIsConflictFree(cap: nat, picked: seq<Offer>, offers: seq<Offer>)
    requires ConflictFree(picked)
    ensures ConflictFree(Fill(cap, picked, offers))
    ensures AllKnown(picked) ==> AllKnown(Fill(cap, picked, offers))
    decreases offers
  {
    if offers != [] && |picked| < cap {
      FillIsConflictFree(cap, Take(picked, offers[0]), offers[1..]);
    }
  }

  lemma {:induction false} FillIsMaximal(cap: nat, picked: seq<Offer>, offers: seq<Offer>, o: Offer)
    requires |Fill(cap, picked, offers)| < cap && o in offers
    ensures !Fits(Fill(cap, picked, offers), o)
    decreases offers
  {
    if |picked| < cap {
      var next := Take(picked, offers[0]);
      var r := Fill(cap, next, offers[1..]);
      if o == offers[0] {
        assert forall i :: 0 <= i < |next| ==> next[i] == r[i];
        if Fits(picked, o) { assert next[|picked|] == o; }
      } else {
        FillIsMaximal(cap, next, offers[1..], o);
      }
    }
  }

  lemma {:induction false} FillTakesFrom(cap: nat, picked: seq<Offer>, offers: seq<Offer>, o: Offer)
    requires o in Fill(cap, picked, offers)
    ensures o in picked || o in offers
    decreases offers
  {
    if offers != [] && |picked| < cap {
      FillTakesFrom(cap, Take(picked, offers[0]), offers[1..], o);
    }
  }

  /** Now items have distinct ids and pairwise disjoint domains, respect the cap, and an
      item without a known domain can only be the global one, alone. */
  lemma NowIsConflictFree(actions: seq<Ranked>, v: Summary, cap: nat)
    requires cap >= 1
    ensures var now := NowPicks(actions, v, cap);
      && |now| <= cap && ConflictFree(now)
      && (forall i :: 0 <= i < |now| && now[i].domains == [] ==>
           |now| == 1 && (now[0].role.GlobalFirst? || now[0].role.GlobalFirstActive?))
  {
    FillIsConflictFree(cap, FirstPick(actions, v), ParallelOffers(actions, v));
  }

  /** Below the cap nothing that could run in parallel is left out: what is missing has no
      known domain or shares one with a Now item. */
  lemma NowIsMaximal(actions: seq<Ranked>, v: Summary, cap: nat, task: string)
    requires ParallelAllowed(actions, v) && |NowPicks(actions, v, cap)| < cap
    requires IsCandidate(v, task) || exists a :: a in actions && a.task == task && Claimable(v, a)
    ensures var now := NowPicks(actions, v, cap);
      task in Tasks(now) || ViewIn(v, task).domains == [] || Overlaps(ViewIn(v, task).domains, Occupied(now))
  {
    if IsCandidate(v, task) {
      var c := Candidate(ViewIn(v, task).domains, task);
      assert c in ActiveCandidates(v);
      var i :| 0 <= i < |ActiveCandidates(v)| && ActiveCandidates(v)[i] == c;
      assert ActiveOffers(v)[i] == ActiveOffer(c);
      FillIsMaximal(cap, FirstPick(actions, v), ParallelOffers(actions, v), ActiveOffer(c));
    } else {
      var a :| a in actions && a.task == task && Claimable(v, a);
      FillIsMaximal(cap, FirstPick(actions, v), ParallelOffers(actions, v), ClaimableOffer(a, v));
    }
  }

  /** In a summary of real balls every current task has a domain, so below the cap a running
      or claimable task is missing only because of a conflict. */
  lemma MissingMeansConflict(actions: seq<Ranked>, balls: Balls, cap: nat, task: string)
    requires ParallelAllowed(actions, Views(balls)) && |NowPicks(actions, Views(balls), cap)| < cap
    requires IsCandidate(Views(balls), task) || exists a :: a in actions && a.task == task && Claimable(Views(balls), a)
    ensures var now := NowPicks(actions, Views(balls), cap);
      task in Tasks(now) || Overlaps(ViewIn(Views(balls), task).domains, Occupied(now))
  {
    NowIsMaximal(actions, Views(balls), cap, task);
    CurrentTasksHaveDomains(balls, task);
  }

  /** Ids, roles, domains, lanes and order of both lists do not depend on the order of the
      balls or of their task ids. */
  lemma SelectionForgetsOrder(actions: seq<Ranked>, a: Balls, b: Balls, nowCap: nat, laterCap: nat)
    requires SameBalls(a, b)
    ensures NowPicks(actions, Views(a), nowCap) == NowPicks(actions, Views(b), nowCap)
    ensures var selected := Tasks(NowPicks(actions, Views(a), nowCap));
      LaterPicks(actions, Views(a), selected, laterCap) == LaterPicks(actions, Views(b), selected, laterCap)
  {
    ViewsForgetOrder(a, b);
  }

  // ---------------------------------------------------------------- the program

  /** `_title`: the task's own title, else the current ball's, else the id. */
  function TitleOf(titles: Titles, fallback: string, task: string): string {
    if task in titles && TextOf(titles[task]) != "" then TextOf(titles[task])
    else if fallback != "" then fallback
    else task
  }

  function ItemFor(o: Offer, titles: Titles, fallback: map<string, string>): Item {
    Item(o, TitleOf(titles, if o.task in fallback then fallback[o.task] else "", o.task))
  }

  function Titled(picks: seq<Offer>, titles: Titles, fallback: map<string, string>): seq<Item> {
    seq(|picks|, i requires 0 <= i < |picks| => ItemFor(picks[i], titles, fallback))
  }

  /** What the three selection loops share: the items so far and the two sets. */
  datatype Selection = Selection(items: seq<Item>, selected: set<string>, occupied: set<string>) {
    ghost predicate Shows(picks: seq<Offer>, titles: Titles, fallback: map<string, string>) {
      items == Titled(picks, titles, fallback) && selected == Tasks(picks) && occupied == Occupied(picks)
    }

    function Add(item: Item): Selection {
      Selection(items + [item], selected + {item.offer.task}, occupied + set d | d in item.offer.domains)
    }
  }

  lemma AddShows(s: Selection, picks: seq<Offer>, o: Offer, titles: Titles, fallback: map<string, string>)
    requires s.Shows(picks, titles, fallback)
    ensures s.Add(ItemFor(o, titles, fallback)).Shows(picks + [o], titles, fallback)
  {
    var more := picks + [o];
    assert Titled(more, titles, fallback) == Titled(picks, titles, fallback) + [ItemFor(o, titles, fallback)];
    forall t ensures t in Tasks(more) <==> t in Tasks(picks) || t == o.task {
      if t in Tasks(picks) { var i :| 0 <= i < |picks| && picks[i].task == t; assert more[i].task == t; }
      assert more[|picks|] == o;
    }
    forall d ensures d in Occupied(more) <==> d in Occupied(picks) || d in o.domains {
      if d in Occupied(picks) { var i :| 0 <= i < |picks| && d in picks[i].domains; assert d in more[i].domains; }
      assert more[|picks|] == o;
    }
  }

  /** The item a loop appends, from what it looks up. */
  function MakeItem(t: Tables, o: Offer, titles: Titles): Item {
    Item(o, TitleOf(titles, t.FallbackTitle(o.task), o.task))
  }

  /** Appending the looked-up item shows the pick. */
  lemma PickShows(t: Tables, s: Selection, picks: seq<Offer>, o: Offer, titles: Titles, v: Summary,
                  fallback: map<string, string>)
    requires t.Describe(v, fallback) && o.task != "" && s.Shows(picks, titles, fallback)
    ensures s.Add(MakeItem(t, o, titles)).Shows(picks + [o], titles, fallback)
  {
    assert t.FallbackTitle(o.task) == if o.task in fallback then fallback[o.task] else "";
    assert MakeItem(t, o, titles) == ItemFor(o, titles, fallback);
    AddShows(s, picks, o, titles, fallback);
  }

  lemma LookShows(t: Tables, task: string, v: Summary, fallback: map<string, string>)
    requires t.Describe(v, fallback) && task != ""
    ensures t.Look(task) == ViewIn(v, task)
  {
  }

  /** Whether an offer is taken, and that the allocator goes on with the rest. */
  lemma FillStep(cap: nat, s: Selection, picks: seq<Offer>, offers: seq<Offer>, titles: Titles,
                 fallback: map<string, string>)
    requires s.Shows(picks, titles, fallback) && offers != [] && |s.items| < cap
    ensures var o := offers[0];
      var skip := o.task in s.selected || o.domains == [] || Overlaps(o.domains, s.occupied);
      Fill(cap, picks, offers) == Fill(cap, if skip then picks else picks + [o], offers[1..])
  {
  }

  /** First phase of the selection. */
  method SelectGlobal(t: Tables, actions: seq<Ranked>, titles: Titles,
                      ghost v: Summary, ghost fallback: map<string, string>)
    returns (s: Selection, allowed: bool)
    requires t.Describe(v, fallback) && forall a :: a in actions ==> a.task != ""
    ensures s.Shows(FirstPick(actions, v), titles, fallback)
    ensures allowed == ParallelAllowed(actions, v)
  {
    s, allowed := Selection([], {}, {}), true;
    if actions != [] {
      var a := actions[0];
      var view := t.Look(a.task);
      LookShows(t, a.task, v, fallback);
      var o := Offer(a.task, if view.active then GlobalFirstActive else GlobalFirst, view.domains, LaneText(a));
      PickShows(t, s, [], o, titles, v, fallback);
      assert [] + [o] == FirstPick(actions, v);
      s, allowed := s.Add(MakeItem(t, o, titles)), view.domains != [];
    }
  }

  /** `active_candidates` in dictionary order, then sorted. */
  method FindCandidates(t: Tables, ghost v: Summary, ghost fallback: map<string, string>) returns (cs: seq<Candidate>)
    requires t.Describe(v, fallback) && "" !in t.order && forall x :: x in t.order <==> x in t.entries
    requires "" !in v
    ensures cs == ActiveCandidates(v)
  {
    var found: seq<Candidate> := [];
    for i := 0 to |t.order|
      invariant found == CandidatesAmong(v, t.order[..i])
    {
      var task := t.order[i];
      CandidatesStep(t, i, v, fallback);
      var view := t.Look(task);
      found := found + if view.active then [Candidate(view.domains, task)] else [];
    }
    assert t.order[..|t.order|] == t.order;
    cs := Sort(CandidateLess, found);
    FoundAreActive(t, v, fallback);
  }

  lemma CandidatesStep(t: Tables, i: nat, v: Summary, fallback: map<string, string>)
    requires i < |t.order| && t.Describe(v, fallback) && t.order[i] != "" && t.order[i] in t.entries
    ensures var view := t.Look(t.order[i]);
      CandidatesAmong(v, t.order[..i + 1])
      == CandidatesAmong(v, t.order[..i]) + if view.active then [Candidate(view.domains, t.order[i])] else []
  {
    assert t.order[..i + 1][..i] == t.order[..i];
    LookShows(t, t.order[i], v, fallback);
  }

  /** Dictionary order or not, sorting the candidates gives the same sequence. */
  lemma FoundAreActive(t: Tables, v: Summary, fallback: map<string, string>)
    requires t.Describe(v, fallback) && "" !in t.order && "" !in v && forall x :: x in t.order <==> x in t.entries
    ensures Sort(CandidateLess, CandidatesAmong(v, t.order)) == ActiveCandidates(v)
  {
    CandidateOrderTotal();
    forall c: Candidate
      ensures c in CandidatesAmong(v, t.order) <==> c in CandidatesAmong(v, SortedTuple(v.Keys))
    {
      if c.task != "" { LookShows(t, c.task, v, fallback); }
    }
    SortForgetsOrder(CandidateLess, CandidatesAmong(v, t.order), CandidatesAmong(v, SortedTuple(v.Keys)));
  }

  lemma CandidatesHaveTasks(v: Summary, i: nat)
    requires i < |ActiveCandidates(v)| && "" !in v
    ensures ActiveCandidates(v)[i].task != ""
  {
    assert ActiveCandidates(v)[i] in CandidatesAmong(v, SortedTuple(v.Keys));
  }

  /** Second phase of the selection: running work, up to the cap. */
  method SelectActive(t: Tables, cs: seq<Candidate>, cap: nat, allowed: bool, titles: Titles, s0: Selection,
                      ghost v: Summary, ghost fallback: map<string, string>, ghost picks0: seq<Offer>)
    returns (s: Selection)
    requires t.Describe(v, fallback) && cs == ActiveCandidates(v) && "" !in v
    requires s0.Shows(picks0, titles, fallback)
    ensures s.Shows(Fill(cap, picks0, if allowed then ActiveOffers(v) else []), titles, fallback)
  {
    ghost var offers, picks := ActiveOffers(v), picks0;
    s := s0;
    for i := 0 to |cs|
      invariant s.Shows(picks, titles, fallback)
      invariant allowed ==> Fill(cap, picks0, offers) == Fill(cap, picks, offers[i..])
      invariant !allowed ==> picks == picks0
    {
      if |s.items| >= cap {
        break;
      }
      var c := cs[i];
      CandidatesHaveTasks(v, i);
      assert offers[i..][0] == ActiveOffer(c) && offers[i..][1..] == offers[i + 1..];
      FillStep(cap, s, picks, offers[i..], titles, fallback);
      if !allowed || c.task in s.selected || c.domains == [] || Overlaps(c.domains, s.occupied) {
        continue;
      }
      PickShows(t, s, picks, ActiveOffer(c), titles, v, fallback);
      s, picks := s.Add(MakeItem(t, ActiveOffer(c), titles)), picks + [ActiveOffer(c)];
    }
  }

  /** Third phase of the selection: claimable actions in rank order, up to the cap. */
  method SelectClaimable(t: Tables, actions: seq<Ranked>, cap: nat, allowed: bool, titles: Titles, s0: Selection,
                         ghost v: Summary, ghost fallback: map<string, string>, ghost picks0: seq<Offer>)
    returns (s: Selection)
    requires t.Describe(v, fallback) && s0.Shows(picks0, titles, fallback)
    requires forall a :: a in actions ==> a.task != ""
    ensures s.Shows(Fill(cap, picks0, if allowed then ClaimableOffers(actions, v) else []), titles, fallback)
  {
    ghost var picks := picks0;
    s := s0;
    for i := 0 to |actions|
      invariant s.Shows(picks, titles, fallback)
      invariant allowed ==>
        Fill(cap, picks0, ClaimableOffers(actions, v)) == Fill(cap, picks, ClaimableOffers(actions[i..], v))
      invariant !allowed ==> picks == picks0
    {
      if |s.items| >= cap {
        break;
      }
      var a := actions[i];
      assert actions[i..][0] == a && actions[i..][1..] == actions[i + 1..];
      if Claimable(v, a) {
        FillStep(cap, s, picks, ClaimableOffers(actions[i..], v), titles, fallback);
      }
      if !allowed || a.task in s.selected || a.lane != "now" {
        continue;
      }
      var view := t.Look(a.task);
      LookShows(t, a.task, v, fallback);
      if !view.current || !view.claimable {
        continue;
      }
      if view.domains == [] || Overlaps(view.domains, s.occupied) {
        continue;
      }
      var o := Offer(a.task, ParallelClaimable, view.domains, "");
      PickShows(t, s, picks, o, titles, v, fallback);
      s, picks := s.Add(MakeItem(t, o, titles)), picks + [o];
    }
  }

  /** The Later list. */
  method SelectLater(t: Tables, actions: seq<Ranked>, cap: nat, selected: set<string>, titles: Titles,
                     ghost v: Summary, ghost fallback: map<string, string>)
    returns (later: seq<Item>)
    requires t.Describe(v, fallback) && forall a :: a in actions ==> a.task != ""
    ensures later == Titled(LaterPicks(actions, v, selected, cap), titles, fallback)
  {
    later := [];
    ghost var picks: seq<Offer> := [];
    for i := 0 to |actions|
      invariant later == Titled(picks, titles, fallback) && |picks| <= cap
      invariant LaterPicks(actions, v, selected, cap) == picks + LaterPicks(actions[i..], v, selected, cap - |picks|)
    {
      if |later| >= cap {
        break;
      }
      var a := actions[i];
      assert actions[i..][0] == a && actions[i..][1..] == actions[i + 1..];
      if a.task in selected || a.lane == "now" {
        continue;
      }
      LookShows(t, a.task, v, fallback);
      var o := Offer(a.task, AfterCorridor, t.Look(a.task).domains, LaneText(a));
      LaterStep(actions, i, v, selected, cap - |picks|, picks);
      TitledStep(t, picks, o, titles, v, fallback);
      later, picks := later + [MakeItem(t, o, titles)], picks + [o];
    }
  }

  lemma TitledStep(t: Tables, picks: seq<Offer>, o: Offer, titles: Titles, v: Summary, fallback: map<string, string>)
    requires t.Describe(v, fallback) && o.task != ""
    ensures Titled(picks + [o], titles, fallback) == Titled(picks, titles, fallback) + [MakeItem(t, o, titles)]
  {
    assert t.FallbackTitle(o.task) == if o.task in fallback then fallback[o.task] else "";
  }

  lemma LaterStep(actions: seq<Ranked>, i: nat, v: Summary, selected: set<string>, cap: nat, picks: seq<Offer>)
    requires i < |actions| && cap > 0 && actions[i].task !in selected && actions[i].lane != "now"
    ensures picks + LaterPicks(actions[i..], v, selected, cap)
      == (picks + [LaterOffer(actions[i], v)]) + LaterPicks(actions[i + 1..], v, selected, cap - 1)
  {
    assert actions[i..][0] == actions[i] && actions[i..][1..] == actions[i + 1..];
    var o, rest := LaterOffer(actions[i], v), LaterPicks(actions[i + 1..], v, selected, cap - 1);
    assert picks + ([o] + rest) == (picks + [o]) + rest;
  }

  datatype Built = Corridor(now: seq<Item>, later: seq<Item>) | InvalidLimits

  lemma {:induction false} FillInTwoParts(cap: nat, picked: seq<Offer>, a: seq<Offer>, b: seq<Offer>)
    ensures Fill(cap, picked, a + b) == Fill(cap, Fill(cap, picked, a), b)
    decreases a
  {
    if a == [] {
      assert a + b == b;
    } else if |picked| < cap {
      assert (a + b)[0] == a[0] && (a + b)[1..] == a[1..] + b;
      FillInTwoParts(cap, Take(picked, a[0]), a[1..], b);
    }
  }

  /** The two lists for given actions and balls. */
  function CorridorOf(actions: seq<Ranked>, balls: Balls, titles: Titles, maxNow: nat, maxLater: nat): Built {
    var now := NowPicks(actions, Views(balls), maxNow);
    Corridor(Titled(now, titles, BallTitles(balls)),
             Titled(LaterPicks(actions, Views(balls), Tasks(now), maxLater), titles, BallTitles(balls)))
  }

  /** `build_decision_axis_queue_items` */
  method Build(projection: Option<Projection>, titles: Titles, maxNow: int, maxLater: int) returns (r: Built)
    ensures projection.None? ==> r == Corridor([], [])
    ensures projection.Some? && (maxNow < 1 || maxLater < 0) ==> r.InvalidLimits?
    ensures projection.Some? && maxNow >= 1 && maxLater >= 0 ==>
      r == CorridorOf(RankedActions(projection.value), RepositoryBalls(projection.value), titles, maxNow, maxLater)
  {
    if projection.None? {
      return Corridor([], []);
    }
    if maxNow < 1 || maxLater < 0 {
      return InvalidLimits;
    }
    var actions, balls := RankedActions(projection.value), RepositoryBalls(projection.value);
    var t := BuildTables(balls);
    ghost var v, fallback := Views(balls), BallTitles(balls);
    var s, allowed := SelectGlobal(t, actions, titles, v, fallback);
    ghost var first := FirstPick(actions, v);
    var cs := FindCandidates(t, v, fallback);
    s := SelectActive(t, cs, maxNow, allowed, titles, s, v, fallback, first);
    ghost var picks := Fill(maxNow, first, if allowed then ActiveOffers(v) else []);
    s := SelectClaimable(t, actions, maxNow, allowed, titles, s, v, fallback, picks);
    FillInTwoParts(maxNow, first, ActiveOffers(v), ClaimableOffers(actions, v));
    var later := SelectLater(t, actions, maxLater, s.selected, titles, v, fallback);
    return Corridor(s.items, later);
  }
}
