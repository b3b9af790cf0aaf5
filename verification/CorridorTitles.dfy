/** The one thing about the corridor that depends on the order of the balls: the title an
    item falls back on (scripts/decision_axis_selection.py, `_current_balls`, `_title`). */
module CorridorTitles {
  import opened Common
  import opened BureauProjection
  import opened NowCorridor

  // ---------------------------------------------------------------- the fallback title

  /** The title a ball offers for the id, or nothing. */
  function TitleFrom(b: Ball, task: string): string {
    if IsCurrent(b, task) then TextOf(b.current.value.title) else ""
  }

  /** All titles that balls at the id offer are the same. */
  ghost predicate OneTitle(balls: Balls, task: string) {
    forall x, y :: x in balls && y in balls && TitleFrom(x.1, task) != "" && TitleFrom(y.1, task) != "" ==>
      TitleFrom(x.1, task) == TitleFrom(y.1, task)
  }

  ghost predicate Offered(balls: Balls, task: string, title: string) {
    title != "" && exists x :: x in balls && TitleFrom(x.1, task) == title
  }

  /** Of two different titles, one is not the fallback title. */
  lemma AnotherTitle(balls: Balls, task: string) returns (x: Entry)
    requires !OneTitle(balls, task)
    ensures x in balls && TitleFrom(x.1, task) != "" && TitleFrom(x.1, task) != BallTitle(balls, task)
  {
    var y, z :| y in balls && z in balls && TitleFrom(y.1, task) != "" && TitleFrom(z.1, task) != ""
      && TitleFrom(y.1, task) != TitleFrom(z.1, task);
    x := if TitleFrom(y.1, task) != BallTitle(balls, task) then y else z;
  }

  /** The fallback title is one that is offered, if any is. */
  lemma {:induction false} TitleIsOffered(balls: Balls, task: string)
    ensures BallTitle(balls, task) != "" ==> Offered(balls, task, BallTitle(balls, task))
    ensures (exists title :: Offered(balls, task, title)) ==> BallTitle(balls, task) != ""
  {
    if balls != [] {
      var init, last := balls[..|balls| - 1], balls[|balls| - 1];
      TitleIsOffered(init, task);
      assert balls == init + [last];
      assert forall x :: x in balls <==> x in init || x == last;
      if title :| Offered(balls, task, title) {
        if TitleFrom(last.1, task) == "" { assert Offered(init, task, title); }
      }
    }
  }

  lemma OfferedTravels(a: Balls, b: Balls, task: string, title: string)
    requires SameBalls(a, b) && Offered(a, task, title)
    ensures Offered(b, task, title)
  {
    var x :| x in a && TitleFrom(x.1, task) == title;
    assert Has(b, x);
    var y :| y in b && Alike(y, x);
    assert TitleFrom(y.1, task) == title;
  }

  lemma OneTitleForgetsOrder(a: Balls, b: Balls, task: string)
    requires SameBalls(a, b) && OneTitle(a, task)
    ensures BallTitle(a, task) == BallTitle(b, task)
  {
    TitleIsOffered(a, task);
    TitleIsOffered(b, task);
    if BallTitle(b, task) != "" { OfferedTravels(b, a, task, BallTitle(b, task)); }
    if BallTitle(a, task) != "" { OfferedTravels(a, b, task, BallTitle(a, task)); }
  }

  lemma {:induction false} FirstTitleWins(x: Entry, rest: Balls, task: string)
    requires TitleFrom(x.1, task) != ""
    ensures BallTitle([x] + rest, task) == TitleFrom(x.1, task)
    decreases |rest|
  {
    var balls := [x] + rest;
    if rest == [] {
      assert balls[..0] == [] && balls[0] == x;
    } else {
      assert balls[..|balls| - 1] == [x] + rest[..|rest| - 1];
      FirstTitleWins(x, rest[..|rest| - 1], task);
    }
  }

  /** The same balls, in another order. */
  ghost predicate Reordered(a: Balls, b: Balls) {
    multiset(a) == multiset(b)
  }

  lemma ReorderedIsSame(a: Balls, b: Balls)
    requires Reordered(a, b)
    ensures SameBalls(a, b)
  {
    forall x ensures x in a <==> x in b {
      assert x in a <==> x in multiset(a);
      assert x in b <==> x in multiset(b);
    }
    forall x | x in a ensures Has(b, x) { assert Alike(x, x); }
    forall x | x in b ensures Has(a, x) { assert Alike(x, x); }
  }

  lemma FrontIsReordered(balls: Balls, i: nat)
    requires i < |balls|
    ensures Reordered(balls, [balls[i]] + (balls[..i] + balls[i + 1..]))
  {
    assert balls == balls[..i] + [balls[i]] + balls[i + 1..];
  }

  /** With two different titles on offer, the balls have an order with another outcome. */
  lemma OtherOrder(balls: Balls, task: string) returns (b: Balls)
    requires !OneTitle(balls, task)
    ensures Reordered(balls, b) && BallTitle(balls, task) != "" && BallTitle(b, task) != ""
    ensures BallTitle(b, task) != BallTitle(balls, task)
  {
    var first := AnotherTitle(balls, task);
    var i :| 0 <= i < |balls| && balls[i] == first;
    b := [first] + (balls[..i] + balls[i + 1..]);
    FrontIsReordered(balls, i);
    FirstTitleWins(first, balls[..i] + balls[i + 1..], task);
    TitleIsOffered(balls, task);
    assert Offered(balls, task, TitleFrom(first.1, task));
  }

  /** The fallback title is the same for every order of the balls exactly if no two
      different titles are on offer. */
  lemma TitleForgetsOrder(balls: Balls, task: string)
    ensures OneTitle(balls, task) <==>
      forall b :: Reordered(balls, b) ==> BallTitle(b, task) == BallTitle(balls, task)
  {
    if OneTitle(balls, task) {
      forall b | Reordered(balls, b) ensures BallTitle(b, task) == BallTitle(balls, task) {
        ReorderedIsSame(balls, b);
        OneTitleForgetsOrder(balls, b, task);
      }
    } else {
      var b := OtherOrder(balls, task);
    }
  }

  // ---------------------------------------------------------------- the items

  /** The id has a title of its own, or no two different ones to fall back on. */
  ghost predicate TitleFixed(titles: Titles, balls: Balls, task: string) {
    (task in titles && TextOf(titles[task]) != "") || OneTitle(balls, task)
  }

  lemma {:induction false} ClaimableHaveTasks(actions: seq<Ranked>, v: Summary, o: Offer)
    requires o in ClaimableOffers(actions, v) && forall a :: a in actions ==> a.task != ""
    ensures o.task != ""
  {
    if o in ClaimableOffers(actions[1..], v) {
      assert forall a :: a in actions[1..] ==> a in actions;
      ClaimableHaveTasks(actions[1..], v, o);
    } else {
      assert actions[0] in actions;
    }
  }

  lemma RunningHasTask(v: Summary, o: Offer)
    requires "" !in v && o in ActiveOffers(v)
    ensures o.task != ""
  {
    var i :| 0 <= i < |ActiveOffers(v)| && ActiveOffers(v)[i] == o;
    CandidatesHaveTasks(v, i);
  }

  lemma NowHasTasks(actions: seq<Ranked>, balls: Balls, cap: nat, o: Offer)
    requires o in NowPicks(actions, Views(balls), cap) && forall a :: a in actions ==> a.task != ""
    ensures o.task != ""
  {
    var v := Views(balls);
    assert "" !in v;
    FillTakesFrom(cap, FirstPick(actions, v), ParallelOffers(actions, v), o);
    if o in ActiveOffers(v) {
      RunningHasTask(v, o);
    } else if o in ClaimableOffers(actions, v) {
      ClaimableHaveTasks(actions, v, o);
    }
  }

  lemma {:induction false} LaterHasTasks(actions: seq<Ranked>, v: Summary, selected: set<string>, cap: nat, o: Offer)
    requires o in LaterPicks(actions, v, selected, cap) && forall a :: a in actions ==> a.task != ""
    ensures o.task != ""
    decreases actions
  {
    assert forall a :: a in actions[1..] ==> a in actions;
    if actions[0].task in selected || actions[0].lane == "now" {
      LaterHasTasks(actions[1..], v, selected, cap, o);
    } else if o != LaterOffer(actions[0], v) {
      LaterHasTasks(actions[1..], v, selected, cap - 1, o);
    }
  }

  function TitleNow(titles: Titles, balls: Balls, task: string): string {
    TitleOf(titles, if task in BallTitles(balls) then BallTitles(balls)[task] else "", task)
  }

  lemma TitleNowIs(titles: Titles, balls: Balls, task: string)
    requires task != ""
    ensures TitleNow(titles, balls, task) == TitleOf(titles, BallTitle(balls, task), task)
  {
    if task !in Mentioned(balls) { UnmentionedIsNothing(balls, task); }
  }

  /** Every item of the list has a title that no order of the balls changes. */
  ghost predicate AllFixed(titles: Titles, balls: Balls, picks: seq<Offer>) {
    forall i :: 0 <= i < |picks| ==> TitleFixed(titles, balls, picks[i].task)
  }

  lemma FixedTitlesStay(titles: Titles, a: Balls, b: Balls, picks: seq<Offer>)
    requires SameBalls(a, b) && AllFixed(titles, a, picks) && forall o :: o in picks ==> o.task != ""
    ensures Titled(picks, titles, BallTitles(a)) == Titled(picks, titles, BallTitles(b))
  {
    forall i | 0 <= i < |picks|
      ensures Titled(picks, titles, BallTitles(a))[i] == Titled(picks, titles, BallTitles(b))[i]
    {
      var task := picks[i].task;
      assert picks[i] in picks && TitleFixed(titles, a, task);
      TitleNowIs(titles, a, task);
      TitleNowIs(titles, b, task);
      if OneTitle(a, task) { OneTitleForgetsOrder(a, b, task); }
    }
  }

  /** An item whose title is not fixed gets another one in another order. */
  lemma LooseTitleChanges(titles: Titles, balls: Balls, picks: seq<Offer>, i: nat) returns (b: Balls)
    requires i < |picks| && picks[i].task != "" && !TitleFixed(titles, balls, picks[i].task)
    ensures Reordered(balls, b)
    ensures Titled(picks, titles, BallTitles(balls)) != Titled(picks, titles, BallTitles(b))
  {
    var task := picks[i].task;
    b := OtherOrder(balls, task);
    TitleNowIs(titles, balls, task);
    TitleNowIs(titles, b, task);
    assert Titled(picks, titles, BallTitles(balls))[i].title == TitleNow(titles, balls, task);
    assert Titled(picks, titles, BallTitles(b))[i].title == TitleNow(titles, b, task);
  }

  function NowOf(actions: seq<Ranked>, balls: Balls, maxNow: nat): seq<Offer> {
    NowPicks(actions, Views(balls), maxNow)
  }

  function LaterOf(actions: seq<Ranked>, balls: Balls, maxNow: nat, maxLater: nat): seq<Offer> {
    LaterPicks(actions, Views(balls), Tasks(NowOf(actions, balls, maxNow)), maxLater)
  }

  lemma PicksHaveTasks(actions: seq<Ranked>, balls: Balls, maxNow: nat, maxLater: nat)
    requires forall a :: a in actions ==> a.task != ""
    ensures forall o :: o in NowOf(actions, balls, maxNow) ==> o.task != ""
    ensures forall o :: o in LaterOf(actions, balls, maxNow, maxLater) ==> o.task != ""
  {
    forall o | o in NowOf(actions, balls, maxNow) ensures o.task != "" {
      NowHasTasks(actions, balls, maxNow, o);
    }
    forall o | o in LaterOf(actions, balls, maxNow, maxLater) ensures o.task != "" {
      LaterHasTasks(actions, Views(balls), Tasks(NowOf(actions, balls, maxNow)), maxLater, o);
    }
  }

  lemma SamePicks(actions: seq<Ranked>, a: Balls, b: Balls, titles: Titles, maxNow: nat, maxLater: nat)
    requires SameBalls(a, b)
    ensures CorridorOf(actions, b, titles, maxNow, maxLater)
      == Corridor(Titled(NowOf(actions, a, maxNow), titles, BallTitles(b)),
                  Titled(LaterOf(actions, a, maxNow, maxLater), titles, BallTitles(b)))
  {
    SelectionForgetsOrder(actions, a, b, maxNow, maxLater);
  }

  ghost predicate OrderFree(actions: seq<Ranked>, balls: Balls, titles: Titles, maxNow: nat, maxLater: nat) {
    forall b :: Reordered(balls, b) ==>
      CorridorOf(actions, b, titles, maxNow, maxLater) == CorridorOf(actions, balls, titles, maxNow, maxLater)
  }

  /** Everything `Build` returns, titles included, is the same for every order of the balls
      exactly if every item has its own title or no two different ones to fall back on. */
  lemma CorridorForgetsOrder(actions: seq<Ranked>, balls: Balls, titles: Titles, maxNow: nat, maxLater: nat)
    requires forall a :: a in actions ==> a.task != ""
    ensures OrderFree(actions, balls, titles, maxNow, maxLater) <==>
      && AllFixed(titles, balls, NowOf(actions, balls, maxNow))
      && AllFixed(titles, balls, LaterOf(actions, balls, maxNow, maxLater))
  {
    PicksHaveTasks(actions, balls, maxNow, maxLater);
    if AllFixed(titles, balls, NowOf(actions, balls, maxNow))
       && AllFixed(titles, balls, LaterOf(actions, balls, maxNow, maxLater)) {
      forall b | Reordered(balls, b)
        ensures CorridorOf(actions, b, titles, maxNow, maxLater) == CorridorOf(actions, balls, titles, maxNow, maxLater)
      {
        ReorderedIsSame(balls, b);
        SamePicks(actions, balls, b, titles, maxNow, maxLater);
        FixedTitlesStay(titles, balls, b, NowOf(actions, balls, maxNow));
        FixedTitlesStay(titles, balls, b, LaterOf(actions, balls, maxNow, maxLater));
      }
    } else {
      var b := LooseCorridorChanges(actions, balls, titles, maxNow, maxLater);
    }
  }

  lemma LooseCorridorChanges(actions: seq<Ranked>, balls: Balls, titles: Titles, maxNow: nat, maxLater: nat)
    returns (b: Balls)
    requires forall a :: a in actions ==> a.task != ""
    requires !(AllFixed(titles, balls, NowOf(actions, balls, maxNow))
               && AllFixed(titles, balls, LaterOf(actions, balls, maxNow, maxLater)))
    ensures Reordered(balls, b)
    ensures CorridorOf(actions, b, titles, maxNow, maxLater) != CorridorOf(actions, balls, titles, maxNow, maxLater)
  {
    PicksHaveTasks(actions, balls, maxNow, maxLater);
    var loose := if AllFixed(titles, balls, NowOf(actions, balls, maxNow))
                 then LaterOf(actions, balls, maxNow, maxLater) else NowOf(actions, balls, maxNow);
    b := LooseListChanges(titles, balls, loose);
    ReorderedIsSame(balls, b);
    SamePicks(actions, balls, b, titles, maxNow, maxLater);
  }

  lemma LooseListChanges(titles: Titles, balls: Balls, picks: seq<Offer>) returns (b: Balls)
    requires !AllFixed(titles, balls, picks) && forall o :: o in picks ==> o.task != ""
    ensures Reordered(balls, b)
    ensures Titled(picks, titles, BallTitles(balls)) != Titled(picks, titles, BallTitles(b))
  {
    var i :| 0 <= i < |picks| && !TitleFixed(titles, balls, picks[i].task);
    assert picks[i] in picks;
    b := LooseTitleChanges(titles, balls, picks, i);
  }

  // ---------------------------------------------------------------- an instance

  function BallAtT(title: string): Ball {
    Ball(NotText, Some(CurrentBall(Text("T"), NotText, NotText, Text(title))), None)
  }

  lemma TextStays(s: string)
    requires s != "" && !IsSpace(s[0]) && !IsSpace(s[|s| - 1])
    ensures TextOf(Text(s)) == s
  {
  }

  lemma BallOffers(title: string)
    requires title != "" && !IsSpace(title[0]) && !IsSpace(title[|title| - 1])
    ensures TitleFrom(BallAtT(title), "T") == title
  {
    TextStays("T");
    TextStays(title);
  }

  lemma TwoTitles(balls: Balls)
    requires balls == [("x", BallAtT("first")), ("y", BallAtT("second"))]
    ensures !OneTitle(balls, "T")
  {
    BallOffers("first");
    BallOffers("second");
    assert "first"[0] != "second"[0];
    assert balls[0] in balls && balls[1] in balls;
  }

  lemma TopActionIsFirst(actions: seq<Ranked>, balls: Balls, maxNow: nat)
    requires actions != []
    ensures var now := NowOf(actions, balls, maxNow); |now| > 0 && now[0].task == actions[0].task
  {
    assert FirstPick(actions, Views(balls)) <= NowOf(actions, balls, maxNow);
  }

  /** Two balls at `T` with different titles, and `T` as the only ranked action: what `Build`
      returns depends on their order. */
  lemma TitleRemembersOrder(balls: Balls, actions: seq<Ranked>)
    requires balls == [("x", BallAtT("first")), ("y", BallAtT("second"))] && actions == [Ranked("T", "now")]
    ensures !OrderFree(actions, balls, map[], 1, 0)
  {
    TwoTitles(balls);
    TopActionIsFirst(actions, balls, 1);
    CorridorForgetsOrder(actions, balls, map[], 1, 0);
  }
}
