/** The resident's screens of the web client: the pass-creation form with
    its weekday picker, the split of the resident's passes into lists, and
    the memory game of twenty stages. The shuffle of the game is a
    parameter: any rearrangement of the deck. */
module ResidentDashboard {
  import opened Common
  import opened Types
  import M = MockService

  // ---------------------------------------------------------------------
  // The memory game

  const MaxStage := 20

  /** The number of icons the game draws from. */
  const IconCount := 24

  /** Stage `s` has four tiles at the first stage and two more each stage
      after. */
  function TileCount(stage: nat): (t: nat)
    requires stage >= 1
    ensures t % 2 == 0 && t >= 4
    ensures t == 2 * (stage + 1)
  {
    4 + (stage - 1) * 2
  }

  function PairCount(stage: nat): (p: nat)
    requires stage >= 1
    ensures 2 * p == TileCount(stage)
  {
    TileCount(stage) / 2
  }

  /** `Math.floor(tiles * 2 - tiles / 2)`, where `tiles / 2` is a real
      division: the real number is `(4 * tiles - tiles) / 2`, and for a
      count of tiles its floor is the integer quotient. */
  function AllowedMoves(tiles: nat): int {
    (4 * tiles - tiles) / 2
  }

  /** The move budget is three moves per pair: one and a half for each
      tile. */
  lemma AllowedMovesArePerPair(stage: nat)
    requires stage >= 1
    ensures AllowedMoves(TileCount(stage)) == 3 * PairCount(stage)
  {
    var k := PairCount(stage);
    assert 4 * TileCount(stage) - TileCount(stage) == 2 * (3 * k);
  }

  /** The icon numbers `0 .. n-1`, in order. */
  function Range(n: nat): (r: seq<nat>)
    ensures |r| == n
  {
    if n == 0 then [] else Range(n - 1) + [n - 1]
  }

  function Min(a: nat, b: nat): nat {
    if a < b then a else b
  }

  /** The icons of a game of `pairs` pairs: the first ones of the list,
      topped up from its start again if the list is too short. */
  function IconsToUse(pairs: nat): (r: seq<nat>)
    ensures |r| == Min(pairs, 2 * IconCount)
    ensures pairs <= IconCount ==> r == Range(pairs)
  {
    var selected := Range(Min(pairs, IconCount));
    if |selected| < pairs then selected + Range(Min(pairs - |selected|, IconCount)) else selected
  }

  /** Every icon to use, twice, before the shuffle. */
  function Deck(pairs: nat): seq<nat> {
    IconsToUse(pairs) + IconsToUse(pairs)
  }

  lemma {:induction false} RangeCounts(n: nat, i: nat)
    ensures multiset(Range(n))[i] == if i < n then 1 else 0
  {
    if n > 0 {
      RangeCounts(n - 1, i);
      assert multiset(Range(n)) == multiset(Range(n - 1)) + multiset([n - 1]);
    }
  }

  /** Up to the last stage there are enough icons: no icon is used twice
      over, and the deck holds each of the first `pairs` icons exactly
      twice. */
  lemma DeckHasEachIconTwice(stage: nat, i: nat)
    requires 1 <= stage <= MaxStage
    ensures PairCount(stage) <= 21 < IconCount
    ensures IconsToUse(PairCount(stage)) == Range(PairCount(stage))
    ensures |Deck(PairCount(stage))| == TileCount(stage)
    ensures multiset(Deck(PairCount(stage)))[i] == if i < PairCount(stage) then 2 else 0
  {
    RangeCounts(PairCount(stage), i);
  }

  /** `order` is a shuffle of the deck of `stage`. */
  predicate Shuffled(stage: nat, order: seq<nat>)
    requires stage >= 1
  {
    multiset(order) == multiset(Deck(PairCount(stage)))
  }

  /** A shuffled deck has as many cards as the stage has tiles. */
  lemma DeckSize(stage: nat, order: seq<nat>)
    requires 1 <= stage <= MaxStage
    requires Shuffled(stage, order)
    ensures |order| == TileCount(stage)
  {
    assert |multiset(order)| == |order|;
    assert |multiset(Deck(PairCount(stage)))| == |Deck(PairCount(stage))|;
  }

  datatype Card = Card(id: nat, iconId: nat, isFlipped: bool, isMatched: bool)

  /** The game's state; `faceUp` lists the cards turned over and not yet
      resolved. */
  datatype Game = Game(stage: nat, cards: seq<Card>, faceUp: seq<nat>, moves: nat, allowedMoves: int, won: bool)

  predicate Matched(c: Card) {
    c.isMatched
  }

  /** What every reachable game satisfies: at most two cards face up and
      unresolved, and exactly those; matched cards stay turned over; every
      click counted, so at least one move per matched or face-up card. */
  predicate WellFormed(g: Game) {
    |g.faceUp| <= 2
    && (forall k :: 0 <= k < |g.faceUp| ==> g.faceUp[k] < |g.cards|)
    && (|g.faceUp| == 2 ==> g.faceUp[0] != g.faceUp[1])
    && (forall i :: 0 <= i < |g.cards| ==> (g.cards[i].isFlipped && !g.cards[i].isMatched <==> i in g.faceUp))
    && (forall i :: 0 <= i < |g.cards| && g.cards[i].isMatched ==> g.cards[i].isFlipped)
    && g.moves >= Count(g.cards, Matched) + |g.faceUp|
  }

  /** `initializeGame`: the deck in the shuffled `order`, every card face
      down, no moves made, not won, and the stage's move budget. */
  function InitializeGame(stage: nat, order: seq<nat>): (g: Game)
    requires stage >= 1
    requires Shuffled(stage, order)
    ensures g.stage == stage && g.moves == 0 && g.faceUp == [] && !g.won
    ensures g.allowedMoves == AllowedMoves(TileCount(stage))
    ensures g.cards == Cards(order) && |g.cards| == |order|
    ensures WellFormed(g)
  {
    var cards := Cards(order);
    CountZero(cards, Matched);
    Game(stage, cards, [], 0, AllowedMoves(TileCount(stage)), false)
  }

  function Cards(order: seq<nat>): (cards: seq<Card>)
    ensures |cards| == |order| && forall k :: 0 <= k < |order| ==> cards[k] == Card(k, order[k], false, false)
  {
    if order == [] then [] else Cards(order[..|order| - 1]) + [Card(|order| - 1, order[|order| - 1], false, false)]
  }

  /** A click is ignored while two cards are face up, and on a card that is
      already turned over or matched. */
  predicate Ignored(g: Game, index: nat)
    requires index < |g.cards|
  {
    |g.faceUp| == 2 || g.cards[index].isFlipped || g.cards[index].isMatched
  }

  /** `handleCardClick`: a click that is not ignored costs one move and
      turns the card over. */
  function Click(g: Game, index: nat): (r: Game)
    requires index < |g.cards|
    ensures Ignored(g, index) ==> r == g
    ensures !Ignored(g, index) ==>
              r == g.(moves := g.moves + 1, faceUp := g.faceUp + [index],
                      cards := g.cards[index := g.cards[index].(isFlipped := true)])
  {
    if Ignored(g, index) then g
    else g.(moves := g.moves + 1, faceUp := g.faceUp + [index],
            cards := g.cards[index := g.cards[index].(isFlipped := true)])
  }

  lemma ClickKeepsWellFormed(g: Game, index: nat)
    requires WellFormed(g) && index < |g.cards|
    ensures WellFormed(Click(g, index))
  {
    if !Ignored(g, index) {
      var r := Click(g, index);
      CountUpdate(g.cards, Matched, index, g.cards[index].(isFlipped := true));
      forall i | 0 <= i < |r.cards|
        ensures r.cards[i].isFlipped && !r.cards[i].isMatched <==> i in r.faceUp
      {
        assert i in r.faceUp <==> i in g.faceUp || i == index;
      }
    }
  }

  predicate AllMatched(cards: seq<Card>) {
    forall i :: 0 <= i < |cards| ==> cards[i].isMatched
  }

  /** `checkForMatch`, once its delay is over: two cards with the same
      icon are matched, and the game is won when every card is; two
      different cards are turned back. Either way none is face up
      afterwards, and no move is counted. */
  function Resolve(g: Game): (r: Game)
    requires |g.faceUp| == 2 && g.faceUp[0] < |g.cards| && g.faceUp[1] < |g.cards|
    ensures r.faceUp == [] && r.moves == g.moves && r.stage == g.stage && r.allowedMoves == g.allowedMoves
    ensures |r.cards| == |g.cards|
    ensures var a := g.faceUp[0]; var b := g.faceUp[1];
            if g.cards[a].iconId == g.cards[b].iconId then
              r.cards == g.cards[a := g.cards[a].(isMatched := true)][b := g.cards[b].(isMatched := true)]
              && r.won == (g.won || AllMatched(r.cards))
            else
              r.cards == g.cards[a := g.cards[a].(isFlipped := false)][b := g.cards[b].(isFlipped := false)]
              && r.won == g.won
  {
    var a := g.faceUp[0];
    var b := g.faceUp[1];
    if g.cards[a].iconId == g.cards[b].iconId then
      var cards := g.cards[a := g.cards[a].(isMatched := true)][b := g.cards[b].(isMatched := true)];
      g.(cards := cards, faceUp := [], won := g.won || AllMatched(cards))
    else
      var cards := g.cards[a := g.cards[a].(isFlipped := false)][b := g.cards[b].(isFlipped := false)];
      g.(cards := cards, faceUp := [])
  }

  lemma ResolveKeepsWellFormed(g: Game)
    requires WellFormed(g) && |g.faceUp| == 2
    ensures WellFormed(Resolve(g))
  {
    if g.cards[g.faceUp[0]].iconId == g.cards[g.faceUp[1]].iconId {
      MatchKeepsWellFormed(g, Resolve(g));
    } else {
      MissKeepsWellFormed(g, Resolve(g));
    }
  }

  lemma MatchKeepsWellFormed(g: Game, r: Game)
    requires WellFormed(g) && |g.faceUp| == 2
    requires r.faceUp == [] && r.moves == g.moves
    requires r.cards == g.cards[g.faceUp[0] := g.cards[g.faceUp[0]].(isMatched := true)]
                               [g.faceUp[1] := g.cards[g.faceUp[1]].(isMatched := true)]
    ensures WellFormed(r)
  {
    var a := g.faceUp[0];
    var b := g.faceUp[1];
    var c1 := g.cards[a := g.cards[a].(isMatched := true)];
    CountUpdate(g.cards, Matched, a, g.cards[a].(isMatched := true));
    CountUpdate(c1, Matched, b, g.cards[b].(isMatched := true));
  }

  lemma MissKeepsWellFormed(g: Game, r: Game)
    requires WellFormed(g) && |g.faceUp| == 2
    requires r.faceUp == [] && r.moves == g.moves
    requires r.cards == g.cards[g.faceUp[0] := g.cards[g.faceUp[0]].(isFlipped := false)]
                               [g.faceUp[1] := g.cards[g.faceUp[1]].(isFlipped := false)]
    ensures WellFormed(r)
  {
    var a := g.faceUp[0];
    var b := g.faceUp[1];
    var c1 := g.cards[a := g.cards[a].(isFlipped := false)];
    CountUpdate(g.cards, Matched, a, g.cards[a].(isFlipped := false));
    CountUpdate(c1, Matched, b, g.cards[b].(isFlipped := false));
  }

  /** Every card is clicked at least once, so a won game took at least as
      many moves as there are cards, and a game played without a single
      miss is never a failed level. */
  lemma WinningTakesOneMovePerCard(g: Game)
    requires WellFormed(g) && AllMatched(g.cards)
    ensures g.moves >= |g.cards|
  {
    CountAll(g.cards, Matched);
  }

  /** Once every card is matched, every click is ignored. */
  lemma WonGameIgnoresClicks(g: Game, index: nat)
    requires index < |g.cards| && AllMatched(g.cards)
    ensures Click(g, index) == g
  {
    assert g.cards[index].isMatched;
  }

  /** The level is failed when it is won with more moves than allowed. */
  predicate LevelFailed(g: Game) {
    g.won && g.moves > g.allowedMoves
  }

  /** A stage won in one move per card, which is the fewest possible, is
      never failed. */
  lemma PerfectGameDoesNotFail(g: Game)
    requires 1 <= g.stage && WellFormed(g) && g.allowedMoves == AllowedMoves(TileCount(g.stage))
    requires |g.cards| == TileCount(g.stage) && g.moves == |g.cards|
    ensures !LevelFailed(g)
  {
    AllowedMovesArePerPair(g.stage);
  }

  /** `handleNextStage`: the next stage, freshly dealt, while there is
      one; at the last stage nothing happens. */
  function NextStage(g: Game, order: seq<nat>): (r: Game)
    requires 1 <= g.stage
    requires g.stage < MaxStage ==> Shuffled(g.stage + 1, order)
    ensures g.stage < MaxStage ==>
              r.stage == g.stage + 1 && r.moves == 0 && r.faceUp == [] && !r.won && WellFormed(r)
              && r.allowedMoves == AllowedMoves(TileCount(r.stage)) && |r.cards| == TileCount(r.stage)
    ensures g.stage >= MaxStage ==> r == g
  {
    if g.stage < MaxStage then
      DeckSize(g.stage + 1, order);
      InitializeGame(g.stage + 1, order)
    else g
  }

  /** `handleRestartGame` deals the same stage again. */
  function Restart(g: Game, order: seq<nat>): (r: Game)
    requires 1 <= g.stage <= MaxStage
    requires Shuffled(g.stage, order)
    ensures r.stage == g.stage && r.moves == 0 && r.faceUp == [] && !r.won && WellFormed(r)
    ensures |r.cards| == TileCount(g.stage) && r.allowedMoves == AllowedMoves(TileCount(g.stage))
  {
    DeckSize(g.stage, order);
    InitializeGame(g.stage, order)
  }

  /** `handleResetToLevel1` deals the first stage: four cards, six moves. */
  function ResetToLevelOne(order: seq<nat>): (r: Game)
    requires Shuffled(1, order)
    ensures r.stage == 1 && |r.cards| == 4 && r.allowedMoves == 6
    ensures r.moves == 0 && r.faceUp == [] && !r.won && WellFormed(r)
  {
    AllowedMovesArePerPair(1);
    DeckSize(1, order);
    InitializeGame(1, order)
  }

  // ---------------------------------------------------------------------
  // The pass-creation form

  const Days: seq<string> := ["Mon", "Tue", "Wed", "Thu", "Fri", "Sat", "Sun"]

  /** The form starts on a recurring schedule of the working week, eight
      in the morning to six in the evening. */
  const DefaultDays: seq<string> := ["Mon", "Tue", "Wed", "Thu", "Fri"]
  const DefaultStart := "08:00"
  const DefaultEnd := "18:00"

  /** `toggleDay`: a selected day is removed, every copy of it; another is
      appended. */
  function ToggleDay(days: seq<string>, day: string): (r: seq<string>)
    ensures day in r <==> day !in days
    ensures forall d :: d != day ==> (d in r <==> d in days)
  {
    if day in days then Filter(days, (d: string) => d != day) else days + [day]
  }

  /** Toggling a day twice gives back the same selection; a day that was
      not selected leaves the list exactly as it was. */
  lemma ToggleDayTwice(days: seq<string>, day: string)
    ensures forall d :: d in ToggleDay(ToggleDay(days, day), day) <==> d in days
    ensures day !in days ==> ToggleDay(ToggleDay(days, day), day) == days
  {
    if day !in days {
      FilterAppend(days, [day], (d: string) => d != day);
      FilterKeepsAll(days, (d: string) => d != day);
    }
  }

  lemma {:induction false} FilterKeepsAll<T>(xs: seq<T>, p: T -> bool)
    requires forall i :: 0 <= i < |xs| ==> p(xs[i])
    ensures Filter(xs, p) == xs
  {
    if xs != [] {
      FilterKeepsAll(xs[1..], p);
    }
  }

  /** The form's fields. */
  datatype Form = Form(creating: bool, passType: PassType, guestName: string, exitInstruction: string,
                       start: string, end: string, days: seq<string>, deliveryCompany: string)

  function NewForm(): (f: Form)
    ensures f.days == DefaultDays && f.start == DefaultStart && f.end == DefaultEnd
    ensures f.passType == OneTime && !f.creating
  {
    Form(false, OneTime, "", "", DefaultStart, DefaultEnd, DefaultDays, "")
  }

  /** Whether `handleCreatePass` refuses the form: a guest pass needs a
      guest's name, a delivery needs the company. */
  predicate Refused(f: Form) {
    (f.passType != Delivery && f.guestName == "") || (f.passType == Delivery && f.deliveryCompany == "")
  }

  /** The schedule is sent only for a recurring pass. */
  function ScheduleOf(f: Form): (s: Option<M.Schedule>)
    ensures s.Some? <==> f.passType == Recurring
    ensures s.Some? ==> s.value == M.Schedule(f.days, f.start, f.end)
  {
    if f.passType == Recurring then Some(M.Schedule(f.days, f.start, f.end)) else None
  }

  /** `handleCreatePass`: a refused form changes nothing; otherwise the
      pass is generated for the resident and the form is cleared, keeping
      the schedule fields. */
  function HandleCreatePass(f: Form, s: M.Store, userId: string, now: nat, draw: nat): (r: (Form, M.Store))
    requires draw < 90000
    ensures Refused(f) ==> r == (f, s)
    ensures !Refused(f) ==>
              r.1 == M.GeneratePass(s, userId, f.guestName, Some(f.exitInstruction), f.passType, ScheduleOf(f),
                                    Some(f.deliveryCompany), now, draw).1
              && r.0 == f.(creating := false, guestName := "", exitInstruction := "", deliveryCompany := "",
                           passType := OneTime)
  {
    if Refused(f) then (f, s)
    else
      var (_, s') := M.GeneratePass(s, userId, f.guestName, Some(f.exitInstruction), f.passType, ScheduleOf(f),
                                    Some(f.deliveryCompany), now, draw);
      (f.(creating := false, guestName := "", exitInstruction := "", deliveryCompany := "", passType := OneTime), s')
  }

  /** A created pass is named after the guest, or for a delivery after the
      company; only a recurring pass carries days. */
  lemma CreatedPassIsNamed(f: Form, s: M.Store, userId: string, now: nat, draw: nat)
    requires draw < 90000 && !Refused(f)
    requires M.FindUserById(s.users, userId).Some?
    ensures var p := HandleCreatePass(f, s, userId, now, draw).1.passes[0];
            p.guestName != "" && p.passType == f.passType && p.status == Active
            && (p.passType == Delivery ==> p.guestName == f.deliveryCompany)
            && (p.passType != Delivery ==> p.guestName == f.guestName)
            && (p.recurringDays.Some? <==> p.passType == Recurring)
  {
  }

  // ---------------------------------------------------------------------
  // The pass lists

  predicate InUse(p: GuestPass) {
    p.status == Active || p.status == CheckedIn
  }

  predicate IsActiveGuest(p: GuestPass) { InUse(p) && p.passType == OneTime }
  predicate IsActiveDelivery(p: GuestPass) { InUse(p) && p.passType == Delivery }
  predicate IsRecurring(p: GuestPass) { InUse(p) && p.passType == Recurring }
  predicate IsPast(p: GuestPass) { !InUse(p) }

  /** The history list of the newer screen: expired or cancelled passes. */
  predicate IsHistory(p: GuestPass) { p.status == Expired || p.status == Cancelled }

  /** Every pass belongs to exactly one of the four lists, and the two
      screens agree on which passes are past. */
  lemma ExactlyOneList(p: GuestPass)
    ensures IsPast(p) <==> IsHistory(p)
    ensures (if IsActiveGuest(p) then 1 else 0) + (if IsActiveDelivery(p) then 1 else 0)
            + (if IsRecurring(p) then 1 else 0) + (if IsPast(p) then 1 else 0) == 1
  {
  }

  /** The four lists together hold every pass once. */
  lemma {:induction false} ListsPartitionPasses(passes: seq<GuestPass>)
    ensures |Filter(passes, IsActiveGuest)| + |Filter(passes, IsActiveDelivery)|
            + |Filter(passes, IsRecurring)| + |Filter(passes, IsPast)| == |passes|
  {
    if passes != [] {
      ListsPartitionPasses(passes[1..]);
      ExactlyOneList(passes[0]);
    }
  }
}
