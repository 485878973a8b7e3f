/** Setting up a round: a fresh deck from the catalog's table, shuffled by
    the injected random source, four face-down cards dealt to each seat
    from the top of the deck, and one card turned up to start the discard
    pile. Used when a room's game starts and when a new round begins. */
module Dealing {
  import opened Types
  import opened Cards
  import opened Zones
  import opened Engine
  import opened Invariants

  /** One entry of the player list a game is created from. */
  datatype Entrant = Entrant(playerId: PlayerId, playerName: string)

  /** The most seats one deck can serve: four cards each and one more to
      start the discard pile (13 * 4 + 1 = 53 <= 54). */
  const MaxSeats: nat := 13

  /** A full deck covers the deal and the first discard for every seat count up to the limit. */
  lemma DeckCoversDeal(seats: nat)
    requires seats <= MaxSeats
    ensures SlotCount * seats + 1 <= DeckSize
  {
  }

  /** What a deal produces: the dealt seats, the rest of the deck and the
      discard pile. */
  datatype Deal = Deal(players: seq<PlayerState>, deck: seq<CardInstance>, discard: seq<CardInstance>)

  function FaceDown(c: CardInstance): DreamSlot
  {
    DreamSlot(Some(c), false)
  }

  /** `count` pops from the top of the deck, filling slots in pop order. */
  function PopSlots(deck: seq<CardInstance>, count: nat): (r: seq<DreamSlot>)
    requires count <= |deck|
    ensures |r| == count && FaceDownCards(r)
    decreases count
  {
    if count == 0 then []
    else
      var rest := PopSlots(deck[..|deck| - 1], count - 1);
      [FaceDown(deck[|deck| - 1])] + rest
  }

  /** The popped cards and what is left of the deck are the deck. */
  lemma {:induction false} PopSlotsConserves(deck: seq<CardInstance>, count: nat)
    requires count <= |deck|
    ensures SlotCards(PopSlots(deck, count)) + PileCards(deck[..|deck| - count]) == PileCards(deck)
    decreases count
  {
    var n := |deck|;
    if count == 0 {
      assert deck[..n] == deck;
    } else {
      var shorter := deck[..n - 1];
      var left := PileCards(deck[..n - count]);
      assert SlotCards(PopSlots(shorter, count - 1)) + left == PileCards(shorter) by {
        PopSlotsConserves(shorter, count - 1);
        assert shorter[..|shorter| - (count - 1)] == deck[..n - count];
      }
      PopSlotsTop(deck, count);
      PileCardsTop(deck);
      PushCancel(SlotCards(PopSlots(deck, count)), SlotCards(PopSlots(shorter, count - 1)), left,
                 PileCards(shorter), PileCards(deck), multiset{deck[n - 1]});
    }
  }

  /** The first popped slot holds the top card. */
  lemma PopSlotsTop(deck: seq<CardInstance>, count: nat)
    requires 0 < count <= |deck|
    ensures SlotCards(PopSlots(deck, count))
            == multiset{deck[|deck| - 1]} + SlotCards(PopSlots(deck[..|deck| - 1], count - 1))
  {
    var r := PopSlots(deck, count);
    assert r[1..] == PopSlots(deck[..|deck| - 1], count - 1);
    SlotCardsCons(r);
  }

  /** Adding one more element to the front part of a split keeps it a split. */
  lemma PushCancel<T>(s: multiset<T>, a: multiset<T>, l: multiset<T>, d1: multiset<T>, d: multiset<T>, x: multiset<T>)
    requires a + l == d1 && s == x + a && d == d1 + x
    ensures s + l == d
  {
    forall e
      ensures (s + l)[e] == d[e]
    {
    }
  }

  /** The four slots one seat is dealt. */
  function DealFour(deck: seq<CardInstance>): (r: seq<DreamSlot>)
    requires |deck| >= SlotCount
  {
    PopSlots(deck, SlotCount)
  }

  /** A seat after a deal: new slots, the round score cleared and the
      initial peek still to come; identity and total score stay. */
  function Seated(p: PlayerState, slots: seq<DreamSlot>): PlayerState
  {
    p.(dreamSlots := slots, roundScore := 0, hasSeenInitialCards := false)
  }

  /** Every slot holds a card, face down. */
  predicate FaceDownCards(slots: seq<DreamSlot>)
  {
    forall k :: 0 <= k < |slots| ==> slots[k].card.Some? && !slots[k].isRevealed
  }

  /** Four cards, all face down. */
  predicate FreshSlots(slots: seq<DreamSlot>)
  {
    |slots| == SlotCount && FaceDownCards(slots)
  }

  /** `after` is `before` with every seat dealt four fresh face-down cards
      and reset for a new round. */
  predicate Redealt(before: seq<PlayerState>, after: seq<PlayerState>)
  {
    |after| == |before|
    && forall i :: 0 <= i < |before| ==>
         FreshSlots(after[i].dreamSlots) && after[i] == Seated(before[i], after[i].dreamSlots)
  }

  /** Deals to the seats in order, each taking the next four pops. */
  function DealTo(players: seq<PlayerState>, deck: seq<CardInstance>): (r: (seq<PlayerState>, seq<CardInstance>))
    requires |deck| >= SlotCount * |players|
    ensures Redealt(players, r.0) && r.1 == deck[..|deck| - SlotCount * |players|]
    decreases |players|
  {
    if |players| == 0 then
      assert deck[..|deck|] == deck;
      ([], deck)
    else
      var n := |deck|;
      var (rest, left) := DealTo(players[1..], deck[..n - SlotCount]);
      assert deck[..n - SlotCount][..n - SlotCount - SlotCount * (|players| - 1)] == deck[..n - SlotCount * |players|];
      ([Seated(players[0], DealFour(deck))] + rest, left)
  }

  /** The dealt slots and what is left of the deck are the deck. */
  lemma {:induction false} DealToConserves(players: seq<PlayerState>, deck: seq<CardInstance>)
    requires |deck| >= SlotCount * |players|
    ensures PlayersCards(DealTo(players, deck).0) + PileCards(DealTo(players, deck).1) == PileCards(deck)
    decreases |players|
  {
    if |players| == 0 {
      assert deck[..|deck|] == deck;
    } else {
      var below := deck[..|deck| - SlotCount];
      var tail := DealTo(players[1..], below);
      DealToHead(players, deck);
      DealToConserves(players[1..], below);
      PopSlotsConserves(deck, SlotCount);
      Regroup(SlotCards(DealFour(deck)), PlayersCards(tail.0), PileCards(tail.1), PileCards(below), PileCards(deck));
    }
  }

  /** The first seat's four cards head a deal; the rest is the deal to the
      other seats from below them. */
  lemma DealToHead(players: seq<PlayerState>, deck: seq<CardInstance>)
    requires |players| > 0 && |deck| >= SlotCount * |players|
    ensures var tail := DealTo(players[1..], deck[..|deck| - SlotCount]);
            PlayersCards(DealTo(players, deck).0) == SlotCards(DealFour(deck)) + PlayersCards(tail.0)
            && DealTo(players, deck).1 == tail.1
  {
    var dealt := DealTo(players, deck).0;
    assert dealt[1..] == DealTo(players[1..], deck[..|deck| - SlotCount]).0;
  }

  lemma Regroup<T>(s: multiset<T>, p: multiset<T>, l: multiset<T>, d1: multiset<T>, d: multiset<T>)
    requires p + l == d1 && s + d1 == d
    ensures (s + p) + l == d
  {
    forall e
      ensures ((s + p) + l)[e] == d[e]
    {
    }
  }

  /** A full deck shuffled, dealt to `players`, with the next card turned
      up as the discard pile. */
  function DealRound(players: seq<PlayerState>, cards: seq<CardInstance>, rng: Rng): (d: Deal)
    requires |players| <= MaxSeats && |cards| == DeckSize
    ensures Redealt(players, d.players)
    ensures |d.deck| == DeckSize - SlotCount * |players| - 1 && |d.discard| == 1
  {
    DeckCoversDeal(|players|);
    var (dealt, left) := DealTo(players, ShuffleArray(cards, rng));
    Deal(dealt, left[..|left| - 1], [left[|left| - 1]])
  }

  /** A deal moves every card of the deck to exactly one place: the dealt
      slots, the remaining deck or the discard pile. */
  lemma DealRoundConserves(players: seq<PlayerState>, cards: seq<CardInstance>, rng: Rng)
    requires |players| <= MaxSeats && |cards| == DeckSize
    ensures var d := DealRound(players, cards, rng);
            multiset(d.deck) + multiset(d.discard) + PlayersCards(d.players) == multiset(cards)
  {
    DeckCoversDeal(|players|);
    var d := DealRound(players, cards, rng);
    var deck := ShuffleArray(cards, rng);
    var (dealt, left) := DealTo(players, deck);
    var m := |left| - 1;
    assert d.players == dealt && d.deck == left[..m] && d.discard == [left[m]];
    assert PlayersCards(dealt) + PileCards(left) == multiset(cards) by {
      DealToConserves(players, deck);
      PileCardsMultiset(deck);
    }
    assert PileCards(left) == multiset(d.deck) + multiset(d.discard) by {
      PileCardsTop(left);
      PileCardsMultiset(left[..m]);
    }
    SplitTop(PlayersCards(dealt), PileCards(left), multiset(d.deck), multiset(d.discard), multiset(cards));
  }

  lemma SplitTop<T>(p: multiset<T>, l: multiset<T>, rest: multiset<T>, top: multiset<T>, all: multiset<T>)
    requires p + l == all && l == rest + top
    ensures rest + top + p == all
  {
    forall e
      ensures (rest + top + p)[e] == all[e]
    {
    }
  }

  // ---------------------------------------------------------------------------
  // Creating a game and starting a round

  /** A freshly dealt state at the start of the initial peek, with at
      least one seat, is an invariant state. */
  lemma DealtStateInv(before: seq<PlayerState>, t: GameState)
    requires Redealt(before, t.players)
    requires t.phase == InitialPeek && t.activePlayerIndex == 0 && t.turnPhase == Draw
    requires t.drawnCard.None? && t.wakeUpCalledBy.None? && t.pendingEffect.None?
    ensures |t.players| >= 1 ==> Inv(t)
  {
    assert FourSlots(t.players) by {
      forall i | 0 <= i < |t.players|
        ensures |t.players[i].dreamSlots| == SlotCount
      {
        assert FreshSlots(t.players[i].dreamSlots);
      }
    }
  }

  /** The seat an entrant takes when the game is created: connected, no
      score yet, nothing dealt. */
  function NewSeat(e: Entrant, seat: nat): PlayerState
  {
    PlayerState(e.playerId, e.playerName, seat, [], true, 0, 0, false)
  }

  /** One seat per entrant, in entrant order: seat `i` carries the `i`-th
      entrant's id and name and seat index `i`, is connected, has no score
      and no slots yet, and has not seen its cards. */
  function NewSeats(entrants: seq<Entrant>): (r: seq<PlayerState>)
    ensures |r| == |entrants|
    ensures forall i :: 0 <= i < |entrants| ==>
              r[i].playerId == entrants[i].playerId && r[i].playerName == entrants[i].playerName
              && r[i].seatIndex == i && r[i].dreamSlots == [] && r[i].isConnected
              && r[i].roundScore == 0 && r[i].totalScore == 0 && !r[i].hasSeenInitialCards
  {
    seq(|entrants|, i requires 0 <= i < |entrants| => NewSeat(entrants[i], i))
  }

  /** `createInitialGameState`: the entrants sit in list order, each dealt
      four face-down cards from a freshly built and shuffled deck, one card
      starts the discard pile, and the first seat is to act once everyone
      has peeked. Returns the instance-id counter after the deck was built. */
  function CreateInitialGameState(roomId: string, entrants: seq<Entrant>, targetScore: int, counter: nat, rng: Rng)
    : (r: (GameState, nat))
    requires |entrants| <= MaxSeats
    ensures r.1 == counter + DeckSize
    ensures r.0 == GameState(roomId, InitialPeek, 1, r.0.deck, r.0.discard, r.0.players, 0, Draw,
                             None, None, None, targetScore, 1)
    ensures Redealt(NewSeats(entrants), r.0.players)
    ensures |r.0.deck| == DeckSize - SlotCount * |entrants| - 1 && |r.0.discard| == 1
  {
    var (cards, next) := CreateDeck(counter);
    var d := DealRound(NewSeats(entrants), cards, rng);
    (GameState(roomId, InitialPeek, 1, d.deck, d.discard, d.players, 0, Draw, None, None, None, targetScore, 1), next)
  }

  /** The target score of a game whose creator names none. */
  const DefaultTargetScore: int := 100

  /** `createInitialGameState` called without a target score: the game plays
      to `DefaultTargetScore` and is otherwise the game any explicit target
      would have produced. */
  function CreateDefaultGame(roomId: string, entrants: seq<Entrant>, counter: nat, rng: Rng): (r: (GameState, nat))
    requires |entrants| <= MaxSeats
    ensures r.0.targetScore == DefaultTargetScore && r.1 == counter + DeckSize
    ensures forall t :: r.0 == CreateInitialGameState(roomId, entrants, t, counter, rng).0.(targetScore := DefaultTargetScore)
  {
    CreateInitialGameState(roomId, entrants, DefaultTargetScore, counter, rng)
  }

  /** A game with at least one entrant starts in a state meeting the invariant. */
  lemma CreateInitialGameStateInv(roomId: string, entrants: seq<Entrant>, targetScore: int, counter: nat, rng: Rng)
    requires 1 <= |entrants| <= MaxSeats
    ensures Inv(CreateInitialGameState(roomId, entrants, targetScore, counter, rng).0)
  {
    DealtStateInv(NewSeats(entrants), CreateInitialGameState(roomId, entrants, targetScore, counter, rng).0);
  }

  /** The state of a new round dealt from `cards`: the seats are dealt
      again, round scores and peeks reset, total scores kept, and the
      round counter and version move on by one. */
  function Redeal(s: GameState, cards: seq<CardInstance>, rng: Rng): (r: GameState)
    requires |s.players| <= MaxSeats && |cards| == DeckSize
    ensures r == GameState(s.roomId, InitialPeek, s.roundNumber + 1, r.deck, r.discard, r.players,
                           0, Draw, None, None, None, s.targetScore, s.version + 1)
    ensures Redealt(s.players, r.players)
    ensures |r.deck| == DeckSize - SlotCount * |s.players| - 1 && |r.discard| == 1
  {
    var d := DealRound(s.players, cards, rng);
    s.(version := s.version + 1, deck := d.deck, discard := d.discard, players := d.players,
       phase := InitialPeek, roundNumber := s.roundNumber + 1, activePlayerIndex := 0,
       turnPhase := Draw, drawnCard := None, wakeUpCalledBy := None, pendingEffect := None)
  }

  /** `startNewRound`: a fresh deck is built, shuffled and dealt to the same
      seats. Returns the instance-id counter after the deck was built. */
  function StartNewRound(s: GameState, counter: nat, rng: Rng): (r: (GameState, nat))
    requires |s.players| <= MaxSeats
    ensures r.1 == counter + DeckSize
  {
    var (cards, next) := CreateDeck(counter);
    (Redeal(s, cards, rng), next)
  }

  /** A new round of a game with at least one seat meets the invariant,
      whatever state the previous round ended in. */
  lemma StartNewRoundInv(s: GameState, counter: nat, rng: Rng)
    requires 1 <= |s.players| <= MaxSeats
    ensures Inv(StartNewRound(s, counter, rng).0)
  {
    DealtStateInv(s.players, StartNewRound(s, counter, rng).0);
  }

  // ---------------------------------------------------------------------------
  // Properties of a deal

  /** Every card a new deck holds carries an id issued by building it. */
  lemma DeckCardsFresh(counter: nat)
    ensures forall c :: c in multiset(CreateDeck(counter).0) ==> counter < c.instanceId <= counter + DeckSize
  {
    IdsWithinMembers(CreateDeck(counter).0, counter, counter + DeckSize);
  }

  lemma IdsWithinMembers(cards: seq<CardInstance>, low: nat, high: nat)
    requires IdsWithin(cards, low, high)
    ensures forall c :: c in multiset(cards) ==> low < c.instanceId <= high
  {
    forall c: CardInstance | c in multiset(cards)
      ensures low < c.instanceId <= high
    {
      var i :| 0 <= i < |cards| && cards[i] == c;
    }
  }

  /** The cards in play after dealing are the dealt deck's. */
  lemma DealtCards(t: GameState, before: seq<PlayerState>, cards: seq<CardInstance>, rng: Rng)
    requires |before| <= MaxSeats && |cards| == DeckSize && t.drawnCard.None?
    requires var d := DealRound(before, cards, rng);
             t.deck == d.deck && t.discard == d.discard && t.players == d.players
    ensures CardsInPlay(t) == multiset(cards)
  {
    DealRoundConserves(before, cards, rng);
    assert OptionCards(t.drawnCard) == multiset{};
  }

  /** `createInitialGameState` puts exactly the new deck's cards in play. */
  lemma CreateInitialGameStateCards(roomId: string, entrants: seq<Entrant>, targetScore: int, counter: nat, rng: Rng)
    requires |entrants| <= MaxSeats
    ensures var (s, next) := CreateInitialGameState(roomId, entrants, targetScore, counter, rng);
            CardsInPlay(s) == multiset(CreateDeck(counter).0)
            && forall c :: c in CardsInPlay(s) ==> counter < c.instanceId <= next
  {
    DealtCards(CreateInitialGameState(roomId, entrants, targetScore, counter, rng).0, NewSeats(entrants), CreateDeck(counter).0, rng);
    DeckCardsFresh(counter);
  }

  /** `startNewRound` puts exactly the new deck's cards in play: every card
      of the previous round leaves the game. */
  lemma StartNewRoundCards(s: GameState, counter: nat, rng: Rng)
    requires |s.players| <= MaxSeats
    ensures var (r, next) := StartNewRound(s, counter, rng);
            CardsInPlay(r) == multiset(CreateDeck(counter).0)
            && forall c :: c in CardsInPlay(r) ==> counter < c.instanceId <= next
  {
    DealtCards(StartNewRound(s, counter, rng).0, s.players, CreateDeck(counter).0, rng);
    DeckCardsFresh(counter);
  }

  /** Within one deck built from a counter, an instance id names a single
      card. */
  lemma DeckIdNamesOneCard(counter: nat, c1: CardInstance, c2: CardInstance)
    requires c1 in multiset(CreateDeck(counter).0) && c2 in multiset(CreateDeck(counter).0)
    requires c1.instanceId == c2.instanceId
    ensures c1 == c2
  {
    var deck := CreateDeck(counter).0;
    assert c1 in deck && c2 in deck;
    var i :| 0 <= i < |deck| && deck[i] == c1;
    var j :| 0 <= j < |deck| && deck[j] == c2;
  }

  /** Instance ids follow the order the deck is built in, not the shuffle:
      two games dealt from the same counter, whatever their seats and their
      random sources, hold the same card under any id they share. Every
      view shows the id of every slot, face-down ones included, so an id
      tells which card lies behind it. */
  lemma InstanceIdFixesCard(roomId: string, e1: seq<Entrant>, e2: seq<Entrant>, targetScore: int,
                            counter: nat, rng1: Rng, rng2: Rng, c1: CardInstance, c2: CardInstance)
    requires |e1| <= MaxSeats && |e2| <= MaxSeats
    requires c1 in CardsInPlay(CreateInitialGameState(roomId, e1, targetScore, counter, rng1).0)
    requires c2 in CardsInPlay(CreateInitialGameState(roomId, e2, targetScore, counter, rng2).0)
    requires c1.instanceId == c2.instanceId
    ensures c1 == c2
  {
    CreateInitialGameStateCards(roomId, e1, targetScore, counter, rng1);
    CreateInitialGameStateCards(roomId, e2, targetScore, counter, rng2);
    DeckIdNamesOneCard(counter, c1, c2);
  }

  /** The same holds for every later round: a round dealt from a given
      counter places each id on the card the first deal placed it on. */
  lemma NewRoundIdFixesCard(s: GameState, roomId: string, entrants: seq<Entrant>, targetScore: int,
                            counter: nat, rng1: Rng, rng2: Rng, c1: CardInstance, c2: CardInstance)
    requires |entrants| <= MaxSeats && |s.players| <= MaxSeats
    requires c1 in CardsInPlay(CreateInitialGameState(roomId, entrants, targetScore, counter, rng1).0)
    requires c2 in CardsInPlay(StartNewRound(s, counter, rng2).0)
    requires c1.instanceId == c2.instanceId
    ensures c1 == c2
  {
    CreateInitialGameStateCards(roomId, entrants, targetScore, counter, rng1);
    StartNewRoundCards(s, counter, rng2);
    DeckIdNamesOneCard(counter, c1, c2);
  }

  /** What a new round keeps of a seat: everything but its slots, its round
      score and its peek flag. */
  predicate SameSeatRecord(p: PlayerState, q: PlayerState)
  {
    Seated(p, []) == Seated(q, [])
  }

  lemma {:induction false} DealToIgnoresRound(p1: seq<PlayerState>, p2: seq<PlayerState>, deck: seq<CardInstance>)
    requires |p1| == |p2| && |deck| >= SlotCount * |p1|
    requires forall i :: 0 <= i < |p1| ==> SameSeatRecord(p1[i], p2[i])
    ensures DealTo(p1, deck) == DealTo(p2, deck)
    decreases |p1|
  {
    if |p1| > 0 {
      DealToIgnoresRound(p1[1..], p2[1..], deck[..|deck| - SlotCount]);
      assert SameSeatRecord(p1[0], p2[0]);
    }
  }

  lemma DealRoundIgnoresRound(p1: seq<PlayerState>, p2: seq<PlayerState>, cards: seq<CardInstance>, rng: Rng)
    requires |p1| == |p2| <= MaxSeats && |cards| == DeckSize
    requires forall i :: 0 <= i < |p1| ==> SameSeatRecord(p1[i], p2[i])
    ensures DealRound(p1, cards, rng) == DealRound(p2, cards, rng)
  {
    DeckCoversDeal(|p1|);
    DealToIgnoresRound(p1, p2, ShuffleArray(cards, rng));
  }

  /** A new round forgets the previous one: two states that agree on the
      room, the target, the round and version counters, and each seat's
      identity and total score start the same new round. */
  lemma RedealForgetsRound(s1: GameState, s2: GameState, cards: seq<CardInstance>, rng: Rng)
    requires |s1.players| <= MaxSeats && |s2.players| == |s1.players| && |cards| == DeckSize
    requires s1.roomId == s2.roomId && s1.targetScore == s2.targetScore
    requires s1.roundNumber == s2.roundNumber && s1.version == s2.version
    requires forall i :: 0 <= i < |s1.players| ==> SameSeatRecord(s1.players[i], s2.players[i])
    ensures Redeal(s1, cards, rng) == Redeal(s2, cards, rng)
  {
    DealRoundIgnoresRound(s1.players, s2.players, cards, rng);
  }

  lemma StartNewRoundForgetsRound(s1: GameState, s2: GameState, counter: nat, rng: Rng)
    requires |s1.players| <= MaxSeats && |s2.players| == |s1.players|
    requires s1.roomId == s2.roomId && s1.targetScore == s2.targetScore
    requires s1.roundNumber == s2.roundNumber && s1.version == s2.version
    requires forall i :: 0 <= i < |s1.players| ==> SameSeatRecord(s1.players[i], s2.players[i])
    ensures StartNewRound(s1, counter, rng) == StartNewRound(s2, counter, rng)
  {
    RedealForgetsRound(s1, s2, CreateDeck(counter).0, rng);
  }
}
