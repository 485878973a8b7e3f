/** The turn engine: action validation, the transition function and its
    helpers (swap, end of turn, end of round, reshuffle). Every transition is
    a pure function from one immutable state to the next; the deep copy the
    engine takes before mutating is implicit in value semantics. */
module Engine {
  import opened Types
  import opened Cards
  import opened Zones

  // ---------------------------------------------------------------------------
  // Seats

  function FindPlayerFrom(players: seq<PlayerState>, id: PlayerId, from: nat): (r: Option<nat>)
    requires from <= |players|
    ensures r.Some? ==> from <= r.value < |players| && players[r.value].playerId == id
    ensures r.Some? ==> forall i :: from <= i < r.value ==> players[i].playerId != id
    ensures r.None? <==> forall i :: from <= i < |players| ==> players[i].playerId != id
    decreases |players| - from
  {
    if from == |players| then None
    else if players[from].playerId == id then Some(from)
    else FindPlayerFrom(players, id, from + 1)
  }

  /** `players.findIndex(p => p.playerId === id)`, with `None` for -1: the
      first seat holding `id`. */
  function FindPlayerIndex(players: seq<PlayerState>, id: PlayerId): (r: Option<nat>)
    ensures r.Some? ==> r.value < |players| && players[r.value].playerId == id
    ensures r.Some? ==> forall i :: 0 <= i < r.value ==> players[i].playerId != id
    ensures r.None? <==> forall i :: 0 <= i < |players| ==> players[i].playerId != id
  {
    FindPlayerFrom(players, id, 0)
  }

  /** Seats with the same ids are searched alike. */
  lemma {:induction false} SameIdsSameSeat(p1: seq<PlayerState>, p2: seq<PlayerState>, id: PlayerId)
    requires |p1| == |p2| && forall i :: 0 <= i < |p1| ==> p1[i].playerId == p2[i].playerId
    ensures FindPlayerIndex(p1, id) == FindPlayerIndex(p2, id)
  {
    var r1, r2 := FindPlayerIndex(p1, id), FindPlayerIndex(p2, id);
    if r1.Some? && r2.Some? {
      assert !(r1.value < r2.value) && !(r2.value < r1.value);
    }
  }

  /** `players[activePlayerIndex]?.playerId === id`: an index off the seats
      makes nobody active. */
  predicate IsActivePlayer(s: GameState, id: PlayerId)
  {
    0 <= s.activePlayerIndex < |s.players| && s.players[s.activePlayerIndex].playerId == id
  }

  predicate ValidSlot(k: int)
  {
    0 <= k < SlotCount
  }

  predicate SelectionsValid(sel: seq<SlotRef>)
  {
    forall j :: 0 <= j < |sel| ==> ValidSlot(sel[j].slotIndex)
  }

  predicate FourSlots(players: seq<PlayerState>)
  {
    forall i :: 0 <= i < |players| ==> |players[i].dreamSlots| == SlotCount
  }

  /** The shape every state the engine builds keeps: at least one seat, the
      active index on a seat, four slots per player, and recorded selections
      that name slot positions. */
  predicate WellFormed(s: GameState)
  {
    |s.players| >= 1
    && 0 <= s.activePlayerIndex < |s.players|
    && FourSlots(s.players)
    && (s.pendingEffect.Some? ==> SelectionsValid(s.pendingEffect.value.selectedSlots))
  }

  predicate SameSeat(p: PlayerState, q: PlayerState)
  {
    q.playerId == p.playerId && q.playerName == p.playerName && q.seatIndex == p.seatIndex
    && q.isConnected == p.isConnected && |q.dreamSlots| == |p.dreamSlots|
  }

  /** What no transition of a round changes: the room, the target, the
      round number, and who sits in each seat. */
  predicate SameSeats(s: GameState, r: GameState)
  {
    r.roomId == s.roomId && r.targetScore == s.targetScore && r.roundNumber == s.roundNumber
    && |r.players| == |s.players|
    && forall i :: 0 <= i < |s.players| ==> SameSeat(s.players[i], r.players[i])
  }

  lemma SameSeatsTrans(s: GameState, t: GameState, r: GameState)
    requires SameSeats(s, t) && SameSeats(t, r)
    ensures SameSeats(s, r)
  {
  }

  // ---------------------------------------------------------------------------
  // Validation

  /** Actions only the active player may take during play. */
  predicate IsTurnAction(a: PlayerAction)
  {
    a.DrawFromDeck? || a.DrawFromDiscard? || a.ReplaceDreamSlot? || a.DiscardDrawnCard?
    || a.UseCardEffect? || a.DeclareWakeUp?
  }

  /** Actions only the owner of the pending effect may take. */
  predicate IsEffectAction(a: PlayerAction)
  {
    a.SelectOwnSlot? || a.SelectOtherSlot? || a.ConfirmSwap? || a.CancelEffect?
  }

  /** `isActionValid`: the acting player must have a seat; turn actions need
      the active player in the playing phase, effect actions need the owner
      of the pending effect, and slot indices must lie in 0..3. */
  function IsActionValid(s: GameState, pid: PlayerId, a: PlayerAction): (ok: bool)
    ensures ok ==> FindPlayerIndex(s.players, pid).Some?
    ensures ok && IsTurnAction(a) ==> IsActivePlayer(s, pid) && s.phase == Playing
    ensures ok && IsEffectAction(a) ==> s.pendingEffect.Some? && s.pendingEffect.value.sourcePlayerId == pid
    ensures ok && a.AcknowledgeInitialPeek? ==> s.phase == InitialPeek
    ensures ok && (a.ReplaceDreamSlot? || a.SelectOwnSlot? || a.SelectOtherSlot?) ==> ValidSlot(a.slotIndex)
    ensures ok && a.SelectOtherSlot? ==> a.targetPlayerId != pid
    ensures ok && a.AcknowledgeInitialPeek? ==> !s.players[FindPlayerIndex(s.players, pid).value].hasSeenInitialCards
    ensures ok && (a.DrawFromDeck? || a.DrawFromDiscard? || a.DeclareWakeUp?) ==> s.turnPhase == Draw
    ensures ok && a.DrawFromDeck? ==> |s.deck| > 0
    ensures ok && a.DrawFromDiscard? ==> |s.discard| > 0
    ensures ok && (a.ReplaceDreamSlot? || a.DiscardDrawnCard? || a.UseCardEffect?) ==>
              s.turnPhase == Action && s.drawnCard.Some?
    ensures ok && a.UseCardEffect? ==> HasEffect(s.drawnCard.value)
    ensures ok && a.DeclareWakeUp? ==> s.wakeUpCalledBy.None?
    ensures ok && a.SelectOwnSlot? ==> s.pendingEffect.value.awaitingSelection == Some(OwnSlot)
    ensures ok && a.SelectOtherSlot? ==> s.pendingEffect.value.awaitingSelection == Some(OtherSlot)
    ensures ok && a.ConfirmSwap? ==> s.pendingEffect.value.awaitingSelection == Some(Awaiting.ConfirmSwap)
  {
    match FindPlayerIndex(s.players, pid)
    case None => false
    case Some(i) =>
      var active := IsActivePlayer(s, pid);
      var pending := s.pendingEffect;
      match a
      case AcknowledgeInitialPeek =>
        s.phase == InitialPeek && !s.players[i].hasSeenInitialCards
      case DrawFromDeck =>
        active && s.phase == Playing && s.turnPhase == Draw && |s.deck| > 0
      case DrawFromDiscard =>
        active && s.phase == Playing && s.turnPhase == Draw && |s.discard| > 0
      case ReplaceDreamSlot(k) =>
        active && s.phase == Playing && s.turnPhase == Action && s.drawnCard.Some? && ValidSlot(k)
      case DiscardDrawnCard =>
        active && s.phase == Playing && s.turnPhase == Action && s.drawnCard.Some?
      case UseCardEffect =>
        active && s.phase == Playing && s.turnPhase == Action && s.drawnCard.Some?
        && HasEffect(s.drawnCard.value)
      case DeclareWakeUp =>
        active && s.phase == Playing && s.turnPhase == Draw && s.wakeUpCalledBy.None?
      case SelectOwnSlot(k) =>
        pending.Some? && pending.value.sourcePlayerId == pid
        && pending.value.awaitingSelection == Some(OwnSlot) && ValidSlot(k)
      case SelectOtherSlot(target, k) =>
        pending.Some? && pending.value.sourcePlayerId == pid
        && pending.value.awaitingSelection == Some(OtherSlot) && target != pid && ValidSlot(k)
      case ConfirmSwap =>
        pending.Some? && pending.value.sourcePlayerId == pid
        && pending.value.awaitingSelection == Some(Awaiting.ConfirmSwap)
      case CancelEffect =>
        pending.Some? && pending.value.sourcePlayerId == pid
  }

  // ---------------------------------------------------------------------------
  // Swap

  /** The two slots a two-element selection names, as (seat, slot) pairs;
      `None` when the selection does not have exactly two entries or one of
      its players has no seat. */
  function SwapTargets(s: GameState, sel: seq<SlotRef>): (r: Option<(nat, int, nat, int)>)
    ensures r.Some? ==> |sel| == 2 && r.value.0 < |s.players| && r.value.2 < |s.players|
    ensures r.Some? ==> r.value.1 == sel[0].slotIndex && r.value.3 == sel[1].slotIndex
    ensures r.Some? ==> s.players[r.value.0].playerId == sel[0].playerId
                        && s.players[r.value.2].playerId == sel[1].playerId
    ensures r.None? <==> |sel| != 2 || FindPlayerIndex(s.players, sel[0].playerId).None?
                         || FindPlayerIndex(s.players, sel[1].playerId).None?
  {
    if |sel| != 2 then None
    else match (FindPlayerIndex(s.players, sel[0].playerId), FindPlayerIndex(s.players, sel[1].playerId))
      case (Some(p1), Some(p2)) => Some((p1, sel[0].slotIndex, p2, sel[1].slotIndex))
      case _ => None
  }

  /** Slot `k1` of seat `p1` and slot `k2` of seat `p2` trade card references
      in the engine's order: the first takes the second's card, then the
      second takes the first's former card. */
  function ExchangeCards(s: GameState, p1: nat, k1: int, p2: nat, k2: int): (r: GameState)
    requires FourSlots(s.players) && p1 < |s.players| && p2 < |s.players| && ValidSlot(k1) && ValidSlot(k2)
    ensures r == s.(players := r.players)
    ensures |r.players| == |s.players| && FourSlots(r.players)
    ensures forall i :: 0 <= i < |s.players| ==>
              r.players[i] == s.players[i].(dreamSlots := r.players[i].dreamSlots)
    ensures forall i, k :: 0 <= i < |s.players| && 0 <= k < SlotCount ==>
              r.players[i].dreamSlots[k].isRevealed == s.players[i].dreamSlots[k].isRevealed
    ensures r.players[p2].dreamSlots[k2].card == s.players[p1].dreamSlots[k1].card
    ensures r.players[p1].dreamSlots[k1].card == s.players[p2].dreamSlots[k2].card
    ensures forall i, k :: 0 <= i < |s.players| && 0 <= k < SlotCount && (i, k) != (p1, k1) && (i, k) != (p2, k2) ==>
              r.players[i].dreamSlots[k].card == s.players[i].dreamSlots[k].card
  {
    var m := SetSlotCard(s, p1, k1, s.players[p2].dreamSlots[k2].card);
    SetSlotCard(m, p2, k2, s.players[p1].dreamSlots[k1].card)
  }

  /** An exchange moves cards between two slots and so keeps every card in play. */
  lemma ExchangeCardsConserves(s: GameState, p1: nat, k1: int, p2: nat, k2: int)
    requires FourSlots(s.players) && p1 < |s.players| && p2 < |s.players| && ValidSlot(k1) && ValidSlot(k2)
    ensures CardsInPlay(ExchangeCards(s, p1, k1, p2, k2)) == CardsInPlay(s)
  {
    var a := s.players[p1].dreamSlots[k1].card;
    var b := s.players[p2].dreamSlots[k2].card;
    var m := SetSlotCard(s, p1, k1, b);
    var r := SetSlotCard(m, p2, k2, a);
    SetSlotCardCards(s, p1, k1, b);
    SetSlotCardCards(m, p2, k2, a);
    assert m.players[p2].dreamSlots[k2].card == b;
    assert PlayersCards(r.players) + OptionCards(b) == PlayersCards(s.players) + OptionCards(b);
    MultisetCancelRight(PlayersCards(r.players), PlayersCards(s.players), OptionCards(b));
    assert r == s.(players := r.players);
  }

  /** `performSwap`: with exactly two selections whose players are seated,
      the two named slots trade cards; otherwise nothing changes. Only card
      references move: face-up flags, seats and every other zone stay. */
  function PerformSwap(s: GameState, sel: seq<SlotRef>): (r: GameState)
    requires FourSlots(s.players) && SelectionsValid(sel)
    ensures r == s.(players := r.players)
    ensures |r.players| == |s.players| && FourSlots(r.players)
    ensures forall i :: 0 <= i < |s.players| ==>
              r.players[i] == s.players[i].(dreamSlots := r.players[i].dreamSlots)
    ensures CardsInPlay(r) == CardsInPlay(s)
    ensures SwapTargets(s, sel).None? ==> r == s
    ensures forall i, k :: 0 <= i < |s.players| && 0 <= k < SlotCount ==>
              r.players[i].dreamSlots[k].isRevealed == s.players[i].dreamSlots[k].isRevealed
    ensures SwapTargets(s, sel).Some? ==>
              var (p1, k1, p2, k2) := SwapTargets(s, sel).value;
              r.players[p2].dreamSlots[k2].card == s.players[p1].dreamSlots[k1].card
              && r.players[p1].dreamSlots[k1].card == s.players[p2].dreamSlots[k2].card
              && forall i, k :: 0 <= i < |s.players| && 0 <= k < SlotCount && (i, k) != (p1, k1) && (i, k) != (p2, k2) ==>
                   r.players[i].dreamSlots[k].card == s.players[i].dreamSlots[k].card
  {
    match SwapTargets(s, sel)
    case None => s
    case Some((p1, k1, p2, k2)) =>
      ExchangeCardsConserves(s, p1, k1, p2, k2);
      ExchangeCards(s, p1, k1, p2, k2)
  }

  // ---------------------------------------------------------------------------
  // End of round

  function SlotValue(slot: DreamSlot): int
  {
    if slot.card.Some? then GetCrowValue(slot.card.value) else 0
  }

  /** Crow total of a row of slots: the value of every card lying in it. */
  function SlotsScore(slots: seq<DreamSlot>): int
  {
    if |slots| == 0 then 0 else SlotValue(slots[0]) + SlotsScore(slots[1..])
  }

  /** The scoring loop of `endRound` over one player's slots: each slot is
      turned face-up and its card's value added to the running score. */
  function RevealAndScore(slots: seq<DreamSlot>, acc: int): (r: (seq<DreamSlot>, int))
    ensures |r.0| == |slots|
    ensures forall k :: 0 <= k < |slots| ==> r.0[k] == slots[k].(isRevealed := true)
    ensures r.1 == acc + SlotsScore(slots)
    decreases |slots|
  {
    if |slots| == 0 then ([], acc)
    else
      var (rest, total) := RevealAndScore(slots[1..], acc + SlotValue(slots[0]));
      ([slots[0].(isRevealed := true)] + rest, total)
  }

  /** One player at the end of a round: every slot face-up, the round score
      is the crow total of the slots, and it is added to the running total. */
  function ScorePlayer(p: PlayerState): (r: PlayerState)
    ensures r == p.(dreamSlots := r.dreamSlots, roundScore := r.roundScore, totalScore := r.totalScore)
    ensures |r.dreamSlots| == |p.dreamSlots|
    ensures forall k :: 0 <= k < |p.dreamSlots| ==>
              r.dreamSlots[k].isRevealed && r.dreamSlots[k].card == p.dreamSlots[k].card
    ensures r.roundScore == SlotsScore(p.dreamSlots)
    ensures r.totalScore == p.totalScore + r.roundScore
  {
    var (slots, score) := RevealAndScore(p.dreamSlots, 0);
    p.(dreamSlots := slots, roundScore := score, totalScore := p.totalScore + score)
  }

  function ScoreAll(players: seq<PlayerState>): (r: seq<PlayerState>)
    ensures |r| == |players| && forall i :: 0 <= i < |players| ==> r[i] == ScorePlayer(players[i])
  {
    if |players| == 0 then [] else [ScorePlayer(players[0])] + ScoreAll(players[1..])
  }

  /** `Math.max(...players.map(p => p.totalScore))` over a non-empty table. */
  function MaxTotalScore(players: seq<PlayerState>): (m: int)
    requires |players| >= 1
    ensures forall i :: 0 <= i < |players| ==> players[i].totalScore <= m
    ensures exists i :: 0 <= i < |players| && players[i].totalScore == m
  {
    if |players| == 1 then players[0].totalScore
    else
      var rest := MaxTotalScore(players[1..]);
      var j :| 0 <= j < |players[1..]| && players[1..][j].totalScore == rest;
      assert players[j + 1].totalScore == rest;
      if players[0].totalScore >= rest then players[0].totalScore else rest
  }

  /** `endRound`: everyone is scored with every slot face-up, and the game
      is over exactly when some running total reached the target. */
  function EndRound(s: GameState): (r: GameState)
    requires |s.players| >= 1
    ensures r == s.(players := r.players, phase := r.phase)
    ensures |r.players| == |s.players|
    ensures forall i :: 0 <= i < |s.players| ==> r.players[i] == ScorePlayer(s.players[i])
    ensures r.phase == GameOver <==>
              exists i :: 0 <= i < |r.players| && r.players[i].totalScore >= s.targetScore
    ensures r.phase == Scoring || r.phase == GameOver
    ensures SameSeats(s, r) && (FourSlots(s.players) ==> FourSlots(r.players))
    ensures CardsInPlay(r) == CardsInPlay(s)
  {
    var players := ScoreAll(s.players);
    var r := s.(players := players, phase := if MaxTotalScore(players) >= s.targetScore then GameOver else Scoring);
    forall i | 0 <= i < |s.players|
      ensures SameCards(s.players[i].dreamSlots, r.players[i].dreamSlots)
    {
    }
    SameCardsPlayersCards(s.players, r.players);
    r
  }

  // ---------------------------------------------------------------------------
  // End of turn

  /** With the deck empty and more than one card discarded, everything under
      the top discard is shuffled into a new deck; the top card stays. */
  function Reshuffle(s: GameState, rng: Rng): (r: GameState)
    ensures r == s.(deck := r.deck, discard := r.discard)
    ensures CardsInPlay(r) == CardsInPlay(s)
    ensures |s.deck| == 0 && |s.discard| > 1 ==>
              r.discard == [s.discard[|s.discard| - 1]]
              && multiset(r.deck) == multiset(s.discard[..|s.discard| - 1])
    ensures !(|s.deck| == 0 && |s.discard| > 1) ==> r == s
  {
    if |s.deck| == 0 && |s.discard| > 1 then
      var n := |s.discard| - 1;
      var r := s.(deck := ShuffleArray(s.discard[..n], rng), discard := [s.discard[n]]);
      assert s.discard == s.discard[..n] + [s.discard[n]];
      assert multiset(r.deck) + multiset(r.discard) == multiset(s.deck) + multiset(s.discard);
      r
    else s
  }

  /** The seat the turn passes to. */
  function NextIndex(s: GameState): nat
    requires |s.players| >= 1 && 0 <= s.activePlayerIndex
  {
    NextSeat(s.activePlayerIndex, |s.players|)
  }

  /** The seat after `seat` around a table of `seats`, wrapping to 0. */
  function NextSeat(seat: int, seats: nat): nat
    requires seats >= 1
  {
    (seat + 1) % seats
  }

  /** The round ends when a wake-up was called and the turn comes back to
      the caller's seat. */
  predicate RoundEndsAtTurnEnd(s: GameState)
    requires |s.players| >= 1 && 0 <= s.activePlayerIndex
  {
    s.wakeUpCalledBy.Some? && FindPlayerIndex(s.players, s.wakeUpCalledBy.value) == Some(NextIndex(s))
  }

  /** The first part of `endTurn`: clears the turn's transient state,
      passes the turn to the next seat and ends the round when that seat is
      the wake-up caller's. */
  function CloseTurn(s: GameState): (r: GameState)
    requires WellFormed(s)
    ensures WellFormed(r) && SameSeats(s, r)
    ensures r == s.(players := r.players, phase := r.phase,
                    turnPhase := Draw, drawnCard := None, pendingEffect := None,
                    activePlayerIndex := NextIndex(s))
    ensures RoundEndsAtTurnEnd(s) ==>
              r.players == EndRound(s).players && r.phase == EndRound(s).phase
    ensures !RoundEndsAtTurnEnd(s) ==> r.phase == s.phase && r.players == s.players
    ensures s.drawnCard.None? ==> CardsInPlay(r) == CardsInPlay(s)
  {
    var t := s.(turnPhase := Draw, drawnCard := None, pendingEffect := None, activePlayerIndex := NextIndex(s));
    if RoundEndsAtTurnEnd(s) then
      var u := EndRound(t);
      assert u.players == EndRound(s).players;
      u
    else
      t
  }

  /** `endTurn`: closes the turn as `CloseTurn` does, then reshuffles if the
      deck ran out. */
  function EndTurn(s: GameState, rng: Rng): (r: GameState)
    requires WellFormed(s)
    ensures WellFormed(r) && SameSeats(s, r)
    ensures r.turnPhase == Draw && r.drawnCard.None? && r.pendingEffect.None?
    ensures r.activePlayerIndex == NextIndex(s)
    ensures r.wakeUpCalledBy == s.wakeUpCalledBy && r.version == s.version
    ensures r == s.(players := r.players, phase := r.phase, deck := r.deck, discard := r.discard,
                    turnPhase := Draw, drawnCard := None, pendingEffect := None,
                    activePlayerIndex := NextIndex(s))
    ensures RoundEndsAtTurnEnd(s) ==>
              r.players == EndRound(s).players && r.phase == EndRound(s).phase
    ensures !RoundEndsAtTurnEnd(s) ==> r.phase == s.phase && r.players == s.players
    ensures s.drawnCard.None? ==> CardsInPlay(r) == CardsInPlay(s)
    ensures |s.deck| == 0 && |s.discard| > 1 ==>
              r.discard == [s.discard[|s.discard| - 1]]
              && multiset(r.deck) == multiset(s.discard[..|s.discard| - 1])
    ensures !(|s.deck| == 0 && |s.discard| > 1) ==> r.deck == s.deck && r.discard == s.discard
  {
    Reshuffle(CloseTurn(s), rng)
  }

  // ---------------------------------------------------------------------------
  // Transitions, one per action kind

  /** ACKNOWLEDGE_INITIAL_PEEK by the player at seat `i`; play starts once
      every seat has acknowledged. */
  function Acknowledge(s: GameState, i: nat): (r: GameState)
    requires i < |s.players|
    ensures r == s.(players := r.players, phase := r.phase)
    ensures |r.players| == |s.players|
    ensures forall j :: 0 <= j < |s.players| ==>
              r.players[j] == if j == i then s.players[j].(hasSeenInitialCards := true) else s.players[j]
    ensures r.phase != s.phase ==> r.phase == Playing
    ensures (forall j :: 0 <= j < |r.players| ==> r.players[j].hasSeenInitialCards) ==> r.phase == Playing
    ensures !(forall j :: 0 <= j < |r.players| ==> r.players[j].hasSeenInitialCards) ==> r.phase == s.phase
  {
    var players := s.players[i := s.players[i].(hasSeenInitialCards := true)];
    var allSeen := forall j :: 0 <= j < |players| ==> players[j].hasSeenInitialCards;
    s.(players := players, phase := if allSeen then Playing else s.phase)
  }

  /** DRAW_FROM_DECK: the top of the deck becomes the held card. */
  function DrawDeck(s: GameState): (r: GameState)
    requires |s.deck| > 0
    ensures r == s.(deck := r.deck, drawnCard := r.drawnCard, turnPhase := Action)
    ensures r.drawnCard.Some? && r.deck + [r.drawnCard.value] == s.deck
    ensures s.drawnCard.None? ==> CardsInPlay(r) == CardsInPlay(s)
  {
    var n := |s.deck| - 1;
    assert s.deck == s.deck[..n] + [s.deck[n]];
    s.(deck := s.deck[..n], drawnCard := Some(s.deck[n]), turnPhase := Action)
  }

  /** DRAW_FROM_DISCARD: the top of the discard pile becomes the held card. */
  function DrawDiscard(s: GameState): (r: GameState)
    requires |s.discard| > 0
    ensures r == s.(discard := r.discard, drawnCard := r.drawnCard, turnPhase := Action)
    ensures r.drawnCard.Some? && r.discard + [r.drawnCard.value] == s.discard
    ensures s.drawnCard.None? ==> CardsInPlay(r) == CardsInPlay(s)
  {
    var n := |s.discard| - 1;
    assert s.discard == s.discard[..n] + [s.discard[n]];
    s.(discard := s.discard[..n], drawnCard := Some(s.discard[n]), turnPhase := Action)
  }

  /** The state after REPLACE_DREAM_SLOT and before the turn ends: the held
      card goes into slot `k` of seat `i`, the card it displaces (if any) onto
      the discard pile. */
  function PlaceDrawnCard(s: GameState, i: nat, k: nat): (r: GameState)
    requires WellFormed(s) && i < |s.players| && ValidSlot(k)
    ensures WellFormed(r) && SameSeats(s, r) && r.version == s.version
    ensures r == s.(players := r.players, discard := r.discard, drawnCard := None)
    ensures r.players[i].dreamSlots[k] == s.players[i].dreamSlots[k].(card := s.drawnCard)
    ensures forall j, m :: 0 <= j < |s.players| && 0 <= m < SlotCount && (j, m) != (i, k) ==>
              r.players[j].dreamSlots[m] == s.players[j].dreamSlots[m]
    ensures r.discard == s.discard + OptionSeq(s.players[i].dreamSlots[k].card)
  {
    var t := SetSlotCard(s, i, k, s.drawnCard);
    t.(discard := t.discard + OptionSeq(s.players[i].dreamSlots[k].card), drawnCard := None)
  }

  /** Placing the held card keeps every card in play: the held card enters
      the slot and the displaced card enters the discard pile. */
  lemma PlaceDrawnCardConserves(s: GameState, i: nat, k: nat)
    requires WellFormed(s) && i < |s.players| && ValidSlot(k)
    ensures CardsInPlay(PlaceDrawnCard(s, i, k)) == CardsInPlay(s)
  {
    var displaced := OptionCards(s.players[i].dreamSlots[k].card);
    var held := OptionCards(s.drawnCard);
    var r := PlaceDrawnCard(s, i, k);
    SetSlotCardCards(s, i, k, s.drawnCard);
    var pr, ps := PlayersCards(r.players), PlayersCards(s.players);
    assert pr + displaced == ps + held;
    assert multiset(r.discard) == multiset(s.discard) + displaced;
    ShiftIntoDiscard(multiset(s.deck), multiset(s.discard), pr, ps, displaced, held);
  }

  /** A card leaving the slots for the discard pile while the held card
      enters the slots keeps the total. */
  lemma ShiftIntoDiscard<T>(d: multiset<T>, x: multiset<T>, pr: multiset<T>, ps: multiset<T>, o: multiset<T>, h: multiset<T>)
    requires pr + o == ps + h
    ensures d + (x + o) + pr + multiset{} == d + x + ps + h
  {
    forall e
      ensures (d + (x + o) + pr + multiset{})[e] == (d + x + ps + h)[e]
    {
      assert (pr + o)[e] == (ps + h)[e];
    }
  }

  /** REPLACE_DREAM_SLOT, then the end of the turn. */
  function Replace(s: GameState, i: nat, k: nat, rng: Rng): (r: GameState)
    requires WellFormed(s) && i < |s.players| && ValidSlot(k)
    ensures WellFormed(r) && SameSeats(s, r) && r.version == s.version
  {
    EndTurn(PlaceDrawnCard(s, i, k), rng)
  }

  /** DISCARD_DRAWN_CARD before the end of the turn: the held card, if any,
      goes onto the discard pile. */
  function DropDrawnCard(s: GameState): (r: GameState)
    ensures r == s.(discard := r.discard, drawnCard := None)
    ensures r.discard == s.discard + OptionSeq(s.drawnCard)
    ensures CardsInPlay(r) == CardsInPlay(s)
  {
    match s.drawnCard
    case None => s
    case Some(c) => s.(discard := s.discard + [c], drawnCard := None)
  }

  /** DISCARD_DRAWN_CARD, then the end of the turn. */
  function DiscardDrawn(s: GameState, rng: Rng): (r: GameState)
    requires WellFormed(s)
    ensures WellFormed(r) && SameSeats(s, r) && r.version == s.version
  {
    EndTurn(DropDrawnCard(s), rng)
  }

  /** The selection a new pending effect first waits for. */
  function FirstAwaiting(e: EffectType): Awaiting
  {
    if e == PeekOwn then OwnSlot else OtherSlot
  }

  /** USE_CARD_EFFECT: the held card is discarded and its effect becomes
      pending, owned by the acting player, with nothing selected yet. */
  function UseEffect(s: GameState, pid: PlayerId): (r: GameState)
    requires WellFormed(s)
    ensures WellFormed(r) && SameSeats(s, r) && r.version == s.version
    ensures CardsInPlay(r) == CardsInPlay(s)
    ensures s.drawnCard.None? ==> r == s
    ensures s.drawnCard.Some? ==>
              r == s.(discard := s.discard + [s.drawnCard.value], drawnCard := None,
                      pendingEffect := r.pendingEffect, turnPhase := Effect)
    ensures s.drawnCard.Some? ==>
              r.pendingEffect.Some? && r.pendingEffect.value.sourcePlayerId == pid
              && r.pendingEffect.value.selectedSlots == [] && r.pendingEffect.value.peekedCard.None?
    ensures s.drawnCard.Some? ==>
              r.pendingEffect.value.effectType == GetEffectType(s.drawnCard.value)
              && (r.pendingEffect.value.effectType == PeekOwn ==> r.pendingEffect.value.awaitingSelection == Some(OwnSlot))
              && (r.pendingEffect.value.effectType != PeekOwn ==> r.pendingEffect.value.awaitingSelection == Some(OtherSlot))
  {
    match s.drawnCard
    case None => s
    case Some(c) =>
      var e := GetEffectType(c);
      s.(discard := s.discard + [c], drawnCard := None,
         pendingEffect := Some(PendingEffect(e, pid, [], None, Some(FirstAwaiting(e)))),
         turnPhase := Effect)
  }

  /** DECLARE_WAKE_UP: records the caller and moves to the action phase.
      The round does not end here: no turn passes, no card moves and the
      phase stays as it was. */
  function CallWakeUp(s: GameState, pid: PlayerId): (r: GameState)
    ensures r == s.(wakeUpCalledBy := Some(pid), turnPhase := Action)
    ensures WellFormed(s) ==> WellFormed(r) && SameSeats(s, r)
    ensures CardsInPlay(r) == CardsInPlay(s)
    ensures r.phase == s.phase && r.players == s.players && r.activePlayerIndex == s.activePlayerIndex
    ensures r.drawnCard == s.drawnCard && r.pendingEffect == s.pendingEffect
  {
    s.(wakeUpCalledBy := Some(pid), turnPhase := Action)
  }

  /** SELECT_OWN_SLOT on slot `k` of the acting player (seat `i`): records the
      selection; a peek-own effect peeks the slot's card and waits for nothing
      more, a swap effect then waits for another player's slot. */
  function SelectOwn(s: GameState, i: nat, pid: PlayerId, k: int): (r: GameState)
    requires WellFormed(s) && i < |s.players| && ValidSlot(k)
    ensures WellFormed(r) && SameSeats(s, r) && r.version == s.version
    ensures r == s.(pendingEffect := r.pendingEffect)
    ensures s.pendingEffect.None? ==> r == s
    ensures s.pendingEffect.Some? ==>
              r.pendingEffect.Some?
              && r.pendingEffect.value.selectedSlots == s.pendingEffect.value.selectedSlots + [SlotRef(pid, k)]
              && r.pendingEffect.value.effectType == s.pendingEffect.value.effectType
              && r.pendingEffect.value.sourcePlayerId == s.pendingEffect.value.sourcePlayerId
    ensures s.pendingEffect.Some? && s.pendingEffect.value.effectType == PeekOwn ==>
              r.pendingEffect.value.peekedCard == s.players[i].dreamSlots[k].card
              && r.pendingEffect.value.awaitingSelection.None?
    ensures s.pendingEffect.Some? && (s.pendingEffect.value.effectType == SwapBlind || s.pendingEffect.value.effectType == SwapPeek) ==>
              r.pendingEffect.value.peekedCard == s.pendingEffect.value.peekedCard
              && r.pendingEffect.value.awaitingSelection == Some(OtherSlot)
    ensures s.pendingEffect.Some? && s.pendingEffect.value.effectType !in {PeekOwn, SwapBlind, SwapPeek} ==>
              r.pendingEffect.value.peekedCard == s.pendingEffect.value.peekedCard
              && r.pendingEffect.value.awaitingSelection == s.pendingEffect.value.awaitingSelection
  {
    match s.pendingEffect
    case None => s
    case Some(pe) =>
      var sel := pe.selectedSlots + [SlotRef(pid, k)];
      var next :=
        if pe.effectType == PeekOwn then
          pe.(selectedSlots := sel, peekedCard := s.players[i].dreamSlots[k].card, awaitingSelection := None)
        else if pe.effectType == SwapBlind || pe.effectType == SwapPeek then
          pe.(selectedSlots := sel, awaitingSelection := Some(OtherSlot))
        else pe.(selectedSlots := sel);
      assert SelectionsValid(sel);
      WithPending(s, next)
  }

  /** The state with `pe` as its pending effect; nothing else changes. */
  function WithPending(s: GameState, pe: PendingEffect): (r: GameState)
    requires WellFormed(s) && SelectionsValid(pe.selectedSlots)
    ensures WellFormed(r) && SameSeats(s, r) && r.version == s.version
    ensures CardsInPlay(r) == CardsInPlay(s)
    ensures r == s.(pendingEffect := Some(pe))
  {
    s.(pendingEffect := Some(pe))
  }

  /** Whether a turn end closes the round depends only on the seats' ids,
      the active seat and the wake-up caller. */
  lemma RoundEndsAlike(s: GameState, t: GameState)
    requires |s.players| >= 1 && 0 <= s.activePlayerIndex
    requires |t.players| == |s.players| && t.activePlayerIndex == s.activePlayerIndex
    requires t.wakeUpCalledBy == s.wakeUpCalledBy
    requires forall i :: 0 <= i < |s.players| ==> t.players[i].playerId == s.players[i].playerId
    ensures RoundEndsAtTurnEnd(t) == RoundEndsAtTurnEnd(s)
  {
    if s.wakeUpCalledBy.Some? {
      SameIdsSameSeat(t.players, s.players, s.wakeUpCalledBy.value);
    }
  }

  /** The end of a round reads only the seats and the target score. */
  lemma EndRoundReadsScores(s: GameState, t: GameState)
    requires |s.players| >= 1 && t.players == s.players && t.targetScore == s.targetScore
    ensures EndRound(t).players == EndRound(s).players && EndRound(t).phase == EndRound(s).phase
  {
  }

  /** The tail of a completed swap: `performSwap`, the pending effect
      cleared, the end of the turn. */
  function SwapAndEndTurn(s: GameState, sel: seq<SlotRef>, rng: Rng): (r: GameState)
    requires WellFormed(s) && SelectionsValid(sel)
    ensures WellFormed(r) && SameSeats(s, r) && r.version == s.version
    ensures s.drawnCard.None? ==> CardsInPlay(r) == CardsInPlay(s)
    ensures r.turnPhase == Draw && r.pendingEffect.None? && r.activePlayerIndex == NextIndex(s)
    ensures s.wakeUpCalledBy.None? ==> r.phase == s.phase
    ensures s.wakeUpCalledBy.None? && SwapTargets(s, sel).None? ==> r.players == s.players
  {
    var swapped := PerformSwap(s, sel);
    var t := swapped.(pendingEffect := None);
    assert SameSeats(s, t);
    assert CardsInPlay(t) == CardsInPlay(swapped);
    assert t.activePlayerIndex == s.activePlayerIndex && |t.players| == |s.players|;
    assert NextIndex(t) == NextSeat(s.activePlayerIndex, |s.players|);
    var r := EndTurn(t, rng);
    SameSeatsTrans(s, t, r);
    r
  }

  /** What a completed swap leaves in the dream slots: exactly the slots
      `PerformSwap` produced, scored and turned face-up when the turn end
      closes the round. */
  lemma SwapAndEndTurnSlots(s: GameState, sel: seq<SlotRef>, rng: Rng)
    requires WellFormed(s) && SelectionsValid(sel)
    ensures var r := SwapAndEndTurn(s, sel, rng);
            var w := PerformSwap(s, sel);
            (!RoundEndsAtTurnEnd(s) ==> r.players == w.players && r.phase == s.phase)
            && (RoundEndsAtTurnEnd(s) ==> r.players == EndRound(w).players && r.phase == EndRound(w).phase)
  {
    var w := PerformSwap(s, sel);
    var t := w.(pendingEffect := None);
    assert SwapAndEndTurn(s, sel, rng) == EndTurn(t, rng);
    RoundEndsAlike(s, t);
    EndRoundReadsScores(t, w);
  }

  /** A blind swap's selections after another player's slot was added: with
      exactly two the swap runs and the turn ends, otherwise the effect
      waits for an own slot. */
  function BlindSwapSelect(s: GameState, pe: PendingEffect, sel: seq<SlotRef>, rng: Rng): (r: GameState)
    requires WellFormed(s) && SelectionsValid(sel)
    ensures WellFormed(r) && SameSeats(s, r) && r.version == s.version
    ensures s.drawnCard.None? ==> CardsInPlay(r) == CardsInPlay(s)
  {
    if |sel| == 2 then SwapAndEndTurn(s, sel, rng)
    else WithPending(s, pe.(selectedSlots := sel, awaitingSelection := Some(OwnSlot)))
  }

  /** SELECT_OTHER_SLOT on slot `k` of `target`'s seat. An unseated target
      changes nothing. Otherwise the selection is recorded; a peek-other
      effect peeks the card, a blind swap with exactly two selections swaps
      them and ends the turn (and otherwise waits for an own slot), a
      peek-swap peeks the card and waits for confirmation; any other effect
      only records the selection. */
  function SelectOther(s: GameState, target: PlayerId, k: int, rng: Rng): (r: GameState)
    requires WellFormed(s) && ValidSlot(k)
    ensures WellFormed(r) && SameSeats(s, r) && r.version == s.version
    ensures s.drawnCard.None? ==> CardsInPlay(r) == CardsInPlay(s)
    ensures s.pendingEffect.None? || FindPlayerIndex(s.players, target).None? ==> r == s
  {
    match s.pendingEffect
    case None => s
    case Some(pe) =>
      match FindPlayerIndex(s.players, target)
      case None => s
      case Some(ti) =>
        var sel := pe.selectedSlots + [SlotRef(target, k)];
        assert SelectionsValid(sel);
        var card := s.players[ti].dreamSlots[k].card;
        if pe.effectType == PeekOther then
          WithPending(s, pe.(selectedSlots := sel, peekedCard := card, awaitingSelection := None))
        else if pe.effectType == SwapBlind then
          BlindSwapSelect(s, pe, sel, rng)
        else if pe.effectType == SwapPeek then
          WithPending(s, pe.(selectedSlots := sel, peekedCard := card, awaitingSelection := Some(Awaiting.ConfirmSwap)))
        else
          WithPending(s, pe.(selectedSlots := sel))
  }

  /** CONFIRM_SWAP: with one selection the effect waits for an own slot;
      with more, the selections go to `performSwap` and the turn ends; with
      none, nothing changes. */
  function Confirm(s: GameState, rng: Rng): (r: GameState)
    requires WellFormed(s)
    ensures WellFormed(r) && SameSeats(s, r) && r.version == s.version
    ensures s.drawnCard.None? ==> CardsInPlay(r) == CardsInPlay(s)
  {
    match s.pendingEffect
    case None => s
    case Some(pe) =>
      if |pe.selectedSlots| >= 1 then
        if |pe.selectedSlots| == 1 then WithPending(s, pe.(awaitingSelection := Some(OwnSlot)))
        else SwapAndEndTurn(s, pe.selectedSlots, rng)
      else s
  }

  /** CANCEL_EFFECT: the pending effect is dropped and the turn ends. */
  function Cancel(s: GameState, rng: Rng): (r: GameState)
    requires WellFormed(s)
    ensures WellFormed(r) && SameSeats(s, r) && r.version == s.version
  {
    EndTurn(s.(pendingEffect := None), rng)
  }

  /** `applyAction`: an action `isActionValid` rejects leaves the state as it
      is; an accepted one bumps the version once and runs its transition. */
  function ApplyAction(s: GameState, pid: PlayerId, a: PlayerAction, rng: Rng): (r: GameState)
    requires WellFormed(s)
    ensures !IsActionValid(s, pid, a) ==> r == s
    ensures IsActionValid(s, pid, a) ==> r.version == s.version + 1
    ensures WellFormed(r) && SameSeats(s, r)
  {
    if !IsActionValid(s, pid, a) then s
    else
      var t := s.(version := s.version + 1);
      var i := FindPlayerIndex(s.players, pid).value;
      match a
      case AcknowledgeInitialPeek => Acknowledge(t, i)
      case DrawFromDeck => DrawDeck(t)
      case DrawFromDiscard => DrawDiscard(t)
      case ReplaceDreamSlot(k) => Replace(t, i, k, rng)
      case DiscardDrawnCard => DiscardDrawn(t, rng)
      case UseCardEffect => UseEffect(t, pid)
      case DeclareWakeUp => CallWakeUp(t, pid)
      case SelectOwnSlot(k) => SelectOwn(t, i, pid, k)
      case SelectOtherSlot(target, k) => SelectOther(t, target, k, rng)
      case ConfirmSwap => Confirm(t, rng)
      case CancelEffect => Cancel(t, rng)
  }
}
