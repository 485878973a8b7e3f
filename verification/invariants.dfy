/** The invariant every state reachable by actions keeps, and what follows
    from it: cards are conserved, only REPLACE_DREAM_SLOT moves a card into
    or out of a dream slot (neither swap effect ever exchanges cards), a
    declared wake-up leaves nobody a valid action, and so the round never
    reaches scoring through actions. */
module Invariants {
  import opened Types
  import opened Cards
  import opened Zones
  import opened Engine

  predicate IsSwapKind(e: EffectType)
  {
    e == SwapBlind || e == SwapPeek
  }

  /** How far a pending effect can have got: only a peek-swap ever waits for
      a confirmation, and then with an odd number of selections; a swap
      effect always waits for something, and waits for another player's slot
      exactly when it holds an even number of selections. */
  predicate PendingShape(pe: PendingEffect)
  {
    (pe.awaitingSelection == Some(Awaiting.ConfirmSwap) ==>
       pe.effectType == SwapPeek && |pe.selectedSlots| % 2 == 1)
    && (IsSwapKind(pe.effectType) ==>
          pe.awaitingSelection.Some?
          && (pe.awaitingSelection == Some(OtherSlot) <==> |pe.selectedSlots| % 2 == 0))
  }

  /** Parity facts about selection counts, kept apart from the large
      contexts where the solver handles `%` poorly. */
  lemma Parity(n: nat)
    ensures n % 2 == 0 || n % 2 == 1
    ensures n % 2 == 0 ==> (n + 1) % 2 == 1 && n != 1
    ensures n % 2 == 1 ==> (n + 1) % 2 == 0 && n != 0 && n != 2
  {
  }

  /** The reachable-state invariant. During the initial peek nothing is held
      or pending; a drawn card is held only in the action phase; an effect is
      pending exactly in the effect phase, with nothing held; after a wake-up
      call the caller is in the action phase holding nothing. */
  predicate Inv(s: GameState)
  {
    WellFormed(s)
    && (s.phase == InitialPeek || s.phase == Playing)
    && s.turnPhase != End
    && (s.phase == InitialPeek ==> s.turnPhase == Draw && s.wakeUpCalledBy.None?)
    && (s.turnPhase == Draw ==> s.drawnCard.None? && s.pendingEffect.None?)
    && (s.turnPhase == Action ==> s.pendingEffect.None?)
    && (s.turnPhase == Effect ==>
          s.drawnCard.None? && s.pendingEffect.Some? && PendingShape(s.pendingEffect.value))
    && (s.wakeUpCalledBy.Some? ==> s.turnPhase == Action && s.drawnCard.None?)
  }

  /** Every seat's slots hold the same card references in `r` as in `s`. */
  predicate SlotCardsUnchanged(s: GameState, r: GameState)
  {
    |r.players| == |s.players|
    && forall i :: 0 <= i < |s.players| ==> SameCards(s.players[i].dreamSlots, r.players[i].dreamSlots)
  }

  /** The turn has passed from `s` to the next seat: still in play, that
      seat draws next, with nothing held or pending. */
  predicate TurnPassed(s: GameState, r: GameState)
  {
    r.phase == Playing && r.turnPhase == Draw && r.drawnCard.None? && r.pendingEffect.None?
    && |s.players| >= 1 && r.activePlayerIndex == NextSeat(s.activePlayerIndex, |s.players|)
  }

  /** The three facts each transition establishes from an invariant state. */
  predicate StepOk(s: GameState, r: GameState)
  {
    Inv(r) && CardsInPlay(r) == CardsInPlay(s)
  }

  // ---------------------------------------------------------------------------
  // The wake-up dead end

  /** Once a wake-up is declared nobody has a valid action: the caller is in
      the action phase holding no card, which every turn action rejects, and
      nothing is pending or left to acknowledge. */
  lemma WakeUpDeadEnd(s: GameState, pid: PlayerId, a: PlayerAction)
    requires Inv(s) && s.wakeUpCalledBy.Some?
    ensures !IsActionValid(s, pid, a)
  {
  }

  /** DECLARE_WAKE_UP records the caller and leaves a state in which every
      action by every player is rejected. */
  lemma DeclareWakeUpStalls(s: GameState, pid: PlayerId, rng: Rng)
    requires Inv(s) && IsActionValid(s, pid, DeclareWakeUp)
    ensures var r := ApplyAction(s, pid, DeclareWakeUp, rng);
            Inv(r) && r.wakeUpCalledBy == Some(pid)
            && forall q, b :: !IsActionValid(r, q, b)
  {
    var r := ApplyAction(s, pid, DeclareWakeUp, rng);
    assert r == s.(version := s.version + 1, wakeUpCalledBy := Some(pid), turnPhase := Action);
    forall q, b
      ensures !IsActionValid(r, q, b)
    {
      WakeUpDeadEnd(r, q, b);
    }
  }

  // ---------------------------------------------------------------------------
  // What an accepted action's guard tells about an invariant state

  /** A valid REPLACE_DREAM_SLOT or DISCARD_DRAWN_CARD comes from the active
      player in play, holding a card, with no wake-up called (a wake-up
      caller holds nothing). */
  lemma HeldCardFacts(s: GameState, pid: PlayerId, a: PlayerAction)
    requires Inv(s) && IsActionValid(s, pid, a) && (a.ReplaceDreamSlot? || a.DiscardDrawnCard? || a.UseCardEffect?)
    ensures s.phase == Playing && s.turnPhase == Action && s.drawnCard.Some?
    ensures s.wakeUpCalledBy.None? && s.pendingEffect.None?
    ensures a.ReplaceDreamSlot? ==> ValidSlot(a.slotIndex)
  {
  }

  /** A valid effect action comes from the owner of a pending effect, which
      an invariant state holds only in the effect phase of play. */
  lemma PendingFacts(s: GameState, pid: PlayerId, a: PlayerAction)
    requires Inv(s) && IsActionValid(s, pid, a) && IsEffectAction(a)
    ensures s.phase == Playing && s.turnPhase == Effect && s.drawnCard.None? && s.wakeUpCalledBy.None?
    ensures s.pendingEffect.Some? && PendingShape(s.pendingEffect.value)
    ensures a.SelectOtherSlot? ==> ValidSlot(a.slotIndex)
  {
  }

  // ---------------------------------------------------------------------------
  // Accepted actions, unfolded to their transitions

  lemma ApplyReplace(s: GameState, pid: PlayerId, k: int, rng: Rng)
    requires WellFormed(s) && IsActionValid(s, pid, ReplaceDreamSlot(k))
    ensures ApplyAction(s, pid, ReplaceDreamSlot(k), rng)
            == Replace(s.(version := s.version + 1), FindPlayerIndex(s.players, pid).value, k, rng)
  {
  }

  lemma ApplyDiscard(s: GameState, pid: PlayerId, rng: Rng)
    requires WellFormed(s) && IsActionValid(s, pid, DiscardDrawnCard)
    ensures ApplyAction(s, pid, DiscardDrawnCard, rng) == EndTurn(DropDrawnCard(s.(version := s.version + 1)), rng)
  {
  }

  lemma ApplyUseEffect(s: GameState, pid: PlayerId, rng: Rng)
    requires WellFormed(s) && IsActionValid(s, pid, UseCardEffect)
    ensures ApplyAction(s, pid, UseCardEffect, rng) == UseEffect(s.(version := s.version + 1), pid)
  {
  }

  lemma ApplyCancel(s: GameState, pid: PlayerId, rng: Rng)
    requires WellFormed(s) && IsActionValid(s, pid, CancelEffect)
    ensures ApplyAction(s, pid, CancelEffect, rng) == EndTurn(s.(version := s.version + 1, pendingEffect := None), rng)
  {
  }

  lemma ApplyConfirm(s: GameState, pid: PlayerId, rng: Rng)
    requires WellFormed(s) && IsActionValid(s, pid, PlayerAction.ConfirmSwap)
    ensures ApplyAction(s, pid, PlayerAction.ConfirmSwap, rng) == Confirm(s.(version := s.version + 1), rng)
  {
  }

  lemma ApplySelectOther(s: GameState, pid: PlayerId, target: PlayerId, k: int, rng: Rng)
    requires WellFormed(s) && IsActionValid(s, pid, SelectOtherSlot(target, k))
    ensures ApplyAction(s, pid, SelectOtherSlot(target, k), rng) == SelectOther(s.(version := s.version + 1), target, k, rng)
  {
  }

  // ---------------------------------------------------------------------------
  // The transitions on invariant-shaped states

  /** Ending a turn in play, with no wake-up called and nothing held, lands
      in an invariant state with the same cards and the same slots, and
      passes the turn to the next seat. */
  lemma EndTurnInPlay(u: GameState, rng: Rng)
    requires WellFormed(u) && u.phase == Playing && u.wakeUpCalledBy.None? && u.drawnCard.None?
    ensures var r := EndTurn(u, rng);
            Inv(r) && CardsInPlay(r) == CardsInPlay(u) && r.players == u.players && TurnPassed(u, r)
  {
  }

  /** REPLACE_DREAM_SLOT in play with no wake-up called: the held card goes
      into slot `k` of seat `i`, every other slot keeps its card, the cards
      in play are the same, and the turn passes on. While the deck still has
      cards the displaced card tops the discard pile. */
  lemma ReplaceInPlay(t: GameState, i: nat, k: int, rng: Rng)
    requires WellFormed(t) && i < |t.players| && ValidSlot(k)
    requires t.phase == Playing && t.wakeUpCalledBy.None?
    ensures var r := Replace(t, i, k, rng);
            Inv(r) && CardsInPlay(r) == CardsInPlay(t)
  {
    var placed := PlaceDrawnCard(t, i, k);
    PlaceDrawnCardConserves(t, i, k);
    EndTurnInPlay(placed, rng);
  }

  lemma ReplaceEndsTurn(t: GameState, i: nat, k: int, rng: Rng)
    requires WellFormed(t) && i < |t.players| && ValidSlot(k)
    requires t.phase == Playing && t.wakeUpCalledBy.None?
    ensures TurnPassed(t, Replace(t, i, k, rng))
  {
    var placed := PlaceDrawnCard(t, i, k);
    assert placed.activePlayerIndex == t.activePlayerIndex && |placed.players| == |t.players|;
    assert placed.wakeUpCalledBy.None? && placed.phase == Playing;
    assert !RoundEndsAtTurnEnd(placed);
  }

  /** Where the cards go on REPLACE_DREAM_SLOT in play: the held card into
      slot `k` of seat `i`, every other slot keeping its card, and, while the
      deck still has cards, the displaced card onto the discard pile. */
  lemma ReplaceSlots(t: GameState, i: nat, k: int, rng: Rng)
    requires WellFormed(t) && i < |t.players| && ValidSlot(k)
    requires t.phase == Playing && t.wakeUpCalledBy.None?
    ensures var r := Replace(t, i, k, rng);
            r.players[i].dreamSlots[k].card == t.drawnCard
            && (forall j, m :: 0 <= j < |t.players| && 0 <= m < SlotCount && (j, m) != (i, k) ==>
                  r.players[j].dreamSlots[m].card == t.players[j].dreamSlots[m].card)
            && (|t.deck| > 0 ==> r.discard == t.discard + OptionSeq(t.players[i].dreamSlots[k].card))
  {
    var placed := PlaceDrawnCard(t, i, k);
    assert !RoundEndsAtTurnEnd(placed);
  }

  /** USE_CARD_EFFECT in play with a card held: the effect opens in a shape
      the invariant admits, with the same cards and the same slots. */
  lemma UseEffectInPlay(t: GameState, pid: PlayerId)
    requires WellFormed(t) && t.phase == Playing && t.turnPhase == Action
    requires t.drawnCard.Some? && t.wakeUpCalledBy.None?
    ensures var r := UseEffect(t, pid);
            Inv(r) && CardsInPlay(r) == CardsInPlay(t) && r.players == t.players
  {
    var r := UseEffect(t, pid);
    assert r.pendingEffect.value.awaitingSelection == Some(FirstAwaiting(r.pendingEffect.value.effectType));
  }

  /** The tail of a swap whose selection does not have exactly two entries:
      `performSwap` changes nothing and the turn ends as usual. */
  lemma StalledSwapInPlay(t: GameState, sel: seq<SlotRef>, rng: Rng)
    requires WellFormed(t) && SelectionsValid(sel) && |sel| != 2
    requires t.phase == Playing && t.wakeUpCalledBy.None? && t.drawnCard.None?
    ensures var r := SwapAndEndTurn(t, sel, rng);
            Inv(r) && CardsInPlay(r) == CardsInPlay(t) && r.players == t.players
            && r.pendingEffect.None? && r.turnPhase == Draw
            && r.activePlayerIndex == NextSeat(t.activePlayerIndex, |t.players|)
  {
    assert SwapTargets(t, sel).None?;
    assert PerformSwap(t, sel) == t;
    EndTurnInPlay(t.(pendingEffect := None), rng);
  }

  /** CONFIRM_SWAP on a peek-swap waiting for confirmation keeps the
      invariant and the cards, and changes no slot. */
  lemma ConfirmInPlay(t: GameState, rng: Rng)
    requires WellFormed(t) && t.phase == Playing && t.turnPhase == Effect
    requires t.wakeUpCalledBy.None? && t.drawnCard.None?
    requires t.pendingEffect.Some? && PendingShape(t.pendingEffect.value)
    requires t.pendingEffect.value.awaitingSelection == Some(Awaiting.ConfirmSwap)
    ensures var r := Confirm(t, rng);
            Inv(r) && CardsInPlay(r) == CardsInPlay(t) && r.players == t.players
  {
    var pe := t.pendingEffect.value;
    Parity(|pe.selectedSlots|);
    if |pe.selectedSlots| != 1 {
      StalledSwapInPlay(t, pe.selectedSlots, rng);
    }
  }

  /** CONFIRM_SWAP with one selection sends the peek-swap back for an own
      slot (the version bump of an accepted action included). */
  lemma ConfirmOneSelection(s: GameState, rng: Rng)
    requires WellFormed(s) && s.pendingEffect.Some? && |s.pendingEffect.value.selectedSlots| == 1
    ensures var r := Confirm(s.(version := s.version + 1), rng);
            r.players == s.players && r.turnPhase == s.turnPhase
            && r.pendingEffect == Some(s.pendingEffect.value.(awaitingSelection := Some(OwnSlot)))
  {
  }

  /** CONFIRM_SWAP with three or more selections (the count of a peek-swap
      waiting for confirmation is odd) ends the turn through a `performSwap`
      that needs exactly two, so no slot changes. */
  lemma ConfirmManySelections(s: GameState, rng: Rng)
    requires WellFormed(s) && s.phase == Playing && s.wakeUpCalledBy.None? && s.drawnCard.None?
    requires s.pendingEffect.Some? && |s.pendingEffect.value.selectedSlots| % 2 == 1
    requires |s.pendingEffect.value.selectedSlots| != 1
    ensures var r := Confirm(s.(version := s.version + 1), rng);
            r.players == s.players && r.pendingEffect.None? && r.turnPhase == Draw
            && r.activePlayerIndex == NextSeat(s.activePlayerIndex, |s.players|)
  {
    var t := s.(version := s.version + 1);
    var pe := s.pendingEffect.value;
    Parity(|pe.selectedSlots|);
    StalledSwapInPlay(t, pe.selectedSlots, rng);
  }

  /** A blind swap that does not hold exactly two selections waits for an
      own slot. */
  lemma BlindSwapWaits(t: GameState, pe: PendingEffect, sel: seq<SlotRef>, rng: Rng)
    requires WellFormed(t) && SelectionsValid(sel) && |sel| != 2
    ensures BlindSwapSelect(t, pe, sel, rng)
            == t.(pendingEffect := Some(pe.(selectedSlots := sel, awaitingSelection := Some(OwnSlot))))
  {
  }

  /** SELECT_OTHER_SLOT on an effect waiting for another player's slot. A
      swap effect then holds an even number of selections, so the new one
      makes the count odd: a blind swap never reaches two selections and
      waits for an own slot, a peek-swap waits for confirmation, a
      peek-other waits for nothing, anything else keeps waiting. */
  lemma SelectOtherInPlay(t: GameState, target: PlayerId, k: int, rng: Rng)
    requires WellFormed(t) && ValidSlot(k) && t.phase == Playing && t.turnPhase == Effect
    requires t.wakeUpCalledBy.None? && t.drawnCard.None?
    requires t.pendingEffect.Some? && PendingShape(t.pendingEffect.value)
    requires t.pendingEffect.value.awaitingSelection == Some(OtherSlot)
    ensures var r := SelectOther(t, target, k, rng);
            var pe := t.pendingEffect.value;
            Inv(r) && CardsInPlay(r) == CardsInPlay(t) && r.players == t.players
            && r == t.(pendingEffect := r.pendingEffect) && r.pendingEffect.Some?
            && (FindPlayerIndex(t.players, target).None? ==> r.pendingEffect == Some(pe))
            && (FindPlayerIndex(t.players, target).Some? ==>
                  r.pendingEffect.value.selectedSlots == pe.selectedSlots + [SlotRef(target, k)]
                  && (pe.effectType == SwapBlind ==> r.pendingEffect.value.awaitingSelection == Some(OwnSlot))
                  && (pe.effectType == SwapPeek ==> r.pendingEffect.value.awaitingSelection == Some(Awaiting.ConfirmSwap))
                  && (pe.effectType == PeekOther ==> r.pendingEffect.value.awaitingSelection.None?)
                  && (!IsSwapKind(pe.effectType) && pe.effectType != PeekOther ==>
                        r.pendingEffect == Some(pe.(selectedSlots := pe.selectedSlots + [SlotRef(target, k)]))))
  {
    var pe := t.pendingEffect.value;
    var r := SelectOther(t, target, k, rng);
    if FindPlayerIndex(t.players, target).Some? {
      var ti := FindPlayerIndex(t.players, target).value;
      var sel := pe.selectedSlots + [SlotRef(target, k)];
      var card := t.players[ti].dreamSlots[k].card;
      if pe.effectType == PeekOther {
        assert r == t.(pendingEffect := Some(pe.(selectedSlots := sel, peekedCard := card, awaitingSelection := None)));
      } else if pe.effectType == SwapBlind {
        assert |pe.selectedSlots| % 2 == 0;
        Parity(|pe.selectedSlots|);
        assert |sel| == |pe.selectedSlots| + 1;
        BlindSwapWaits(t, pe, sel, rng);
        assert r == BlindSwapSelect(t, pe, sel, rng);
      } else if pe.effectType == SwapPeek {
        assert |pe.selectedSlots| % 2 == 0;
        Parity(|pe.selectedSlots|);
        assert |sel| == |pe.selectedSlots| + 1;
        assert r == t.(pendingEffect := Some(pe.(selectedSlots := sel, peekedCard := card,
                                                 awaitingSelection := Some(Awaiting.ConfirmSwap))));
      } else {
        assert r == t.(pendingEffect := Some(pe.(selectedSlots := sel)));
      }
    }
  }

  // ---------------------------------------------------------------------------
  // One lemma per action kind

  lemma AcknowledgeStep(s: GameState, pid: PlayerId, rng: Rng)
    requires Inv(s) && IsActionValid(s, pid, AcknowledgeInitialPeek)
    ensures var r := ApplyAction(s, pid, AcknowledgeInitialPeek, rng);
            StepOk(s, r) && SlotCardsUnchanged(s, r)
  {
    var r := ApplyAction(s, pid, AcknowledgeInitialPeek, rng);
    var i := FindPlayerIndex(s.players, pid).value;
    assert r == Acknowledge(s.(version := s.version + 1), i);
    assert SlotCardsUnchanged(s, r);
    SameCardsPlayersCards(s.players, r.players);
  }

  lemma DrawDeckStep(s: GameState, pid: PlayerId, rng: Rng)
    requires Inv(s) && IsActionValid(s, pid, DrawFromDeck)
    ensures var r := ApplyAction(s, pid, DrawFromDeck, rng);
            StepOk(s, r) && r.players == s.players
  {
    assert ApplyAction(s, pid, DrawFromDeck, rng) == DrawDeck(s.(version := s.version + 1));
  }

  lemma DrawDiscardStep(s: GameState, pid: PlayerId, rng: Rng)
    requires Inv(s) && IsActionValid(s, pid, DrawFromDiscard)
    ensures var r := ApplyAction(s, pid, DrawFromDiscard, rng);
            StepOk(s, r) && r.players == s.players
  {
    assert ApplyAction(s, pid, DrawFromDiscard, rng) == DrawDiscard(s.(version := s.version + 1));
  }

  lemma ReplaceStep(s: GameState, pid: PlayerId, k: int, rng: Rng)
    requires Inv(s) && IsActionValid(s, pid, ReplaceDreamSlot(k))
    ensures StepOk(s, ApplyAction(s, pid, ReplaceDreamSlot(k), rng))
  {
    ApplyReplace(s, pid, k, rng);
    HeldCardFacts(s, pid, ReplaceDreamSlot(k));
    ReplaceInPlay(s.(version := s.version + 1), FindPlayerIndex(s.players, pid).value, k, rng);
  }

  lemma DiscardStep(s: GameState, pid: PlayerId, rng: Rng)
    requires Inv(s) && IsActionValid(s, pid, DiscardDrawnCard)
    ensures var r := ApplyAction(s, pid, DiscardDrawnCard, rng);
            StepOk(s, r) && r.players == s.players
  {
    ApplyDiscard(s, pid, rng);
    HeldCardFacts(s, pid, DiscardDrawnCard);
    EndTurnInPlay(DropDrawnCard(s.(version := s.version + 1)), rng);
  }

  lemma UseEffectStep(s: GameState, pid: PlayerId, rng: Rng)
    requires Inv(s) && IsActionValid(s, pid, UseCardEffect)
    ensures var r := ApplyAction(s, pid, UseCardEffect, rng);
            StepOk(s, r) && r.players == s.players
  {
    ApplyUseEffect(s, pid, rng);
    HeldCardFacts(s, pid, UseCardEffect);
    UseEffectInPlay(s.(version := s.version + 1), pid);
  }

  lemma WakeUpStep(s: GameState, pid: PlayerId, rng: Rng)
    requires Inv(s) && IsActionValid(s, pid, DeclareWakeUp)
    ensures var r := ApplyAction(s, pid, DeclareWakeUp, rng);
            StepOk(s, r) && r.players == s.players
  {
    assert ApplyAction(s, pid, DeclareWakeUp, rng) == CallWakeUp(s.(version := s.version + 1), pid);
  }

  lemma SelectOwnStep(s: GameState, pid: PlayerId, k: int, rng: Rng)
    requires Inv(s) && IsActionValid(s, pid, SelectOwnSlot(k))
    ensures var r := ApplyAction(s, pid, SelectOwnSlot(k), rng);
            StepOk(s, r) && r.players == s.players
  {
    var i := FindPlayerIndex(s.players, pid).value;
    var r := ApplyAction(s, pid, SelectOwnSlot(k), rng);
    assert r == SelectOwn(s.(version := s.version + 1), i, pid, k);
    var pe := s.pendingEffect.value;
    var next := r.pendingEffect.value;
    assert |next.selectedSlots| == |pe.selectedSlots| + 1;
    Parity(|pe.selectedSlots|);
    if IsSwapKind(pe.effectType) {
      assert next.awaitingSelection == Some(OtherSlot);
    } else if pe.effectType == PeekOwn {
      assert next.awaitingSelection.None?;
    } else {
      assert next.awaitingSelection == pe.awaitingSelection;
    }
  }

  lemma SelectOtherStep(s: GameState, pid: PlayerId, target: PlayerId, k: int, rng: Rng)
    requires Inv(s) && IsActionValid(s, pid, SelectOtherSlot(target, k))
    ensures var r := ApplyAction(s, pid, SelectOtherSlot(target, k), rng);
            StepOk(s, r) && r.players == s.players && r.pendingEffect.Some?
  {
    ApplySelectOther(s, pid, target, k, rng);
    PendingFacts(s, pid, SelectOtherSlot(target, k));
    SelectOtherInPlay(s.(version := s.version + 1), target, k, rng);
  }

  lemma ConfirmStep(s: GameState, pid: PlayerId, rng: Rng)
    requires Inv(s) && IsActionValid(s, pid, PlayerAction.ConfirmSwap)
    ensures var r := ApplyAction(s, pid, PlayerAction.ConfirmSwap, rng);
            StepOk(s, r) && r.players == s.players
  {
    ApplyConfirm(s, pid, rng);
    PendingFacts(s, pid, PlayerAction.ConfirmSwap);
    ConfirmInPlay(s.(version := s.version + 1), rng);
  }

  lemma CancelStep(s: GameState, pid: PlayerId, rng: Rng)
    requires Inv(s) && IsActionValid(s, pid, CancelEffect)
    ensures var r := ApplyAction(s, pid, CancelEffect, rng);
            StepOk(s, r) && r.players == s.players
  {
    ApplyCancel(s, pid, rng);
    PendingFacts(s, pid, CancelEffect);
    EndTurnInPlay(s.(version := s.version + 1, pendingEffect := None), rng);
  }

  // ---------------------------------------------------------------------------
  // The invariant and its consequences

  /** Every action, accepted or rejected, keeps the invariant and conserves
      the cards: a rejected one changes nothing, an accepted one moves cards
      between zones without creating or losing any. */
  lemma {:induction false} ApplyPreservesInv(s: GameState, pid: PlayerId, a: PlayerAction, rng: Rng)
    requires Inv(s)
    ensures var r := ApplyAction(s, pid, a, rng);
            Inv(r) && CardsInPlay(r) == CardsInPlay(s)
  {
    if IsActionValid(s, pid, a) {
      match a
      case AcknowledgeInitialPeek => AcknowledgeStep(s, pid, rng);
      case DrawFromDeck => DrawDeckStep(s, pid, rng);
      case DrawFromDiscard => DrawDiscardStep(s, pid, rng);
      case ReplaceDreamSlot(k) => ReplaceStep(s, pid, k, rng);
      case DiscardDrawnCard => DiscardStep(s, pid, rng);
      case UseCardEffect => UseEffectStep(s, pid, rng);
      case DeclareWakeUp => WakeUpStep(s, pid, rng);
      case SelectOwnSlot(k) => SelectOwnStep(s, pid, k, rng);
      case SelectOtherSlot(target, k) => SelectOtherStep(s, pid, target, k, rng);
      case ConfirmSwap => ConfirmStep(s, pid, rng);
      case CancelEffect => CancelStep(s, pid, rng);
    }
  }

  /** No action ever moves a card into or out of a dream slot except
      REPLACE_DREAM_SLOT: both swap effects stall before exchanging, and the
      round, whose scoring flips slots, never ends. */
  lemma {:induction false} OnlyReplaceMovesSlotCards(s: GameState, pid: PlayerId, a: PlayerAction, rng: Rng)
    requires Inv(s) && !a.ReplaceDreamSlot?
    ensures SlotCardsUnchanged(s, ApplyAction(s, pid, a, rng))
  {
    var r := ApplyAction(s, pid, a, rng);
    if !IsActionValid(s, pid, a) {
      SamePlayersSameSlotCards(s, r);
    } else if a.AcknowledgeInitialPeek? {
      AcknowledgeStep(s, pid, rng);
    } else {
      match a {
        case AcknowledgeInitialPeek =>
        case DrawFromDeck => DrawDeckStep(s, pid, rng);
        case DrawFromDiscard => DrawDiscardStep(s, pid, rng);
        case DiscardDrawnCard => DiscardStep(s, pid, rng);
        case UseCardEffect => UseEffectStep(s, pid, rng);
        case DeclareWakeUp => WakeUpStep(s, pid, rng);
        case SelectOwnSlot(k) => SelectOwnStep(s, pid, k, rng);
        case SelectOtherSlot(target, k) => SelectOtherStep(s, pid, target, k, rng);
        case ConfirmSwap => ConfirmStep(s, pid, rng);
        case CancelEffect => CancelStep(s, pid, rng);
      }
      SamePlayersSameSlotCards(s, r);
    }
  }

  lemma SamePlayersSameSlotCards(s: GameState, r: GameState)
    requires r.players == s.players
    ensures SlotCardsUnchanged(s, r)
  {
    forall i | 0 <= i < |s.players|
      ensures SameCards(s.players[i].dreamSlots, r.players[i].dreamSlots)
    {
    }
  }

  /** The blind swap never completes: from an invariant state, choosing
      another player's slot for a blind swap keeps the effect pending (now
      waiting for an own slot) and exchanges nothing. */
  lemma BlindSwapNeverCompletes(s: GameState, pid: PlayerId, target: PlayerId, k: int, rng: Rng)
    requires Inv(s) && IsActionValid(s, pid, SelectOtherSlot(target, k))
    requires s.pendingEffect.value.effectType == SwapBlind
    ensures var r := ApplyAction(s, pid, SelectOtherSlot(target, k), rng);
            r.players == s.players && r.pendingEffect.Some? && r.turnPhase == Effect
            && r.activePlayerIndex == s.activePlayerIndex
            && (FindPlayerIndex(s.players, target).Some? ==>
                  r.pendingEffect.value.awaitingSelection == Some(OwnSlot))
  {
    ApplySelectOther(s, pid, target, k, rng);
    PendingFacts(s, pid, SelectOtherSlot(target, k));
    SelectOtherInPlay(s.(version := s.version + 1), target, k, rng);
  }

  /** The peek-swap never exchanges: confirming either asks for an own slot
      (one selection) or ends the turn with every slot as it was. */
  lemma PeekSwapNeverExchanges(s: GameState, pid: PlayerId, rng: Rng)
    requires Inv(s) && IsActionValid(s, pid, PlayerAction.ConfirmSwap)
    ensures var r := ApplyAction(s, pid, PlayerAction.ConfirmSwap, rng);
            r.players == s.players
            && (|s.pendingEffect.value.selectedSlots| == 1 ==>
                  r.pendingEffect.Some? && r.pendingEffect.value.awaitingSelection == Some(OwnSlot))
            && (|s.pendingEffect.value.selectedSlots| != 1 ==>
                  r.pendingEffect.None? && r.turnPhase == Draw
                  && r.activePlayerIndex == NextSeat(s.activePlayerIndex, |s.players|))
  {
    ApplyConfirm(s, pid, rng);
    PendingFacts(s, pid, PlayerAction.ConfirmSwap);
    if |s.pendingEffect.value.selectedSlots| == 1 {
      ConfirmOneSelection(s, rng);
    } else {
      ConfirmManySelections(s, rng);
    }
  }

  /** Effects without a resolution branch (the catalog's take-two and
      peek-any, no effect, dark gift) fall through SELECT_OTHER_SLOT: the
      selection is recorded (when the target is seated) and nothing else
      happens. */
  lemma UnresolvedEffectsOnlyRecord(s: GameState, pid: PlayerId, target: PlayerId, k: int, rng: Rng)
    requires Inv(s) && IsActionValid(s, pid, SelectOtherSlot(target, k))
    requires s.pendingEffect.value.effectType in {NoEffect, DarkGift, TakeTwo, PeekAny}
    ensures var r := ApplyAction(s, pid, SelectOtherSlot(target, k), rng);
            var pe := s.pendingEffect.value;
            r == s.(version := s.version + 1, pendingEffect := r.pendingEffect)
            && r.pendingEffect == Some(if FindPlayerIndex(s.players, target).Some?
                                       then pe.(selectedSlots := pe.selectedSlots + [SlotRef(target, k)])
                                       else pe)
  {
    ApplySelectOther(s, pid, target, k, rng);
    PendingFacts(s, pid, SelectOtherSlot(target, k));
    SelectOtherInPlay(s.(version := s.version + 1), target, k, rng);
  }

  /** SELECT_OWN_SLOT records the acting player's slot. A peek-own effect
      shows that slot's card and waits for nothing more; a swap effect then
      waits for another player's slot; any other effect kind keeps what it
      was waiting for. The dream slots and the turn do not move. */
  lemma SelectOwnSlotEffect(s: GameState, pid: PlayerId, k: int, rng: Rng)
    requires Inv(s) && IsActionValid(s, pid, SelectOwnSlot(k))
    ensures var r := ApplyAction(s, pid, SelectOwnSlot(k), rng);
            var i := FindPlayerIndex(s.players, pid).value;
            var pe := s.pendingEffect.value;
            i < |s.players| && ValidSlot(k)
            && r == s.(version := s.version + 1, pendingEffect := r.pendingEffect) && r.pendingEffect.Some?
            && r.pendingEffect.value.selectedSlots == pe.selectedSlots + [SlotRef(pid, k)]
            && (pe.effectType == PeekOwn ==>
                  r.pendingEffect.value.peekedCard == s.players[i].dreamSlots[k].card
                  && r.pendingEffect.value.awaitingSelection.None?)
            && (IsSwapKind(pe.effectType) ==>
                  r.pendingEffect.value == pe.(selectedSlots := pe.selectedSlots + [SlotRef(pid, k)],
                                               awaitingSelection := Some(OtherSlot)))
            && (pe.effectType != PeekOwn && !IsSwapKind(pe.effectType) ==>
                  r.pendingEffect.value == pe.(selectedSlots := pe.selectedSlots + [SlotRef(pid, k)]))
  {
    var i := FindPlayerIndex(s.players, pid).value;
    assert ApplyAction(s, pid, SelectOwnSlot(k), rng) == SelectOwn(s.(version := s.version + 1), i, pid, k);
  }

  /** USE_CARD_EFFECT discards the held card and opens its effect: owned by
      the actor, nothing selected or peeked, waiting for an own slot only for
      peek-own. The catalog's three effect cards open take-two, peek-any and
      blind swap, each waiting for another player's slot. */
  lemma UseEffectOpensPending(s: GameState, pid: PlayerId, rng: Rng)
    requires Inv(s) && IsActionValid(s, pid, UseCardEffect)
    ensures var r := ApplyAction(s, pid, UseCardEffect, rng);
            var c := s.drawnCard.value;
            var e := GetEffectType(c);
            r.discard == s.discard + [c] && r.drawnCard.None? && r.turnPhase == Effect
            && r.activePlayerIndex == s.activePlayerIndex
            && r.pendingEffect == Some(PendingEffect(e, pid, [], None, Some(if e == PeekOwn then OwnSlot else OtherSlot)))
            && (c.definitionId == Take2 ==> e == TakeTwo && r.pendingEffect.value.awaitingSelection == Some(OtherSlot))
            && (c.definitionId == Peek1 ==> e == PeekAny && r.pendingEffect.value.awaitingSelection == Some(OtherSlot))
            && (c.definitionId == Swap2 ==> e == SwapBlind && r.pendingEffect.value.awaitingSelection == Some(OtherSlot))
  {
  }

  lemma ReplacePassesTurn(s: GameState, pid: PlayerId, k: int, rng: Rng)
    requires Inv(s) && IsActionValid(s, pid, ReplaceDreamSlot(k))
    ensures TurnPassed(s, ApplyAction(s, pid, ReplaceDreamSlot(k), rng))
  {
    ApplyReplace(s, pid, k, rng);
    HeldCardFacts(s, pid, ReplaceDreamSlot(k));
    ReplaceEndsTurn(s.(version := s.version + 1), FindPlayerIndex(s.players, pid).value, k, rng);
  }

  lemma DiscardPassesTurn(s: GameState, pid: PlayerId, rng: Rng)
    requires Inv(s) && IsActionValid(s, pid, DiscardDrawnCard)
    ensures TurnPassed(s, ApplyAction(s, pid, DiscardDrawnCard, rng))
  {
    ApplyDiscard(s, pid, rng);
    HeldCardFacts(s, pid, DiscardDrawnCard);
    EndTurnInPlay(DropDrawnCard(s.(version := s.version + 1)), rng);
  }

  lemma CancelPassesTurn(s: GameState, pid: PlayerId, rng: Rng)
    requires Inv(s) && IsActionValid(s, pid, CancelEffect)
    ensures TurnPassed(s, ApplyAction(s, pid, CancelEffect, rng))
  {
    ApplyCancel(s, pid, rng);
    PendingFacts(s, pid, CancelEffect);
    EndTurnInPlay(s.(version := s.version + 1, pendingEffect := None), rng);
  }

  /** REPLACE_DREAM_SLOT, DISCARD_DRAWN_CARD and CANCEL_EFFECT end the turn:
      the next seat draws, with nothing held or pending, still in play. */
  lemma TurnEndingActionsPassTurn(s: GameState, pid: PlayerId, a: PlayerAction, rng: Rng)
    requires Inv(s) && IsActionValid(s, pid, a)
    requires a.ReplaceDreamSlot? || a.DiscardDrawnCard? || a.CancelEffect?
    ensures var r := ApplyAction(s, pid, a, rng);
            r.turnPhase == Draw && r.drawnCard.None? && r.pendingEffect.None?
            && r.activePlayerIndex == NextSeat(s.activePlayerIndex, |s.players|)
            && r.phase == Playing
  {
    match a
    case ReplaceDreamSlot(k) => ReplacePassesTurn(s, pid, k, rng);
    case DiscardDrawnCard => DiscardPassesTurn(s, pid, rng);
    case CancelEffect => CancelPassesTurn(s, pid, rng);
  }

  /** Drawing from the deck: valid exactly for the active player at the
      start of a turn in play with a non-empty deck; the top card becomes
      the held card and the action phase begins. */
  lemma DrawFromDeckEffect(s: GameState, pid: PlayerId, rng: Rng)
    requires Inv(s)
    ensures IsActionValid(s, pid, DrawFromDeck) <==>
              IsActivePlayer(s, pid) && s.phase == Playing && s.turnPhase == Draw && |s.deck| > 0
    ensures IsActionValid(s, pid, DrawFromDeck) ==>
              var r := ApplyAction(s, pid, DrawFromDeck, rng);
              r.drawnCard == Some(s.deck[|s.deck| - 1]) && r.deck == s.deck[..|s.deck| - 1]
              && r.turnPhase == Action && r.discard == s.discard && r.players == s.players
  {
    if IsActivePlayer(s, pid) {
      assert FindPlayerIndex(s.players, pid).Some?;
    }
    if IsActionValid(s, pid, DrawFromDeck) {
      var r := ApplyAction(s, pid, DrawFromDeck, rng);
      assert r.deck + [r.drawnCard.value] == s.deck;
      assert r.deck == s.deck[..|s.deck| - 1];
    }
  }

  /** Drawing from the discard pile: the same guard with a non-empty pile;
      its top card becomes the held card. */
  lemma DrawFromDiscardEffect(s: GameState, pid: PlayerId, rng: Rng)
    requires Inv(s)
    ensures IsActionValid(s, pid, DrawFromDiscard) <==>
              IsActivePlayer(s, pid) && s.phase == Playing && s.turnPhase == Draw && |s.discard| > 0
    ensures IsActionValid(s, pid, DrawFromDiscard) ==>
              var r := ApplyAction(s, pid, DrawFromDiscard, rng);
              r.drawnCard == Some(s.discard[|s.discard| - 1]) && r.discard == s.discard[..|s.discard| - 1]
              && r.turnPhase == Action && r.deck == s.deck && r.players == s.players
  {
    if IsActivePlayer(s, pid) {
      assert FindPlayerIndex(s.players, pid).Some?;
    }
    if IsActionValid(s, pid, DrawFromDiscard) {
      var r := ApplyAction(s, pid, DrawFromDiscard, rng);
      assert r.discard + [r.drawnCard.value] == s.discard;
      assert r.discard == s.discard[..|s.discard| - 1];
    }
  }

  /** REPLACE_DREAM_SLOT puts the held card into the chosen slot of the
      actor's seat and leaves every other slot alone; while the deck still
      has cards the displaced card tops the discard pile. */
  lemma ReplaceDreamSlotEffect(s: GameState, pid: PlayerId, k: int, rng: Rng)
    requires Inv(s) && IsActionValid(s, pid, ReplaceDreamSlot(k))
    ensures var r := ApplyAction(s, pid, ReplaceDreamSlot(k), rng);
            var i := FindPlayerIndex(s.players, pid).value;
            WellFormed(r) && SameSeats(s, r) && i < |s.players| && ValidSlot(k)
            && r.players[i].dreamSlots[k].card == s.drawnCard
            && (forall j, m :: 0 <= j < |s.players| && 0 <= m < SlotCount && (j, m) != (i, k) ==>
                  r.players[j].dreamSlots[m].card == s.players[j].dreamSlots[m].card)
            && (|s.deck| > 0 ==> r.discard == s.discard + OptionSeq(s.players[i].dreamSlots[k].card))
  {
    ApplyReplace(s, pid, k, rng);
    HeldCardFacts(s, pid, ReplaceDreamSlot(k));
    ReplaceSlots(s.(version := s.version + 1), FindPlayerIndex(s.players, pid).value, k, rng);
  }

  /** ACKNOWLEDGE_INITIAL_PEEK marks the actor as having seen their cards,
      touches no other seat, and starts play exactly when every other seat
      had already acknowledged. */
  lemma AcknowledgeEffect(s: GameState, pid: PlayerId, rng: Rng)
    requires Inv(s) && IsActionValid(s, pid, AcknowledgeInitialPeek)
    ensures var r := ApplyAction(s, pid, AcknowledgeInitialPeek, rng);
            var i := FindPlayerIndex(s.players, pid).value;
            r.players[i].hasSeenInitialCards
            && (forall j :: 0 <= j < |s.players| && j != i ==> r.players[j] == s.players[j])
            && (r.phase == Playing <==>
                  forall j :: 0 <= j < |s.players| && j != i ==> s.players[j].hasSeenInitialCards)
            && (r.phase != Playing ==> r.phase == InitialPeek)
  {
    var r := ApplyAction(s, pid, AcknowledgeInitialPeek, rng);
    var i := FindPlayerIndex(s.players, pid).value;
    assert r == Acknowledge(s.(version := s.version + 1), i);
    if forall j :: 0 <= j < |s.players| && j != i ==> s.players[j].hasSeenInitialCards {
      assert forall j :: 0 <= j < |r.players| ==> r.players[j].hasSeenInitialCards;
    }
  }

  /** Scoring is never reached by actions: from an invariant state every
      action leaves the game in the initial peek or in play. */
  lemma RoundNeverEndsThroughActions(s: GameState, pid: PlayerId, a: PlayerAction, rng: Rng)
    requires Inv(s)
    ensures ApplyAction(s, pid, a, rng).phase in {InitialPeek, Playing}
  {
    ApplyPreservesInv(s, pid, a, rng);
  }
}
