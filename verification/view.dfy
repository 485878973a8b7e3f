/** The per-viewer projection of a room (`derivePlayerView`): the state the
    server sends one player. The definition of a face-down card in another
    seat, the contents of the deck, the cards under the top of the discard
    pile, another player's drawn card and another player's pending effect
    are left out of the view; the viewer's own corner slots are shown during
    the initial peek. Every slot still carries its card's instance id, and
    ids follow the order the deck is built in (`Dealing.InstanceIdFixesCard`),
    so the projection hides a definition only from a viewer who does not
    know that order. */
module View {
  import opened Types
  import opened Cards
  import opened Zones
  import opened Engine

  // ---------------------------------------------------------------------------
  // Visibility rules

  /** Scoring and game over turn every card face up for everyone. */
  predicate ShowsAll(phase: GamePhase)
  {
    phase == Scoring || phase == GameOver
  }

  /** Whether the viewer sees the face of slot `k` of its own row: revealed
      slots, every slot once the round is scored, and the two corner slots
      (0 and 3) during the initial peek. */
  predicate OwnSlotVisible(phase: GamePhase, slot: DreamSlot, k: int)
  {
    slot.isRevealed || ShowsAll(phase) || (phase == InitialPeek && (k == 0 || k == 3))
  }

  /** Whether the viewer sees the face of a slot in another seat's row. */
  predicate OtherSlotVisible(phase: GamePhase, slot: DreamSlot)
  {
    slot.isRevealed || ShowsAll(phase)
  }

  // ---------------------------------------------------------------------------
  // Building the view

  /** A card as the viewer receives it: its instance id always, its
      definition only when it may be seen and the catalog knows its id. */
  function CardView(c: CardInstance, canSee: bool): (v: PublicCardView)
    ensures v.instanceId == c.instanceId
    ensures v.visible.Some? <==> canSee && InCatalog(c.definitionId)
    ensures v.visible.Some? ==> v.visible.value in CardDefinitions && v.visible.value.id == c.definitionId
  {
    InCatalogIffDefined(c.definitionId);
    PublicCardView(c.instanceId, if canSee then GetCardDefinition(c.definitionId) else None)
  }

  function SlotView(slot: DreamSlot, canSee: bool): (v: PublicDreamSlotView)
    ensures v.hasCard == slot.card.Some? == v.card.Some? && v.isRevealed == slot.isRevealed
    ensures slot.card.Some? ==> v.card.value == CardView(slot.card.value, canSee)
  {
    PublicDreamSlotView(slot.card.Some?,
                        if slot.card.Some? then Some(CardView(slot.card.value, canSee)) else None,
                        slot.isRevealed)
  }

  /** The viewer's own row, slot by slot. */
  function OwnSlotsView(slots: seq<DreamSlot>, phase: GamePhase): (v: seq<PublicDreamSlotView>)
    ensures |v| == |slots|
    ensures forall k :: 0 <= k < |slots| ==> v[k] == SlotView(slots[k], OwnSlotVisible(phase, slots[k], k))
  {
    seq(|slots|, k requires 0 <= k < |slots| => SlotView(slots[k], OwnSlotVisible(phase, slots[k], k)))
  }

  /** Another seat's row, slot by slot. */
  function OtherSlotsView(slots: seq<DreamSlot>, phase: GamePhase): (v: seq<PublicDreamSlotView>)
    ensures |v| == |slots|
    ensures forall k :: 0 <= k < |slots| ==> v[k] == SlotView(slots[k], OtherSlotVisible(phase, slots[k]))
  {
    seq(|slots|, k requires 0 <= k < |slots| => SlotView(slots[k], OtherSlotVisible(phase, slots[k])))
  }

  /** The row of the first seat holding the viewer's id; empty when the
      viewer has no seat. */
  function MyDreamSlots(s: GameState, viewer: PlayerId): seq<PublicDreamSlotView>
  {
    match FindPlayerIndex(s.players, viewer)
    case None => []
    case Some(i) => OwnSlotsView(s.players[i].dreamSlots, s.phase)
  }

  /** One seat as the viewer sees it. A seat holding the viewer's id shows
      the viewer's own row. */
  function SeatView(s: GameState, p: PlayerState, viewer: PlayerId, mine: seq<PublicDreamSlotView>): PublicPlayerView
  {
    PublicPlayerView(p.playerId, p.playerName, p.seatIndex,
                     if p.playerId == viewer then mine else OtherSlotsView(p.dreamSlots, s.phase),
                     p.isConnected, p.totalScore, p.roundScore, IsActivePlayer(s, p.playerId))
  }

  function SeatsView(s: GameState, viewer: PlayerId, mine: seq<PublicDreamSlotView>): (v: seq<PublicPlayerView>)
    ensures |v| == |s.players|
    ensures forall i :: 0 <= i < |s.players| ==> v[i] == SeatView(s, s.players[i], viewer, mine)
  {
    seq(|s.players|, i requires 0 <= i < |s.players| => SeatView(s, s.players[i], viewer, mine))
  }

  /** The pending effect, shown only to the player resolving it, without
      its selections; a peeked card is shown face up. */
  function PendingView(pe: Option<PendingEffect>, viewer: PlayerId): Option<PendingEffectView>
  {
    if pe.Some? && pe.value.sourcePlayerId == viewer then
      var e := pe.value;
      Some(PendingEffectView(e.effectType, e.awaitingSelection,
                             if e.peekedCard.Some? then Some(CardView(e.peekedCard.value, true)) else None))
    else None
  }

  /** The top of the discard pile, face up; nothing below it. */
  function TopDiscardView(discard: seq<CardInstance>): Option<PublicCardView>
  {
    if |discard| > 0 then Some(CardView(discard[|discard| - 1], true)) else None
  }

  /** The drawn card, face up, to the active player only. */
  function DrawnView(s: GameState, viewer: PlayerId): Option<PublicCardView>
  {
    if IsActivePlayer(s, viewer) && s.drawnCard.Some? then Some(CardView(s.drawnCard.value, true)) else None
  }

  /** `derivePlayerView`: the state as `viewer` may see it. The viewer's own
      scores and peek flag come from the first seat holding its id and
      default to 0, 0 and false when it has none. */
  function DerivePlayerView(s: GameState, viewer: PlayerId): PlayerGameView
  {
    var me := FindPlayerIndex(s.players, viewer);
    var mine := MyDreamSlots(s, viewer);
    PlayerGameView(
      s.roomId, s.phase, s.roundNumber, viewer, mine,
      if me.Some? then s.players[me.value].totalScore else 0,
      if me.Some? then s.players[me.value].roundScore else 0,
      if me.Some? then s.players[me.value].hasSeenInitialCards else false,
      SeatsView(s, viewer, mine),
      |s.deck|,
      TopDiscardView(s.discard),
      s.activePlayerIndex,
      IsActivePlayer(s, viewer),
      s.turnPhase,
      DrawnView(s, viewer),
      s.wakeUpCalledBy,
      PendingView(s.pendingEffect, viewer),
      s.version)
  }

  // ---------------------------------------------------------------------------
  // What the viewer sees

  /** A card in another seat's row shows its id, and its face exactly when
      the slot is revealed or the round is being scored or over (and the
      catalog knows its id). */
  lemma OtherSeatSlotShown(s: GameState, viewer: PlayerId, i: nat, k: nat)
    requires i < |s.players| && s.players[i].playerId != viewer
    requires k < |s.players[i].dreamSlots| && s.players[i].dreamSlots[k].card.Some?
    ensures var v := DerivePlayerView(s, viewer);
            var slot := s.players[i].dreamSlots[k];
            |v.players| == |s.players| && k < |v.players[i].dreamSlots|
            && v.players[i].dreamSlots[k].card.Some?
            && v.players[i].dreamSlots[k].card.value.instanceId == slot.card.value.instanceId
            && (v.players[i].dreamSlots[k].card.value.visible.Some?
                <==> OtherSlotVisible(s.phase, slot) && InCatalog(slot.card.value.definitionId))
  {
  }

  /** The viewer's own row: each card shows its id, and its face exactly
      when the slot is revealed, the round is scored or over, or it is a
      corner slot during the initial peek. */
  lemma OwnSlotShown(s: GameState, viewer: PlayerId, k: nat)
    requires FindPlayerIndex(s.players, viewer).Some?
    requires var slots := s.players[FindPlayerIndex(s.players, viewer).value].dreamSlots;
             k < |slots| && slots[k].card.Some?
    ensures var v := DerivePlayerView(s, viewer);
            var slot := s.players[FindPlayerIndex(s.players, viewer).value].dreamSlots[k];
            k < |v.myDreamSlots| && v.myDreamSlots[k].card.Some?
            && v.myDreamSlots[k].card.value.instanceId == slot.card.value.instanceId
            && (v.myDreamSlots[k].card.value.visible.Some?
                <==> OwnSlotVisible(s.phase, slot, k) && InCatalog(slot.card.value.definitionId))
  {
  }

  /** Every seat holding the viewer's id shows the viewer's own row. */
  lemma ViewerSeatsShowOwnRow(s: GameState, viewer: PlayerId, i: nat)
    requires i < |s.players| && s.players[i].playerId == viewer
    ensures var v := DerivePlayerView(s, viewer);
            |v.players| == |s.players| && v.players[i].dreamSlots == v.myDreamSlots
  {
  }

  /** A viewer without a seat sees no row of its own, zero scores and no
      peek, and is never the active player. */
  lemma SeatlessViewer(s: GameState, viewer: PlayerId)
    requires FindPlayerIndex(s.players, viewer).None?
    ensures var v := DerivePlayerView(s, viewer);
            v.myDreamSlots == [] && v.myTotalScore == 0 && v.myRoundScore == 0
            && !v.hasSeenInitialCards && !v.isMyTurn && v.drawnCard.None?
  {
  }

  /** The drawn card reaches the viewer exactly when the viewer is the
      active player and a card is held, and then face up. */
  lemma DrawnCardOnlyToActive(s: GameState, viewer: PlayerId)
    ensures var v := DerivePlayerView(s, viewer);
            (v.drawnCard.Some? <==> IsActivePlayer(s, viewer) && s.drawnCard.Some?)
            && (v.drawnCard.Some? ==> v.drawnCard.value.instanceId == s.drawnCard.value.instanceId
                                      && (v.drawnCard.value.visible.Some? <==> InCatalog(s.drawnCard.value.definitionId)))
  {
  }

  /** The pending effect reaches the viewer exactly when the viewer is
      resolving it; its kind and awaited selection are shown, a peeked card
      face up. */
  lemma PendingOnlyToSource(s: GameState, viewer: PlayerId)
    ensures var v := DerivePlayerView(s, viewer);
            (v.pendingEffect.Some? <==> s.pendingEffect.Some? && s.pendingEffect.value.sourcePlayerId == viewer)
            && (v.pendingEffect.Some? ==>
                  v.pendingEffect.value.effectType == s.pendingEffect.value.effectType
                  && v.pendingEffect.value.awaitingSelection == s.pendingEffect.value.awaitingSelection
                  && (v.pendingEffect.value.peekedCard.Some? <==> s.pendingEffect.value.peekedCard.Some?))
  {
  }

  /** The top of the discard pile is shown face up to everyone; an empty
      pile shows nothing. */
  lemma TopDiscardShown(s: GameState, viewer: PlayerId)
    ensures var v := DerivePlayerView(s, viewer);
            (v.topDiscard.Some? <==> |s.discard| > 0)
            && (v.topDiscard.Some? ==> v.topDiscard.value.instanceId == s.discard[|s.discard| - 1].instanceId
                                       && (v.topDiscard.value.visible.Some? <==> InCatalog(s.discard[|s.discard| - 1].definitionId)))
  {
  }

  // ---------------------------------------------------------------------------
  // What the viewer cannot tell apart

  /** The seats' view depends only on the seats, the active index and the phase. */
  lemma SeatsViewOfTable(s1: GameState, s2: GameState, viewer: PlayerId, mine: seq<PublicDreamSlotView>)
    requires s1.players == s2.players && s1.activePlayerIndex == s2.activePlayerIndex && s1.phase == s2.phase
    ensures SeatsView(s1, viewer, mine) == SeatsView(s2, viewer, mine)
  {
    assert forall id :: IsActivePlayer(s1, id) == IsActivePlayer(s2, id);
  }

  /** Only the deck's size reaches a viewer: reordering or replacing its
      cards leaves every view unchanged. */
  lemma DeckContentsHidden(s: GameState, deck: seq<CardInstance>, viewer: PlayerId)
    requires |deck| == |s.deck|
    ensures DerivePlayerView(s.(deck := deck), viewer) == DerivePlayerView(s, viewer)
  {
    SeatsViewOfTable(s.(deck := deck), s, viewer, MyDreamSlots(s, viewer));
  }

  /** Only the top of the discard pile reaches a viewer. */
  lemma BuriedDiscardHidden(s: GameState, discard: seq<CardInstance>, viewer: PlayerId)
    requires |discard| > 0 <==> |s.discard| > 0
    requires |discard| > 0 ==> discard[|discard| - 1] == s.discard[|s.discard| - 1]
    ensures DerivePlayerView(s.(discard := discard), viewer) == DerivePlayerView(s, viewer)
  {
    SeatsViewOfTable(s.(discard := discard), s, viewer, MyDreamSlots(s, viewer));
  }

  /** A player who is not active cannot tell which card, if any, the
      active player holds. */
  lemma DrawnCardHiddenFromOthers(s: GameState, c: Option<CardInstance>, viewer: PlayerId)
    requires !IsActivePlayer(s, viewer)
    ensures DerivePlayerView(s.(drawnCard := c), viewer) == DerivePlayerView(s, viewer)
  {
    SeatsViewOfTable(s.(drawnCard := c), s, viewer, MyDreamSlots(s, viewer));
  }

  /** A player cannot tell anything about an effect another player is
      resolving, or whether one is being resolved. */
  lemma OthersPendingHidden(s: GameState, pe: Option<PendingEffect>, viewer: PlayerId)
    requires s.pendingEffect.None? || s.pendingEffect.value.sourcePlayerId != viewer
    requires pe.None? || pe.value.sourcePlayerId != viewer
    ensures DerivePlayerView(s.(pendingEffect := pe), viewer) == DerivePlayerView(s, viewer)
  {
    SeatsViewOfTable(s.(pendingEffect := pe), s, viewer, MyDreamSlots(s, viewer));
  }

  /** Two rows that differ only in the faces of cards the viewer cannot see
      look the same from another seat. */
  lemma HiddenFacesLookAlike(a: seq<DreamSlot>, b: seq<DreamSlot>, phase: GamePhase)
    requires |a| == |b|
    requires forall k :: 0 <= k < |a| ==> OtherSlotVisible(phase, a[k]) ==> a[k] == b[k]
    requires forall k :: 0 <= k < |a| ==>
               a[k].isRevealed == b[k].isRevealed && a[k].card.Some? == b[k].card.Some?
               && (a[k].card.Some? ==> a[k].card.value.instanceId == b[k].card.value.instanceId)
    ensures OtherSlotsView(a, phase) == OtherSlotsView(b, phase)
  {
    var va, vb := OtherSlotsView(a, phase), OtherSlotsView(b, phase);
    forall k | 0 <= k < |a|
      ensures va[k] == vb[k]
    {
      if !OtherSlotVisible(phase, a[k]) && a[k].card.Some? {
        assert CardView(a[k].card.value, false) == CardView(b[k].card.value, false);
      }
    }
  }

  /** The definition of a face-down card in another seat's row is not part
      of the view: giving that card another definition, under the same
      instance id, leaves the view unchanged. The id itself is shown. */
  lemma FaceDownCardHidden(s: GameState, viewer: PlayerId, i: nat, k: nat, d: DefinitionId)
    requires i < |s.players| && s.players[i].playerId != viewer
    requires k < |s.players[i].dreamSlots| && s.players[i].dreamSlots[k].card.Some?
    requires !OtherSlotVisible(s.phase, s.players[i].dreamSlots[k])
    ensures var c := s.players[i].dreamSlots[k].card.value;
            DerivePlayerView(SetSlotCard(s, i, k, Some(c.(definitionId := d))), viewer) == DerivePlayerView(s, viewer)
  {
    var c := s.players[i].dreamSlots[k].card.value;
    var t := SetSlotCard(s, i, k, Some(c.(definitionId := d)));
    HiddenFacesLookAlike(t.players[i].dreamSlots, s.players[i].dreamSlots, s.phase);
    OtherRowLooksAlike(s, t, viewer, i);
  }

  /** Changing the row of a seat other than the viewer's, in a way the
      viewer cannot see, leaves the view unchanged. */
  lemma OtherRowLooksAlike(s: GameState, t: GameState, viewer: PlayerId, i: nat)
    requires i < |s.players| && s.players[i].playerId != viewer
    requires t == s.(players := t.players) && |t.players| == |s.players|
    requires forall j :: 0 <= j < |s.players| && j != i ==> t.players[j] == s.players[j]
    requires t.players[i] == s.players[i].(dreamSlots := t.players[i].dreamSlots)
    requires OtherSlotsView(t.players[i].dreamSlots, s.phase) == OtherSlotsView(s.players[i].dreamSlots, s.phase)
    ensures DerivePlayerView(t, viewer) == DerivePlayerView(s, viewer)
  {
    SameIdsSameSeat(t.players, s.players, viewer);
    var mine := MyDreamSlots(s, viewer);
    assert MyDreamSlots(t, viewer) == mine;
    SeatsLookAlike(s, t, viewer, mine, i);
  }

  lemma SeatsLookAlike(s: GameState, t: GameState, viewer: PlayerId, mine: seq<PublicDreamSlotView>, i: nat)
    requires i < |s.players| && s.players[i].playerId != viewer
    requires t == s.(players := t.players) && |t.players| == |s.players|
    requires forall j :: 0 <= j < |s.players| && j != i ==> t.players[j] == s.players[j]
    requires t.players[i] == s.players[i].(dreamSlots := t.players[i].dreamSlots)
    requires OtherSlotsView(t.players[i].dreamSlots, s.phase) == OtherSlotsView(s.players[i].dreamSlots, s.phase)
    ensures SeatsView(t, viewer, mine) == SeatsView(s, viewer, mine)
  {
    assert forall id :: IsActivePlayer(t, id) == IsActivePlayer(s, id);
    forall j | 0 <= j < |s.players|
      ensures SeatView(t, t.players[j], viewer, mine) == SeatView(s, s.players[j], viewer, mine)
    {
    }
  }
}
