/** Data model of the Sen card game engine: the card catalog's records, the
    authoritative game state, the action vocabulary and the per-viewer
    projection. Every record of the engine is an immutable datatype; a
    transition builds a new value instead of mutating a deep copy. */
module Types {

  /** `T | null` (or an absent value) in the engine's records. */
  datatype Option<+T> = None | Some(value: T)

  type PlayerId = string

  /** Catalog ids: `crow_<rank>`, `take_2`, `peek_1`, `swap_2`; `Other`
      carries any id text of none of these shapes. A `Crow` rank above 9
      (`crow_10`, say) is well-formed but absent from the catalog. */
  datatype DefinitionId = Crow(rank: nat) | Take2 | Peek1 | Swap2 | Other(text: string)

  /** Instance ids are drawn from a counter threaded through deck construction. */
  type InstanceId = nat

  /** A player holds exactly this many dream slots. */
  const SlotCount: int := 4

  /** Effect kinds: the union of the engine's `EffectType` (none, peek_own,
      peek_other, swap_blind, swap_peek, dark_gift) and the two kinds the card
      catalog uses without declaring them there (take_two, peek_any). */
  datatype EffectType =
    | NoEffect
    | PeekOwn
    | PeekOther
    | SwapBlind
    | SwapPeek
    | DarkGift
    | TakeTwo
    | PeekAny

  /** Static card data owned by the catalog; `crowValue` is the scoring cost. */
  datatype CardDefinition = CardDefinition(
    id: DefinitionId,
    name: string,
    crowValue: int,
    effectType: EffectType,
    description: string)

  /** One physical card of a built deck. */
  datatype CardInstance = CardInstance(instanceId: InstanceId, definitionId: DefinitionId)

  datatype DreamSlot = DreamSlot(card: Option<CardInstance>, isRevealed: bool)

  datatype PlayerState = PlayerState(
    playerId: PlayerId,
    playerName: string,
    seatIndex: int,
    dreamSlots: seq<DreamSlot>,
    isConnected: bool,
    roundScore: int,
    totalScore: int,
    hasSeenInitialCards: bool)

  datatype GamePhase = Lobby | Dealing | InitialPeek | Playing | WakeUp | Scoring | GameOver

  datatype TurnPhase = Draw | Action | Effect | End

  /** The selection a pending effect waits for. An effect waiting for
      nothing holds `None`. */
  datatype Awaiting = OwnSlot | OtherSlot | ConfirmSwap

  /** One (player, slot) pair chosen while resolving an effect. */
  datatype SlotRef = SlotRef(playerId: PlayerId, slotIndex: int)

  datatype PendingEffect = PendingEffect(
    effectType: EffectType,
    sourcePlayerId: PlayerId,
    selectedSlots: seq<SlotRef>,
    peekedCard: Option<CardInstance>,
    awaitingSelection: Option<Awaiting>)

  /** The authoritative state of one room. `deck` and `discard` are stacks
      whose top is the last element. */
  datatype GameState = GameState(
    roomId: string,
    phase: GamePhase,
    roundNumber: int,
    deck: seq<CardInstance>,
    discard: seq<CardInstance>,
    players: seq<PlayerState>,
    activePlayerIndex: int,
    turnPhase: TurnPhase,
    drawnCard: Option<CardInstance>,
    wakeUpCalledBy: Option<PlayerId>,
    pendingEffect: Option<PendingEffect>,
    targetScore: int,
    version: int)

  /** The closed action vocabulary: eleven kinds. Only the three slot actions
      carry a slot index, and only `SelectOtherSlot` names a target player. */
  datatype PlayerAction =
    | DrawFromDeck
    | DrawFromDiscard
    | ReplaceDreamSlot(slotIndex: int)
    | DiscardDrawnCard
    | UseCardEffect
    | DeclareWakeUp
    | SelectOwnSlot(slotIndex: int)
    | SelectOtherSlot(targetPlayerId: PlayerId, slotIndex: int)
    | ConfirmSwap
    | CancelEffect
    | AcknowledgeInitialPeek

  /** What a viewer is told about one card: its instance id always, its
      definition only when the card is face-up to that viewer. */
  datatype PublicCardView = PublicCardView(instanceId: InstanceId, visible: Option<CardDefinition>)

  datatype PublicDreamSlotView = PublicDreamSlotView(
    hasCard: bool,
    card: Option<PublicCardView>,
    isRevealed: bool)

  datatype PublicPlayerView = PublicPlayerView(
    playerId: PlayerId,
    playerName: string,
    seatIndex: int,
    dreamSlots: seq<PublicDreamSlotView>,
    isConnected: bool,
    totalScore: int,
    roundScore: int,
    isActivePlayer: bool)

  datatype PendingEffectView = PendingEffectView(
    effectType: EffectType,
    awaitingSelection: Option<Awaiting>,
    peekedCard: Option<PublicCardView>)

  /** The filtered state sent to one viewer. */
  datatype PlayerGameView = PlayerGameView(
    roomId: string,
    phase: GamePhase,
    roundNumber: int,
    myPlayerId: PlayerId,
    myDreamSlots: seq<PublicDreamSlotView>,
    myTotalScore: int,
    myRoundScore: int,
    hasSeenInitialCards: bool,
    players: seq<PublicPlayerView>,
    deckCount: int,
    topDiscard: Option<PublicCardView>,
    activePlayerIndex: int,
    isMyTurn: bool,
    turnPhase: TurnPhase,
    drawnCard: Option<PublicCardView>,
    wakeUpCalledBy: Option<PlayerId>,
    pendingEffect: Option<PendingEffectView>,
    version: int)
}
