# Sen game engine — a Dafny model

Sen is a turn-based card game for a room of players. Each player holds four
face-down *dream slots*. On their turn the active player draws one card, from
the deck or from the top of the discard pile. They then put it into one of
their dream slots, discard it, or play its effect, which opens a *pending
effect* that the player completes by selecting slots. Instead of drawing, the
active player may call *wake up* at the start of their turn. Scoring a round
reveals every slot and adds its *crow value* to that player's score; the game
ends once some player's total reaches the target score.

The engine's code, which this model follows, plays differently from that
outline in three ways:

- after a wake-up call no player has a valid action, so no round ever
  reaches its end through play, although turn end contains the check that
  would end it when play returns to the caller;
- no swap effect ever exchanges two cards: the blind swap exchanges only
  when exactly two slots are selected, but every selection of another
  player's slot leaves an odd count (1, 3, 5, …), so that never happens;
  the peek-and-swap closes without swapping;
- the take_two and peek_any effects match none of the selection branches,
  so selecting slots under them only records the selections.

This project models the engine of that game. The engine is a set of pure
transitions over one authoritative `GameState`:

- it validates and applies an action;
- it passes the turn, and reshuffles the discard pile into an empty deck;
- it scores a round, and deals a new round;
- it projects the state into what a given viewer may see.

The model is immutable. Every transition returns a new `GameState`; the source
mutates a deep copy instead.

Modules:

- `Types`: the engine's records as datatypes. These are card definitions and
  instances, dream slots, players, the game and turn phases, the pending
  effect, actions, and the viewer-facing records.
- `Cards`: the 13-row card catalog and the lookups over it (crow value, effect
  type, "has an effect"). It also holds the 54-card deck composition, deck
  construction with instance ids drawn from a threaded counter, and the
  Fisher–Yates shuffle driven by a caller-supplied random source.
- `Zones`: where cards are — the deck, the discard pile, the dream slots and
  the drawn card — as multisets, so that card conservation can be stated.
- `Engine`: action validation (`IsActionValid`), the action reducer
  (`ApplyAction`), the two-slot swap, turn end with its round-end check and
  reshuffle, and round scoring.
- `Invariants`: a state invariant `Inv` that every action preserves, with card
  conservation. It also states the engine's observable behaviours: what each
  action does, which actions never touch the dream slots, the dead end after
  a wake-up, and the swap effects that never exchange cards.
- `Dealing`: game creation and new-round dealing. Four face-down cards go to
  each seat from the top of a shuffled deck, and one card goes face up to the
  discard pile.
- `View`: the per-viewer projection `DerivePlayerView`. Lemmas state exactly
  which card faces a viewer is shown, and which parts of the state a view
  does not depend on. Every slot in a view carries its card's instance id,
  and ids follow the order in which the deck is built, not the shuffle
  (`Dealing.InstanceIdFixesCard`). A viewer who knows that order can
  therefore tell a face-down card from its id.

Randomness is a parameter. `Rng` maps a step index to a natural number, and
Fisher–Yates step `i` swaps position `i` with position `rng(i) % (i + 1)`. The
instance-id generator's module-level counter is threaded explicitly: a
function takes `counter` and returns the advanced counter.

## Model

| member | source | states |
|---|---|---|
| Cards.GetCardDefinition | src/game/cards.ts:48-50 | A found definition is a catalog row with the requested id. No definition is found exactly when no catalog row carries the id. |
| Cards.InCatalogIffDefined | src/game/cards.ts:10-29 | A definition id is one of the 13 catalog ids (crow_0..crow_9, take_2, peek_1, swap_2) exactly when the lookup finds a definition. |
| Cards.CatalogCrowValuesInRange | src/game/cards.ts:10-29 | Every catalog card costs between 0 and 9 crows. |
| Cards.GetCrowValue | src/game/cards.ts:82-85 | A card's crow value is always in 0..9, unknown ids included. |
| Cards.GetEffectType | src/game/cards.ts:92-95 | A card whose id is not in the catalog has effect type none. |
| Cards.HasEffect | src/game/cards.ts:87-90 | A card whose id is not in the catalog counts as having an effect, because the missing definition's effect type is not 'none'. |
| Cards.CardHelpersAreLookups | src/game/cards.ts:82-95 | All three card helpers answer from the catalog definition of the card's id. The fallbacks for a missing definition are 0, 'none' and true. |
| Cards.HasEffectAgreesWithEffectType | src/game/cards.ts:87-95 | For a catalog card, "has an effect" holds exactly when the effect type is not none. For an unknown card the two helpers disagree: it has an effect, of type none. |
| Cards.CatalogEffectCards | src/game/cards.ts:26-28 | The catalog cards with an effect are exactly take_2, peek_1 and swap_2. Their effect types are take_two, peek_any and swap_blind. |
| Cards.DeckCompositionTotal | src/game/cards.ts:32-46 | The deck composition's copy counts sum to 54. |
| Cards.DeckCompositionInCatalog | src/game/cards.ts:32-46 | Every id in the deck composition has a catalog definition. |
| Cards.CompositionFollowsCatalog | src/game/cards.ts:32-46 | The composition lists the catalog ids once each, in catalog order. |
| Cards.GenerateInstanceId | src/game/cards.ts:52-56 | Each generated id is strictly above the counter it came from, and the counter advances past it. |
| Cards.Copies | src/game/cards.ts:62-67 | Building `count` copies of one id yields exactly that many cards of that id, with consecutive ids above the counter. |
| Cards.BuildDeck | src/game/cards.ts:58-71 | Building from a composition yields one card per counted copy, with consecutive fresh ids. The multiset of definition ids equals the composition's counts. |
| Cards.CreateDeck | src/game/cards.ts:58-71 | A built deck has 54 cards. Their ids lie strictly between the old and the new counter and strictly increase, so they are distinct. |
| Cards.CreateDeckInCatalog | src/game/cards.ts:58-71 | Every card of a built deck has a catalog definition. |
| Cards.CreateDeckComposition | src/game/cards.ts:58-71 | A built deck holds exactly the composition's number of copies of each id. |
| Cards.CreateDeckHasNothingElse | src/game/cards.ts:58-71 | A built deck holds no card of an id that the composition does not list. |
| Cards.SuccessiveDecksDisjoint | src/game/cards.ts:52-71 | Two decks built one after another share no instance id. |
| Cards.Swap | src/game/cards.ts:77 | Swapping two positions exchanges exactly those two elements and keeps the rest. |
| Cards.FisherYates | src/game/cards.ts:75-78 | Whatever the random draws, the shuffle loop only permutes its input. |
| Cards.ShuffleArray | src/game/cards.ts:73-80 | The shuffled copy is a permutation of the input (same length, same multiset). |
| Engine.FindPlayerIndex | src/game/logic.ts:158 | The result is the first seat with the given player id, or none exactly when no seat has it. |
| Engine.IsActionValid | src/game/logic.ts:76-146 | An accepted action comes from a seated player. Turn actions need the active player in the playing phase; effect actions need a pending effect opened by the acting player. Acknowledging needs the initial-peek phase and a player who has not acknowledged yet. Drawing and calling wake-up need the draw phase, a draw needs a non-empty deck or pile, and wake-up needs no earlier call. Replacing, discarding and playing an effect need the action phase and a held card, and playing needs a card with an effect. Each selection and the confirmation need the effect to be waiting for that kind of input. Slot indexes lie in 0..3, and a player never targets their own seat as "other". |
| Engine.SwapTargets | src/game/logic.ts:294-299 | A swap resolves to two seats exactly when there are two selections and both players are found. Each resolved seat carries the selected player's id. |
| Engine.ExchangeCards | src/game/logic.ts:300-302 | The two selected slots trade cards. Every other slot, every revealed flag and every other field is unchanged. |
| Engine.ExchangeCardsConserves | src/game/logic.ts:300-302 | Exchanging two slots' cards neither creates nor loses a card. |
| Engine.PerformSwap | src/game/logic.ts:293-304 | When both targets resolve, the two selected slots trade cards and every other slot keeps its card. No revealed flag and no field outside the dream slots changes, and the cards in play are conserved. When the targets cannot be resolved, nothing changes. |
| Engine.RevealAndScore | src/game/logic.ts:339-344 | Scoring a player's slots reveals every slot, keeps its card, and adds up the crow values of the cards present. |
| Engine.ScorePlayer | src/game/logic.ts:337-346 | A scored player has every slot revealed with the same cards. Their round score is their slots' crow total, which is added to their total score. Nothing else changes. |
| Engine.ScoreAll | src/game/logic.ts:337-346 | Round scoring treats every seat the same way, independently. |
| Engine.MaxTotalScore | src/game/logic.ts:349 | The maximum is at least every player's total and equals some player's total. |
| Engine.EndRound | src/game/logic.ts:333-353 | Ending a round scores every seat and moves to scoring. It moves to game over exactly when some total reaches the target score. No card moves and no other field changes. |
| Engine.Reshuffle | src/game/logic.ts:325-329 | An empty deck is refilled with a permutation of the discard pile minus its top card, and that top card stays as the whole discard pile. Otherwise nothing changes, and cards are always conserved. |
| Engine.CloseTurn | src/game/logic.ts:307-322 | Closing a turn clears the hand and the pending effect and hands the turn to the next seat in the draw phase. When that seat is the wake-up caller's, the players and the phase are those of the scored round; otherwise they are untouched. The deck and the discard pile are not touched, and with no card in hand the cards in play are conserved. |
| Engine.EndTurn | src/game/logic.ts:307-330 | Ending a turn clears the drawn card and the pending effect and hands the turn to the next seat, wrapping around, in the draw phase. When the seat coming up is the wake-up caller's, the players and the phase are those of the scored round (scoring or game over); otherwise they are untouched. An empty deck with more than one discard is refilled with a permutation of all discards but the top one, which stays as the whole pile; otherwise the deck and pile are untouched. With no card in hand, cards are conserved. |
| Engine.Acknowledge | src/game/logic.ts:162-168 | Acknowledging marks only the acknowledging player as having seen their cards. The phase becomes playing exactly when every seat has now acknowledged, and otherwise stays as it was. |
| Engine.DrawDeck | src/game/logic.ts:170-173 | Drawing from the deck moves its top card into the hand and moves on to the action phase, conserving cards. |
| Engine.DrawDiscard | src/game/logic.ts:175-178 | Drawing from the discard pile moves its top card into the hand and moves on to the action phase, conserving cards. |
| Engine.PlaceDrawnCard | src/game/logic.ts:180-186 | The drawn card takes the chosen slot, keeping the slot's revealed flag. The replaced card (if any) goes on top of the discard pile. Every other slot is unchanged. |
| Engine.PlaceDrawnCardConserves | src/game/logic.ts:180-186 | Replacing a dream slot conserves the cards in play. |
| Engine.Replace | src/game/logic.ts:180-188 | Replacing a slot and ending the turn keeps the state well formed and the seats the same. |
| Engine.DropDrawnCard | src/game/logic.ts:190-194 | Discarding the drawn card puts it on top of the discard pile and empties the hand, conserving cards. |
| Engine.DiscardDrawn | src/game/logic.ts:190-196 | Discarding and ending the turn keeps the state well formed and the seats the same. |
| Engine.UseEffect | src/game/logic.ts:198-213 | Playing the drawn card moves it onto the discard pile, enters the effect phase, and opens a pending effect owned by the player. The effect has the card's effect type, no selections and no peeked card, and waits for an own slot for peek_own and for another player's slot otherwise. Without a drawn card nothing changes. |
| Engine.CallWakeUp | src/game/logic.ts:215-220 | Calling wake-up keeps a well-formed state well formed, with the same seats, the same cards in play, the same phase, active seat, hand and pending effect; the round does not end here. Invariants.DeclareWakeUpStalls states what follows: no action is valid any more. |
| Engine.SelectOwn | src/game/logic.ts:222-236 | Selecting one's own slot appends it to the pending effect's selections, keeping the effect's kind and owner and every other field. Under peek_own the slot's card becomes the peeked card and nothing more is awaited. Under a swap effect another player's slot is awaited next. Under any other kind the peeked card and what is awaited are kept. Without a pending effect nothing changes. |
| Engine.SwapAndEndTurn | src/game/logic.ts:254-256 | Swapping then ending the turn leaves no pending effect and passes the turn. When the swap cannot resolve and no wake-up is pending, the dream slots are unchanged. |
| Engine.SwapAndEndTurnSlots | src/game/logic.ts:254-256 | After a completed swap the dream slots are exactly those the two-slot swap produced; when the turn end closes the round, they are those slots scored and turned face-up, with the phase the scoring gives. |
| Engine.BlindSwapSelect | src/game/logic.ts:251-259 | The blind-swap branch keeps the state well formed and conserves cards. |
| Engine.SelectOther | src/game/logic.ts:238-267 | Selecting another player's slot conserves cards. With no pending effect, or with a target player not at the table, nothing changes. |
| Engine.Confirm | src/game/logic.ts:269-281 | Confirming a swap keeps the state well formed and conserves cards. |
| Engine.Cancel | src/game/logic.ts:283-286 | Cancelling an effect keeps the state well formed and the seats the same. |
| Engine.ApplyAction | src/game/logic.ts:149-290 | A rejected action returns the state unchanged. An accepted one bumps the version by exactly one. Seats and slot counts never change. |
| Invariants.ApplyPreservesInv | src/game/logic.ts:149-290 | From any reachable state, every action (accepted or not) leads to a reachable state. The multiset of cards across deck, discard pile, hand and dream slots is unchanged. |
| Invariants.OnlyReplaceMovesSlotCards | src/game/logic.ts:149-290 | From a reachable state, no action other than replacing a dream slot changes any dream slot's card. Swaps never complete. |
| Invariants.WakeUpDeadEnd | src/game/logic.ts:76-146 | Once wake-up has been called in a reachable state, no player has any valid action. |
| Invariants.DeclareWakeUpStalls | src/game/logic.ts:215-220 | A valid wake-up call records the caller and leaves a reachable state in which no action is valid, so the round can never reach its end. |
| Invariants.BlindSwapNeverCompletes | src/game/logic.ts:251-259 | Selecting another player's slot under a blind swap never changes the dream slots or passes the turn. It only waits for an own slot. |
| Invariants.PeekSwapNeverExchanges | src/game/logic.ts:269-281 | Confirming a swap never changes the dream slots. With one selection it asks for an own slot; otherwise it closes the effect and passes the turn. |
| Invariants.SelectOwnSlotEffect | src/game/logic.ts:222-236 | Selecting one's own slot records it and changes nothing but the pending effect. A peek-own effect shows that slot's card and waits for nothing more. A swap effect then waits for another player's slot. Any other kind keeps what it was waiting for. |
| Invariants.UnresolvedEffectsOnlyRecord | src/game/logic.ts:238-267 | For an effect kind that no branch handles (none, dark_gift, take_two, peek_any), selecting another player's slot only records the selection, when the target is seated. |
| Invariants.UseEffectOpensPending | src/game/logic.ts:198-213 | Playing the drawn card discards it and opens an effect of that card's type, awaiting an own slot for peek_own and another player's slot otherwise. take_2, peek_1 and swap_2 open take_two, peek_any and swap_blind. |
| Invariants.TurnEndingActionsPassTurn | src/game/logic.ts:307-314 | Replacing, discarding and cancelling each end the turn. The hand and the pending effect are cleared, and the next seat becomes active in the draw phase. |
| Invariants.DrawFromDeckEffect | src/game/logic.ts:170-173 | Drawing from the deck is valid exactly for the active player in the draw phase with a non-empty deck. It moves the deck's top card into the hand and leaves the discard pile and the slots alone. |
| Invariants.DrawFromDiscardEffect | src/game/logic.ts:175-178 | Drawing from the discard pile is valid exactly for the active player in the draw phase with a non-empty pile. It moves the pile's top card into the hand and leaves the deck and the slots alone. |
| Invariants.ReplaceDreamSlotEffect | src/game/logic.ts:180-188 | Replacing puts the drawn card into exactly the chosen slot of the acting player. Before any reshuffle, the old card lands on top of the discard pile. |
| Invariants.AcknowledgeEffect | src/game/logic.ts:162-168 | Acknowledging marks the acting player only. Play starts exactly when every other player had already acknowledged. |
| Invariants.RoundNeverEndsThroughActions | src/game/logic.ts:316-322 | From a reachable state no action leads to the scoring or game-over phase. |
| Dealing.PopSlots | src/game/logic.ts:37-41 | Popping slots from a deck yields the requested number of face-down slots, each holding a card. |
| Dealing.PopSlotsConserves | src/game/logic.ts:37-41 | The popped cards and the rest of the deck together are exactly the original deck. |
| Dealing.DealTo | src/game/logic.ts:36-53 | Each seat gets four fresh face-down slots, and its identity and total score are kept. The rest of the deck is the original minus its top four cards per seat. |
| Dealing.DealToConserves | src/game/logic.ts:36-53 | Dealing to the seats neither loses nor creates a card. |
| Dealing.DealRound | src/game/logic.ts:33-56 | Dealing from a shuffled 54-card deck leaves 54 - 4n - 1 cards in the deck and one card in the discard pile. |
| Dealing.DealRoundConserves | src/game/logic.ts:33-56 | After dealing, the deck, the discard pile and the dream slots together hold exactly the cards that were built. |
| Dealing.NewSeats | src/game/logic.ts:43-52 | There is one seat per entrant, in entrant order. Seat i carries the i-th entrant's id and name and seat index i, is connected, has round and total scores of zero and no slots yet, and has not seen its cards. |
| Dealing.CreateInitialGameState | src/game/logic.ts:28-73 | A new game starts in round 1 at version 1 in the initial-peek phase. Seat 0 is in the draw phase with no hand, no wake-up call and no pending effect. Every seat is freshly dealt, and the deck and discard sizes are 54 - 4n - 1 and 1. The game plays to the given target score; the default of 100 when none is given is Dealing.CreateDefaultGame. |
| Dealing.CreateDefaultGame | src/game/logic.ts:28-32 | A game created without a target score plays to 100, and is otherwise exactly the game created with any explicit target. |
| Dealing.CreateInitialGameStateInv | src/game/logic.ts:58-72 | A newly created game with at least one player satisfies the state invariant. |
| Dealing.CreateInitialGameStateCards | src/game/logic.ts:33-56 | The cards in play in a new game are exactly one freshly built deck, with ids above the old counter. |
| Dealing.DeckIdNamesOneCard | src/game/cards.ts:58-71 | Within one built deck, two cards with the same instance id are the same card. |
| Dealing.InstanceIdFixesCard | src/game/logic.ts:33-56 | Two games dealt from the same counter, whatever their seats and random draws, hold the same card under every id they share: ids follow the build order, not the shuffle. |
| Dealing.NewRoundIdFixesCard | src/game/logic.ts:361-376 | A new round dealt from a given counter holds, under each id, the card a new game dealt from that counter holds under it. |
| Dealing.Redeal | src/game/logic.ts:363-384 | A new round keeps the room, the seats and the target. It bumps the version and the round number and re-deals every seat face-down. It resets the phase, the active seat, the hand, the wake-up call and the pending effect. |
| Dealing.StartNewRound | src/game/logic.ts:356-386 | Starting a round consumes exactly one deck's worth of instance ids. |
| Dealing.StartNewRoundInv | src/game/logic.ts:356-386 | A new round (with at least one seat) satisfies the state invariant. |
| Dealing.StartNewRoundCards | src/game/logic.ts:361-376 | After a new round the cards in play are exactly one freshly built deck. No card from the previous round survives. |
| Dealing.StartNewRoundForgetsRound | src/game/logic.ts:363-371 | A new round does not depend on the previous round's dream slots, round scores, phase, hand, pending effect or wake-up call. |
| Dealing.DeckCardsFresh | src/game/cards.ts:58-71 | Every card of a built deck has an id above the counter it was built from. |
| View.CardView | src/game/logic.ts:403-406 | A projected card keeps its instance id. Its face is shown exactly when it may be seen and its id has a catalog definition, and the shown face is that definition. |
| View.OwnSlotShown | src/game/logic.ts:394-409 | A viewer sees the face of their own slot exactly when it is revealed, the round is being scored or is over, or it is slot 0 or 3 during the initial peek. |
| View.OtherSeatSlotShown | src/game/logic.ts:412-428 | A viewer sees the face of another player's slot exactly when it is revealed or the round is being scored or is over. Its instance id is always shown. |
| View.ViewerSeatsShowOwnRow | src/game/logic.ts:434 | In the list of players, the viewer's own seat shows the same slot view as their own dream slots. |
| View.SeatlessViewer | src/game/logic.ts:390-409 | A viewer who is not seated sees no own slots, zero scores, no turn and no drawn card. |
| View.DrawnCardOnlyToActive | src/game/logic.ts:476-479 | The drawn card is shown exactly to the active player while a card is held. |
| View.PendingOnlyToSource | src/game/logic.ts:444-453 | The pending effect is shown exactly to the player who opened it, with its kind, what it awaits, and whether a card was peeked. |
| View.TopDiscardShown | src/game/logic.ts:456-472 | Every viewer is shown the top discard exactly when the pile is not empty. It has its instance id, and its face whenever its id has a catalog definition. |
| View.DeckContentsHidden | src/game/logic.ts:458-483 | A view depends on the deck only through its size: swapping in any other deck of the same length gives the same view. |
| View.BuriedDiscardHidden | src/game/logic.ts:456-472 | A view depends on the discard pile only through its top card. |
| View.DrawnCardHiddenFromOthers | src/game/logic.ts:476-479 | What a non-active player sees does not depend on the drawn card. |
| View.OthersPendingHidden | src/game/logic.ts:444-453 | What a player sees does not depend on a pending effect someone else opened. |
| View.FaceDownCardHidden | src/game/logic.ts:412-428 | Giving another player's face-down card a different definition, under the same instance id, does not change the viewer's view. The id itself is always shown. |

## Left out

- Randomness: the shuffle takes `rng` as a parameter. Its uniformity, and the engine's use of the platform random source, are not modelled.
- Instance ids are natural numbers from a threaded counter. The source's `card_<time>_<counter>_<random>` string format, and the clock and random source it reads, are not modelled.
- Deals to more than 13 seats are excluded (`MaxSeats`). Past 13 seats the deck runs out, and the source pops `undefined` into the slots and the discard pile.
- Engine.ApplyAction: requires a well-formed state (at least one seat, the active index in range, four slots per seat, selections in 0..3). The source indexes through `player.dreamSlots[...]` without checking these.
- Invariants.ApplyPreservesInv: the invariant assumes at least one seat, because turn rotation in the source takes the remainder by the seat count.
- The immutability copy (the JSON deep clone), the no-op `setTimeout` in the own-slot peek, and the `console.warn` on a rejected action have no counterpart.
- `isConnected` is only carried through: the presence updates that set it live outside the engine.
- Card names and descriptions are carried as strings. They play no part in any rule.
- Engine.Replace: its contract only says that well-formedness, the seats and the version are kept. What a replacement does is stated by Invariants.ReplaceDreamSlotEffect and Invariants.TurnEndingActionsPassTurn.
- Engine.DiscardDrawn: its contract only says that well-formedness, the seats and the version are kept. What discarding does is stated by Engine.DropDrawnCard and Invariants.TurnEndingActionsPassTurn.
- Engine.SwapAndEndTurn: its contract only says that the effect is closed and the turn passed, and that an unresolvable swap leaves the slots alone. What a completed swap leaves in the slots is stated by Engine.SwapAndEndTurnSlots.
- Engine.Cancel: its contract only says that well-formedness, the seats and the version are kept. What cancelling does is stated by Invariants.TurnEndingActionsPassTurn.
- Engine.Confirm: its contract only says that well-formedness and the cards are kept. What confirming does is stated by Invariants.PeekSwapNeverExchanges.
- Engine.BlindSwapSelect: its contract only says that well-formedness and the cards are kept. What it does is stated by Invariants.BlindSwapNeverCompletes.
- Engine.SelectOther: its contract states only the cases that change nothing. The per-effect behaviour is stated by Invariants.BlindSwapNeverCompletes and Invariants.UnresolvedEffectsOnlyRecord.
- Dealing.StartNewRound: its own contract only counts the ids it uses. The rest of what a new round is appears on Dealing.Redeal, Dealing.StartNewRoundInv, Dealing.StartNewRoundCards and Dealing.StartNewRoundForgetsRound.
- The type declarations give `EffectType` six members, but the catalog also uses `take_two` and `peek_any`. The model's `EffectType` has all eight, following the code.
- The published Sen rules, which the card catalog and deck composition say they follow (src/game/cards.ts:4, 9 and 31), describe a wake-up penalty, a take-two effect and a round that ends when play returns to the caller. The engine has no penalty, and take_two and peek_any fall through every effect branch. Turn end does contain the round end on the return to the caller (src/game/logic.ts:316-322), and Engine.EndTurn models it, but no reachable state gets there: a wake-up call leaves nobody with a valid action. No swap ever exchanges cards. The model follows the code.
- Slot indexes are integers. The source's slot index is a JavaScript number, so a fraction such as 1.5 also passes the 0..3 checks of `isActionValid` (src/game/logic.ts:97-98, 123-124, 131-132); `applyAction` then reads a missing slot and throws (src/game/logic.ts:181, 224-228). The model cannot express those inputs.
- Card definition ids are the `DefinitionId` datatype, not strings: `Crow(n)` stands for `crow_<n>`, the three effect ids have constructors of their own, and `Other(text)` holds any other string. No conversion from strings is modelled, so the correspondence holds by convention only. For example, the string "crow_07" is not the catalog's crow_7 and belongs under `Other`, which nothing in the model enforces. The rules only ask whether an id is a catalog id.
- The published Sen rules say only the initial peek reveals slots 0 and 3 to their owner. The code shows those two slots during the whole initial-peek phase, even after the player has acknowledged; the model follows the code.
