/** The zones a card can occupy in a game state (deck, discard pile, a dream
    slot, the held card) and the multiset of all cards in them, with the
    slot-update facts conservation proofs are built from. `peekedCard` of a
    pending effect is a copied reference, not a zone. */
module Zones {
  import opened Types

  function OptionCards(c: Option<CardInstance>): multiset<CardInstance>
  {
    if c.Some? then multiset{c.value} else multiset{}
  }

  /** The card of an optional reference as a zero- or one-element pile. */
  function OptionSeq(c: Option<CardInstance>): (r: seq<CardInstance>)
    ensures multiset(r) == OptionCards(c)
  {
    if c.Some? then [c.value] else []
  }

  /** The cards of a pile, taken from the top (the last element) down. */
  function PileCards(s: seq<CardInstance>): multiset<CardInstance>
  {
    if |s| == 0 then multiset{} else PileCards(s[..|s| - 1]) + multiset{s[|s| - 1]}
  }

  /** `PileCards` peels the top card. */
  lemma PileCardsTop(s: seq<CardInstance>)
    requires |s| > 0
    ensures PileCards(s) == PileCards(s[..|s| - 1]) + multiset{s[|s| - 1]}
  {
  }

  lemma {:induction false} PileCardsMultiset(s: seq<CardInstance>)
    ensures PileCards(s) == multiset(s)
  {
    if |s| > 0 {
      PileCardsMultiset(s[..|s| - 1]);
      assert s == s[..|s| - 1] + [s[|s| - 1]];
    }
  }

  /** The cards lying in a row of dream slots. */
  function SlotCards(slots: seq<DreamSlot>): multiset<CardInstance>
  {
    if |slots| == 0 then multiset{} else OptionCards(slots[0].card) + SlotCards(slots[1..])
  }

  /** The cards lying in every player's dream slots. */
  function PlayersCards(players: seq<PlayerState>): multiset<CardInstance>
  {
    if |players| == 0 then multiset{}
    else SlotCards(players[0].dreamSlots) + PlayersCards(players[1..])
  }

  /** Every card of the state, counted once per zone it lies in. */
  function CardsInPlay(s: GameState): multiset<CardInstance>
  {
    multiset(s.deck) + multiset(s.discard) + PlayersCards(s.players) + OptionCards(s.drawnCard)
  }

  /** Two rows of slots holding the same card references, position by position. */
  predicate SameCards(a: seq<DreamSlot>, b: seq<DreamSlot>)
  {
    |a| == |b| && forall k :: 0 <= k < |a| ==> a[k].card == b[k].card
  }

  /** The state with slot `k` of player `p` now holding `c`; nothing else changes. */
  function SetSlotCard(s: GameState, p: nat, k: nat, c: Option<CardInstance>): (r: GameState)
    requires p < |s.players| && k < |s.players[p].dreamSlots|
    ensures r == s.(players := r.players)
    ensures |r.players| == |s.players|
    ensures forall i :: 0 <= i < |s.players| && i != p ==> r.players[i] == s.players[i]
    ensures r.players[p] == s.players[p].(dreamSlots := r.players[p].dreamSlots)
    ensures |r.players[p].dreamSlots| == |s.players[p].dreamSlots|
    ensures r.players[p].dreamSlots[k] == s.players[p].dreamSlots[k].(card := c)
    ensures forall j :: 0 <= j < |s.players[p].dreamSlots| && j != k ==>
              r.players[p].dreamSlots[j] == s.players[p].dreamSlots[j]
  {
    var player := s.players[p];
    var slots := player.dreamSlots[k := player.dreamSlots[k].(card := c)];
    s.(players := s.players[p := player.(dreamSlots := slots)])
  }

  /** `SlotCards` peels its first slot. */
  lemma SlotCardsCons(slots: seq<DreamSlot>)
    requires |slots| > 0
    ensures SlotCards(slots) == OptionCards(slots[0].card) + SlotCards(slots[1..])
  {
  }

  lemma {:induction false} SlotCardsUpdate(slots: seq<DreamSlot>, k: nat, x: DreamSlot)
    requires k < |slots|
    ensures SlotCards(slots[k := x]) + OptionCards(slots[k].card) == SlotCards(slots) + OptionCards(x.card)
  {
    var t := slots[k := x];
    SlotCardsCons(t);
    SlotCardsCons(slots);
    if k == 0 {
      assert t[1..] == slots[1..];
      HeadSwap(SlotCards(t), SlotCards(slots), SlotCards(slots[1..]), OptionCards(slots[0].card), OptionCards(x.card));
    } else {
      var rest := slots[1..];
      SlotCardsUpdate(rest, k - 1, x);
      assert t[0] == slots[0] && t[1..] == rest[k - 1 := x] && rest[k - 1] == slots[k];
      TailUpdate(SlotCards(t), SlotCards(slots), OptionCards(slots[0].card), SlotCards(rest[k - 1 := x]),
                 OptionCards(slots[k].card), SlotCards(rest), OptionCards(x.card));
    }
  }

  /** Replacing the head `o` of `ts == n + rest`, `ss == o + rest` by `n`. */
  lemma HeadSwap<T>(ts: multiset<T>, ss: multiset<T>, rest: multiset<T>, o: multiset<T>, n: multiset<T>)
    requires ts == n + rest && ss == o + rest
    ensures ts + o == ss + n
  {
    forall e
      ensures (ts + o)[e] == (ss + n)[e]
    {
    }
  }

  /** An update in the tail (`b + c == d + e`) under a common head `a`. */
  lemma TailUpdate<T>(ts: multiset<T>, ss: multiset<T>, a: multiset<T>, b: multiset<T>, c: multiset<T>,
                      d: multiset<T>, e: multiset<T>)
    requires ts == a + b && ss == a + d && b + c == d + e
    ensures ts + c == ss + e
  {
    forall x
      ensures (ts + c)[x] == (ss + e)[x]
    {
      assert (b + c)[x] == (d + e)[x];
    }
  }

  lemma {:induction false} PlayersCardsUpdate(players: seq<PlayerState>, i: nat, p: PlayerState)
    requires i < |players|
    ensures PlayersCards(players[i := p]) + SlotCards(players[i].dreamSlots)
            == PlayersCards(players) + SlotCards(p.dreamSlots)
  {
    var t := players[i := p];
    assert PlayersCards(t) == SlotCards(t[0].dreamSlots) + PlayersCards(t[1..]);
    assert PlayersCards(players) == SlotCards(players[0].dreamSlots) + PlayersCards(players[1..]);
    if i == 0 {
      assert t[1..] == players[1..];
      HeadSwap(PlayersCards(t), PlayersCards(players), PlayersCards(players[1..]),
               SlotCards(players[0].dreamSlots), SlotCards(p.dreamSlots));
    } else {
      var rest := players[1..];
      PlayersCardsUpdate(rest, i - 1, p);
      assert t[0] == players[0] && t[1..] == rest[i - 1 := p] && rest[i - 1] == players[i];
      TailUpdate(PlayersCards(t), PlayersCards(players), SlotCards(players[0].dreamSlots),
                 PlayersCards(rest[i - 1 := p]), SlotCards(players[i].dreamSlots), PlayersCards(rest), SlotCards(p.dreamSlots));
    }
  }

  lemma {:induction false} SameCardsSlotCards(a: seq<DreamSlot>, b: seq<DreamSlot>)
    requires SameCards(a, b)
    ensures SlotCards(a) == SlotCards(b)
  {
    if |a| > 0 {
      SameCardsSlotCards(a[1..], b[1..]);
    }
  }

  /** Changing anything but the card references of the slots leaves the
      slot cards as they were. */
  lemma {:induction false} SameCardsPlayersCards(ps: seq<PlayerState>, qs: seq<PlayerState>)
    requires |ps| == |qs|
    requires forall i :: 0 <= i < |ps| ==> SameCards(ps[i].dreamSlots, qs[i].dreamSlots)
    ensures PlayersCards(ps) == PlayersCards(qs)
  {
    if |ps| > 0 {
      SameCardsSlotCards(ps[0].dreamSlots, qs[0].dreamSlots);
      SameCardsPlayersCards(ps[1..], qs[1..]);
    }
  }

  /** Writing `c` into a slot takes the slot's old card out of play and puts
      `c` in. */
  lemma SetSlotCardCards(s: GameState, p: nat, k: nat, c: Option<CardInstance>)
    requires p < |s.players| && k < |s.players[p].dreamSlots|
    ensures PlayersCards(SetSlotCard(s, p, k, c).players) + OptionCards(s.players[p].dreamSlots[k].card)
            == PlayersCards(s.players) + OptionCards(c)
  {
    var player := s.players[p];
    var slot := player.dreamSlots[k].(card := c);
    var updated := player.(dreamSlots := player.dreamSlots[k := slot]);
    assert SetSlotCard(s, p, k, c).players == s.players[p := updated];
    var r := SetSlotCard(s, p, k, c);
    SlotCardsUpdate(player.dreamSlots, k, slot);
    PlayersCardsUpdate(s.players, p, updated);
    var oldCard, newCard := OptionCards(player.dreamSlots[k].card), OptionCards(c);
    MultisetCancel(PlayersCards(r.players), PlayersCards(s.players), SlotCards(player.dreamSlots),
                   SlotCards(updated.dreamSlots), oldCard, newCard);
  }

  /** From `p + x == q + y` and `y + o == x + n`, the row `x`/`y` cancels. */
  lemma MultisetCancel<T>(p: multiset<T>, q: multiset<T>, x: multiset<T>, y: multiset<T>, o: multiset<T>, n: multiset<T>)
    requires p + x == q + y && y + o == x + n
    ensures p + o == q + n
  {
    forall e
      ensures (p + o)[e] == (q + n)[e]
    {
      assert (p + x)[e] == (q + y)[e];
      assert (y + o)[e] == (x + n)[e];
    }
  }

  /** An exchange `a + o == b + n` inside a larger sum `x + _ + d`. */
  lemma MultisetFrame<T>(x: multiset<T>, a: multiset<T>, b: multiset<T>, d: multiset<T>, o: multiset<T>, n: multiset<T>)
    requires a + o == b + n
    ensures x + a + d + o == x + b + d + n
  {
    forall e
      ensures (x + a + d + o)[e] == (x + b + d + n)[e]
    {
      assert (a + o)[e] == (b + n)[e];
    }
  }

  /** `p + x == q + x` leaves `p == q`. */
  lemma MultisetCancelRight<T>(p: multiset<T>, q: multiset<T>, x: multiset<T>)
    requires p + x == q + x
    ensures p == q
  {
    forall e
      ensures p[e] == q[e]
    {
      assert (p + x)[e] == (q + x)[e];
    }
  }
}
