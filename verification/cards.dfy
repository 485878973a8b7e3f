/** The card catalog: the thirteen definitions, the 54-card composition
    table, deck construction with threaded instance ids, the Fisher-Yates
    shuffle driven by an explicit random source, and the lookup helpers. */
module Cards {
  import opened Types

  /** A random source: step `i` of a shuffle draws `rng(i)`. It stands for
      the successive `Math.random()` calls of one shuffle. */
  type Rng = nat -> nat

  const CardDefinitions: seq<CardDefinition> := [
    CardDefinition(Crow(0), "Peaceful Sleep", 0, NoEffect, "A dreamless slumber. Zero cats."),
    CardDefinition(Crow(1), "Quiet Dream", 1, NoEffect, "A whisper in the night."),
    CardDefinition(Crow(2), "Soft Moonlight", 2, NoEffect, "Gentle silver glow."),
    CardDefinition(Crow(3), "Distant Stars", 3, NoEffect, "Twinkling far away."),
    CardDefinition(Crow(4), "Wandering Cloud", 4, NoEffect, "Drifting through dreams."),
    CardDefinition(Crow(5), "Restless Wind", 5, NoEffect, "Stirring the night."),
    CardDefinition(Crow(6), "Fading Echo", 6, NoEffect, "Sounds of memory."),
    CardDefinition(Crow(7), "Shadowy Figure", 7, NoEffect, "A presence lurking."),
    CardDefinition(Crow(8), "Dark Clouds", 8, NoEffect, "Storm approaching."),
    CardDefinition(Crow(9), "Nightmare", 9, NoEffect, "Terror in the night. Nine cats!"),
    CardDefinition(Take2, "We\U{017A} 2", 7, TakeTwo, "Draw 2 cards, keep 1."),
    CardDefinition(Peek1, "Podejrzyj 1", 7, PeekAny, "Peek at any dream card."),
    CardDefinition(Swap2, "Zamie\U{0144} 2", 8, SwapBlind, "Swap any 2 cards blindly.")
  ]

  /** Copies per definition id, in the table's insertion order (which is the
      order deck construction walks it). */
  const DeckComposition: seq<(DefinitionId, nat)> := [
    (Crow(0), 4), (Crow(1), 4), (Crow(2), 4), (Crow(3), 4), (Crow(4), 4),
    (Crow(5), 4), (Crow(6), 4), (Crow(7), 4), (Crow(8), 4), (Crow(9), 9),
    (Take2, 3), (Peek1, 3), (Swap2, 3)
  ]

  const DeckSize: nat := 54

  // ---------------------------------------------------------------------------
  // Lookup

  /** First definition in `defs[from..]` with the given id (`Array.prototype.find`). */
  function FindDefinition(defs: seq<CardDefinition>, id: DefinitionId, from: nat): (r: Option<CardDefinition>)
    requires from <= |defs|
    ensures r.Some? ==> r.value in defs && r.value.id == id
    ensures r.None? <==> forall i :: from <= i < |defs| ==> defs[i].id != id
    decreases |defs| - from
  {
    if from == |defs| then None
    else if defs[from].id == id then Some(defs[from])
    else FindDefinition(defs, id, from + 1)
  }

  function GetCardDefinition(id: DefinitionId): (r: Option<CardDefinition>)
    ensures r.Some? ==> r.value in CardDefinitions && r.value.id == id
    ensures r.None? <==> forall i :: 0 <= i < |CardDefinitions| ==> CardDefinitions[i].id != id
  {
    FindDefinition(CardDefinitions, id, 0)
  }

  /** The ids the catalog defines, stated by shape rather than by search. */
  predicate InCatalog(id: DefinitionId)
  {
    match id
    case Crow(rank) => rank <= 9
    case Take2 => true
    case Peek1 => true
    case Swap2 => true
    case Other(_) => false
  }

  /** The effect kind the catalog gives `id`, or `None` when the catalog
      has no row for it. Read off the id's shape; `CatalogProjections` shows
      it agrees with the linear search. */
  function KnownEffect(id: DefinitionId): (r: Option<EffectType>)
    ensures r.Some? <==> InCatalog(id)
  {
    match id
    case Crow(rank) => if rank <= 9 then Some(NoEffect) else None
    case Take2 => Some(TakeTwo)
    case Peek1 => Some(PeekAny)
    case Swap2 => Some(SwapBlind)
    case Other(_) => None
  }

  /** The crow value the catalog gives `id`, or 0 when it has no row. */
  function KnownCrowValue(id: DefinitionId): (r: int)
    ensures 0 <= r <= 9
    ensures !InCatalog(id) ==> r == 0
  {
    match id
    case Crow(rank) => if rank <= 9 then rank else 0
    case Take2 => 7
    case Peek1 => 7
    case Swap2 => 8
    case Other(_) => 0
  }

  /** The row of `CardDefinitions` holding a catalog id. */
  function CatalogRow(id: DefinitionId): (i: nat)
    requires InCatalog(id)
  {
    match id
    case Crow(rank) => rank
    case Take2 => 10
    case Peek1 => 11
    case Swap2 => 12
  }

  /** Every row of the catalog carries a catalog id, sits at that id's row,
      and holds the effect kind and crow value the shape-based projections
      give it. */
  lemma CatalogRows()
    ensures |CardDefinitions| == 13
    ensures forall i :: 0 <= i < |CardDefinitions| ==>
              InCatalog(CardDefinitions[i].id) && CatalogRow(CardDefinitions[i].id) == i
              && KnownEffect(CardDefinitions[i].id) == Some(CardDefinitions[i].effectType)
              && KnownCrowValue(CardDefinitions[i].id) == CardDefinitions[i].crowValue
  {
  }

  /** The linear search succeeds exactly on the catalog's ids. */
  lemma InCatalogIffDefined(id: DefinitionId)
    ensures InCatalog(id) <==> GetCardDefinition(id).Some?
  {
    CatalogRows();
    if InCatalog(id) {
      assert CardDefinitions[CatalogRow(id)].id == id;
    }
  }

  /** Every catalog definition costs between 0 and 9 crows. */
  lemma CatalogCrowValuesInRange()
    ensures forall d :: d in CardDefinitions ==> 0 <= d.crowValue <= 9
  {
    CatalogRows();
  }

  /** The shape-based projections are exactly what `GetCardDefinition`
      finds in `CardDefinitions`. */
  lemma CatalogProjections(id: DefinitionId)
    ensures GetCardDefinition(id).Some? ==>
              KnownEffect(id) == Some(GetCardDefinition(id).value.effectType)
              && KnownCrowValue(id) == GetCardDefinition(id).value.crowValue
    ensures GetCardDefinition(id).None? ==> KnownEffect(id).None? && KnownCrowValue(id) == 0
  {
    InCatalogIffDefined(id);
    CatalogRows();
  }

  /** `getCrowValue`: the catalog's value for the card, 0 for an id the
      catalog lacks. */
  function GetCrowValue(card: CardInstance): (r: int)
    ensures 0 <= r <= 9
  {
    KnownCrowValue(card.definitionId)
  }

  /** `getEffectType`: the catalog's effect kind, none for an unknown id. */
  function GetEffectType(card: CardInstance): (r: EffectType)
    ensures !InCatalog(card.definitionId) ==> r == NoEffect
  {
    match KnownEffect(card.definitionId)
    case None => NoEffect
    case Some(e) => e
  }

  /** `def?.effectType !== 'none'`: an unknown id yields `undefined`, which
      differs from `'none'`, so such a card counts as having an effect. */
  function HasEffect(card: CardInstance): (r: bool)
    ensures !InCatalog(card.definitionId) ==> r
  {
    match KnownEffect(card.definitionId)
    case None => true
    case Some(e) => e != NoEffect
  }

  /** Each helper answers from the catalog definition of the card's id. With
      no definition the crow value is 0, the effect type is none, and the
      card still counts as having an effect. */
  lemma CardHelpersAreLookups(card: CardInstance)
    ensures GetCrowValue(card) == match GetCardDefinition(card.definitionId)
                                  case None => 0 case Some(d) => d.crowValue
    ensures GetEffectType(card) == match GetCardDefinition(card.definitionId)
                                   case None => NoEffect case Some(d) => d.effectType
    ensures HasEffect(card) == match GetCardDefinition(card.definitionId)
                               case None => true case Some(d) => d.effectType != NoEffect
  {
    CatalogProjections(card.definitionId);
  }

  /** For a card the catalog knows, `HasEffect` agrees with `GetEffectType`;
      for an unknown id the two disagree. */
  lemma HasEffectAgreesWithEffectType(card: CardInstance)
    ensures InCatalog(card.definitionId) ==> (HasEffect(card) <==> GetEffectType(card) != NoEffect)
    ensures !InCatalog(card.definitionId) ==> HasEffect(card) && GetEffectType(card) == NoEffect
  {
  }

  /** The catalog's effect cards are exactly the three special ids, with
      the kinds the catalog gives them. */
  lemma CatalogEffectCards(card: CardInstance)
    requires InCatalog(card.definitionId)
    ensures HasEffect(card) <==> card.definitionId in {Take2, Peek1, Swap2}
    ensures card.definitionId == Take2 ==> GetEffectType(card) == TakeTwo
    ensures card.definitionId == Peek1 ==> GetEffectType(card) == PeekAny
    ensures card.definitionId == Swap2 ==> GetEffectType(card) == SwapBlind
  {
  }

  // ---------------------------------------------------------------------------
  // Composition table

  /** Total number of cards a composition table describes. */
  function CompositionSize(comp: seq<(DefinitionId, nat)>): nat
  {
    if |comp| == 0 then 0 else comp[0].1 + CompositionSize(comp[1..])
  }

  /** The table as a multiset of definition ids: `comp[i].1` copies of `comp[i].0`. */
  function CompositionMultiset(comp: seq<(DefinitionId, nat)>): multiset<DefinitionId>
  {
    if |comp| == 0 then multiset{}
    else multiset{}[comp[0].0 := comp[0].1] + CompositionMultiset(comp[1..])
  }

  predicate DistinctKeys(comp: seq<(DefinitionId, nat)>)
  {
    forall i, j :: 0 <= i < j < |comp| ==> comp[i].0 != comp[j].0
  }

  /** With distinct keys, the multiset holds each key exactly as often as
      its row says, and nothing that is not a key. */
  lemma {:induction false} CompositionMultisetCounts(comp: seq<(DefinitionId, nat)>, d: DefinitionId)
    requires DistinctKeys(comp)
    ensures forall i :: 0 <= i < |comp| && comp[i].0 == d ==> CompositionMultiset(comp)[d] == comp[i].1
    ensures (forall i :: 0 <= i < |comp| ==> comp[i].0 != d) ==> CompositionMultiset(comp)[d] == 0
  {
    if |comp| > 0 {
      CompositionMultisetCounts(comp[1..], d);
      assert forall i :: 0 < i < |comp| ==> comp[1..][i - 1] == comp[i];
    }
  }

  /** The table describes 54 cards. */
  lemma DeckCompositionTotal()
    ensures CompositionSize(DeckComposition) == DeckSize
  {
  }

  /** No definition id appears twice in the table. */
  lemma DeckCompositionDistinct()
    ensures DistinctKeys(DeckComposition)
  {
    CatalogRows();
    CompositionFollowsCatalog();
    forall i, j | 0 <= i < j < |DeckComposition|
      ensures DeckComposition[i].0 != DeckComposition[j].0
    {
      assert CatalogRow(CardDefinitions[i].id) == i && CatalogRow(CardDefinitions[j].id) == j;
    }
  }

  /** Every row of the table names a catalog definition. */
  lemma DeckCompositionInCatalog()
    ensures forall i :: 0 <= i < |DeckComposition| ==> InCatalog(DeckComposition[i].0)
    ensures forall i :: 0 <= i < |DeckComposition| ==> GetCardDefinition(DeckComposition[i].0).Some?
  {
    CatalogRows();
    CompositionFollowsCatalog();
    forall i | 0 <= i < |DeckComposition|
      ensures GetCardDefinition(DeckComposition[i].0).Some?
    {
      InCatalogIffDefined(DeckComposition[i].0);
    }
  }

  /** The table lists the catalog's ids in the catalog's order. */
  lemma CompositionFollowsCatalog()
    ensures |DeckComposition| == |CardDefinitions|
    ensures forall i :: 0 <= i < |DeckComposition| ==> DeckComposition[i].0 == CardDefinitions[i].id
  {
  }

  // ---------------------------------------------------------------------------
  // Instance ids and deck construction

  /** One fresh id from the counter: every id issued so far is at most
      `counter`, so the new one is new, and the counter moves past it. */
  function GenerateInstanceId(counter: nat): (r: (InstanceId, nat))
    ensures counter < r.0 <= r.1
  {
    (counter + 1, counter + 1)
  }

  /** The definition ids of a sequence of cards, with multiplicity. */
  function DefinitionIds(cards: seq<CardInstance>): multiset<DefinitionId>
  {
    if |cards| == 0 then multiset{} else multiset{cards[0].definitionId} + DefinitionIds(cards[1..])
  }

  lemma {:induction false} DefinitionIdsAppend(a: seq<CardInstance>, b: seq<CardInstance>)
    ensures DefinitionIds(a + b) == DefinitionIds(a) + DefinitionIds(b)
  {
    if |a| > 0 {
      var head := multiset{a[0].definitionId};
      assert DefinitionIds(a + b) == head + DefinitionIds(a[1..] + b) by {
        assert (a + b)[0] == a[0];
        assert (a + b)[1..] == a[1..] + b;
      }
      DefinitionIdsAppend(a[1..], b);
      UnionAssoc(head, DefinitionIds(a[1..]), DefinitionIds(b));
    } else {
      assert a + b == b;
    }
  }

  lemma UnionAssoc<T>(x: multiset<T>, y: multiset<T>, z: multiset<T>)
    ensures x + (y + z) == (x + y) + z
  {
    forall e
      ensures (x + (y + z))[e] == ((x + y) + z)[e]
    {
    }
  }

  /** `count` copies of one definition, ids taken from the counter in order. */
  function Copies(definitionId: DefinitionId, count: nat, counter: nat): (r: (seq<CardInstance>, nat))
    ensures |r.0| == count && r.1 == counter + count
    ensures forall i :: 0 <= i < count ==> r.0[i] == CardInstance(counter + 1 + i, definitionId)
    ensures DefinitionIds(r.0) == multiset{}[definitionId := count]
    decreases count
  {
    if count == 0 then ([], counter)
    else
      var (id, next) := GenerateInstanceId(counter);
      var (rest, last) := Copies(definitionId, count - 1, next);
      assert ([CardInstance(id, definitionId)] + rest)[1..] == rest;
      ([CardInstance(id, definitionId)] + rest, last)
  }

  /** Walks the composition table in order, appending each row's copies. */
  function BuildDeck(comp: seq<(DefinitionId, nat)>, counter: nat): (r: (seq<CardInstance>, nat))
    ensures |r.0| == CompositionSize(comp) && r.1 == counter + |r.0|
    ensures forall i :: 0 <= i < |r.0| ==> r.0[i].instanceId == counter + 1 + i
    ensures DefinitionIds(r.0) == CompositionMultiset(comp)
  {
    if |comp| == 0 then ([], counter)
    else
      var (first, next) := Copies(comp[0].0, comp[0].1, counter);
      var (rest, last) := BuildDeck(comp[1..], next);
      DefinitionIdsAppend(first, rest);
      assert forall i :: |first| <= i < |first + rest| ==> (first + rest)[i] == rest[i - |first|];
      (first + rest, last)
  }

  /** Cards whose ids make up exactly a table with distinct keys hold each
      row's count of its id, and only ids the table lists. */
  lemma ComposedCardsMatchTable(comp: seq<(DefinitionId, nat)>, cards: seq<CardInstance>)
    requires DistinctKeys(comp)
    requires DefinitionIds(cards) == CompositionMultiset(comp)
    ensures forall i :: 0 <= i < |comp| ==> DefinitionIds(cards)[comp[i].0] == comp[i].1
    ensures forall c :: c in cards ==> exists i :: 0 <= i < |comp| && comp[i].0 == c.definitionId
  {
    forall i | 0 <= i < |comp|
      ensures DefinitionIds(cards)[comp[i].0] == comp[i].1
    {
      CompositionMultisetCounts(comp, comp[i].0);
    }
    forall c | c in cards
      ensures exists i :: 0 <= i < |comp| && comp[i].0 == c.definitionId
    {
      DefinitionIdsMember(cards, c);
      CompositionMultisetCounts(comp, c.definitionId);
    }
  }

  /** `createDeck`: the table's cards in table order, ids fresh from the
      threaded counter and strictly increasing. */
  function CreateDeck(counter: nat): (r: (seq<CardInstance>, nat))
    ensures |r.0| == DeckSize && r.1 == counter + DeckSize
    ensures IdsWithin(r.0, counter, r.1) && IdsIncrease(r.0)
  {
    IdsFromCounter(DeckComposition, counter);
    DeckCompositionTotal();
    BuildDeck(DeckComposition, counter)
  }

  /** Ids numbered on from the counter lie above it, at most at the
      returned counter, and increase along the deck. */
  lemma IdsFromCounter(comp: seq<(DefinitionId, nat)>, counter: nat)
    ensures IdsWithin(BuildDeck(comp, counter).0, counter, BuildDeck(comp, counter).1)
    ensures IdsIncrease(BuildDeck(comp, counter).0)
  {
  }

  /** Every id lies in `(low, high]`. */
  predicate IdsWithin(cards: seq<CardInstance>, low: nat, high: nat)
  {
    forall i :: 0 <= i < |cards| ==> low < cards[i].instanceId <= high
  }

  /** Ids strictly increase along the sequence, so no two cards share one. */
  predicate IdsIncrease(cards: seq<CardInstance>)
  {
    forall i, j :: 0 <= i < j < |cards| ==> cards[i].instanceId < cards[j].instanceId
  }

  /** Every card of a new deck has a catalog definition. */
  lemma CreateDeckInCatalog(counter: nat)
    ensures forall c :: c in CreateDeck(counter).0 ==> InCatalog(c.definitionId)
  {
    DeckCompositionDistinct();
    DeckCompositionInCatalog();
    ComposedCardsMatchTable(DeckComposition, CreateDeck(counter).0);
  }

  lemma {:induction false} DefinitionIdsMember(cards: seq<CardInstance>, c: CardInstance)
    requires c in cards
    ensures DefinitionIds(cards)[c.definitionId] > 0
  {
    if cards[0] != c {
      DefinitionIdsMember(cards[1..], c);
    }
  }

  /** `createDeck` yields exactly the table's count of each definition id. */
  lemma CreateDeckComposition(counter: nat)
    ensures forall i :: 0 <= i < |DeckComposition| ==>
              DefinitionIds(CreateDeck(counter).0)[DeckComposition[i].0] == DeckComposition[i].1
  {
    DeckCompositionDistinct();
    ComposedCardsMatchTable(DeckComposition, CreateDeck(counter).0);
  }

  /** Holds no card of any definition the table does not list. */
  lemma CreateDeckHasNothingElse(counter: nat, d: DefinitionId)
    requires forall i :: 0 <= i < |DeckComposition| ==> DeckComposition[i].0 != d
    ensures DefinitionIds(CreateDeck(counter).0)[d] == 0
  {
    DeckCompositionDistinct();
    CompositionMultisetCounts(DeckComposition, d);
  }

  /** Two decks built one after the other from the threaded counter share no
      instance id. */
  lemma SuccessiveDecksDisjoint(counter: nat)
    ensures var (first, next) := CreateDeck(counter);
            var (second, _) := CreateDeck(next);
            forall i, j :: 0 <= i < |first| && 0 <= j < |second| ==>
              first[i].instanceId != second[j].instanceId
  {
  }

  // ---------------------------------------------------------------------------
  // Shuffle

  function Swap<T>(a: seq<T>, i: nat, j: nat): (r: seq<T>)
    requires i < |a| && j < |a|
    ensures |r| == |a| && multiset(r) == multiset(a)
    ensures r[i] == a[j] && r[j] == a[i]
    ensures forall k :: 0 <= k < |a| && k != i && k != j ==> r[k] == a[k]
  {
    a[i := a[j]][j := a[i]]
  }

  /** Fisher-Yates from position `i` down to 1: position `i` is exchanged
      with position `rng(i) mod (i + 1)`. */
  function FisherYates<T>(a: seq<T>, i: nat, rng: Rng): (r: seq<T>)
    requires i < |a|
    ensures |r| == |a| && multiset(r) == multiset(a)
    decreases i
  {
    if i == 0 then a
    else FisherYates(Swap(a, i, rng(i) % (i + 1)), i - 1, rng)
  }

  /** `shuffleArray`: a permutation of the input chosen by the random source.
      The input value itself is never changed (values are immutable). */
  function ShuffleArray<T>(xs: seq<T>, rng: Rng): (r: seq<T>)
    ensures |r| == |xs| && multiset(r) == multiset(xs)
  {
    if |xs| == 0 then xs else FisherYates(xs, |xs| - 1, rng)
  }
}
