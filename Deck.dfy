/**
 * DeckManager.cs: the draw pile and the discard pile. The random indices of
 * the Fisher–Yates shuffle (Random.Range(i, deck.Count)) are supplied by the
 * caller as `rolls`.
 */
module Deck {

  import opened Lists
  import opened Cards

  /** The first n rolls are what Random.Range(i, n) may return for i = 0 .. n - 1. */
  predicate ValidRolls(rolls: seq<int>, n: int)
  {
    n <= |rolls| && forall i :: 0 <= i < n ==> i <= rolls[i] < n
  }

  /** The rolls that leave every card in place. */
  function IdentityRolls(n: nat): (rolls: seq<int>)
    ensures ValidRolls(rolls, n)
  {
    seq(n, k => k)
  }

  /** deck[i] and deck[j] trade places (the temp-swap of ShuffleDeck). */
  function Swap<T>(s: seq<T>, i: int, j: int): (r: seq<T>)
    requires 0 <= i < |s| && 0 <= j < |s|
    ensures |r| == |s|
  {
    s[i := s[j]][j := s[i]]
  }

  /** A swap moves the two cards and leaves the others in place. */
  lemma SwapMoves<T>(s: seq<T>, i: int, j: int)
    requires 0 <= i < |s| && 0 <= j < |s|
    ensures Swap(s, i, j)[i] == s[j] && Swap(s, i, j)[j] == s[i]
    ensures forall k :: 0 <= k < |s| && k != i && k != j ==> Swap(s, i, j)[k] == s[k]
  {
  }

  /** A swap keeps the cards. */
  lemma SwapIsPermutation<T>(s: seq<T>, i: int, j: int)
    requires 0 <= i < |s| && 0 <= j < |s|
    ensures multiset(Swap(s, i, j)) == multiset(s)
  {
  }

  /** The Fisher–Yates pass of ShuffleDeck from index i on: swap position i with position rolls[i], then go on. */
  function ShuffledFrom<T>(s: seq<T>, rolls: seq<int>, i: int): (r: seq<T>)
    requires 0 <= i <= |s| && ValidRolls(rolls, |s|)
    ensures |r| == |s|
    decreases |s| - i
  {
    if i == |s| then s else ShuffledFrom(Swap(s, i, rolls[i]), rolls, i + 1)
  }

  /** ShuffleDeck's result on a list s. */
  function Shuffled<T>(s: seq<T>, rolls: seq<int>): seq<T>
    requires ValidRolls(rolls, |s|)
  {
    ShuffledFrom(s, rolls, 0)
  }

  /** A shuffle is a permutation: the same cards, each as often as before. */
  lemma {:induction false} ShuffledFromIsPermutation<T>(s: seq<T>, rolls: seq<int>, i: int)
    requires 0 <= i <= |s| && ValidRolls(rolls, |s|)
    ensures multiset(ShuffledFrom(s, rolls, i)) == multiset(s)
    decreases |s| - i
  {
    if i < |s| {
      SwapIsPermutation(s, i, rolls[i]);
      ShuffledFromIsPermutation(Swap(s, i, rolls[i]), rolls, i + 1);
    }
  }

  lemma ShuffledIsPermutation<T>(s: seq<T>, rolls: seq<int>)
    requires ValidRolls(rolls, |s|)
    ensures multiset(Shuffled(s, rolls)) == multiset(s)
  {
    ShuffledFromIsPermutation(s, rolls, 0);
  }

  /** The pass from index i on reads only the rolls from index i on. */
  lemma {:induction false} ShuffledFromReadsLaterRolls<T>(s: seq<T>, rolls: seq<int>, rolls': seq<int>, i: int)
    requires 0 <= i <= |s| && ValidRolls(rolls, |s|) && ValidRolls(rolls', |s|)
    requires forall k :: i <= k < |s| ==> rolls[k] == rolls'[k]
    ensures ShuffledFrom(s, rolls, i) == ShuffledFrom(s, rolls', i)
    decreases |s| - i
  {
    if i < |s| {
      ShuffledFromReadsLaterRolls(Swap(s, i, rolls[i]), rolls, rolls', i + 1);
    }
  }

  /**
   * Every order of the cards is a possible outcome of the shuffle: for a list
   * p that agrees with s before index i and holds the same cards from i on,
   * some rolls make the pass from i produce p.
   */
  lemma {:induction false} ReachFrom<T>(s: seq<T>, p: seq<T>, i: int) returns (rolls: seq<int>)
    requires 0 <= i <= |s| == |p|
    requires s[..i] == p[..i] && multiset(s[i..]) == multiset(p[i..])
    ensures ValidRolls(rolls, |s|) && ShuffledFrom(s, rolls, i) == p
    decreases |s| - i
  {
    if i == |s| {
      rolls := IdentityRolls(|s|);
      assert s == s[..i] && p == p[..i];
    } else {
      assert p[i] in multiset(p[i..]) by {
        assert p[i..][0] == p[i];
      }
      var k :| 0 <= k < |s[i..]| && s[i..][k] == p[i];
      var j := i + k;
      var s' := Swap(s, i, j);
      SwapIntoPlace(s, p, i, j);
      var rolls' := ReachFrom(s', p, i + 1);
      rolls := rolls'[i := j];
      ShuffledFromReadsLaterRolls(s', rolls', rolls, i + 1);
    }
  }

  /** Swapping the card p[i] into position i extends the agreeing prefix by one. */
  lemma SwapIntoPlace<T>(s: seq<T>, p: seq<T>, i: int, j: int)
    requires 0 <= i <= j < |s| == |p| && s[j] == p[i]
    requires s[..i] == p[..i] && multiset(s[i..]) == multiset(p[i..])
    ensures Swap(s, i, j)[..i + 1] == p[..i + 1]
    ensures multiset(Swap(s, i, j)[i + 1..]) == multiset(p[i + 1..])
  {
    SwapExtendsPrefix(s, p, i, j);
    SwapKeepsRest(s, p, i, j);
  }

  /** The prefix half of SwapIntoPlace. */
  lemma SwapExtendsPrefix<T>(s: seq<T>, p: seq<T>, i: int, j: int)
    requires 0 <= i <= j < |s| == |p| && s[j] == p[i] && s[..i] == p[..i]
    ensures Swap(s, i, j)[..i + 1] == p[..i + 1]
  {
    var s' := Swap(s, i, j);
    SwapMoves(s, i, j);
    assert s'[..i] == s[..i];
    assert s'[..i + 1] == s'[..i] + [s'[i]];
    assert p[..i + 1] == p[..i] + [p[i]];
  }

  /** The suffix half of SwapIntoPlace: what follows position i still holds the cards of p after i. */
  lemma SwapKeepsRest<T>(s: seq<T>, p: seq<T>, i: int, j: int)
    requires 0 <= i <= j < |s| == |p| && s[j] == p[i] && multiset(s[i..]) == multiset(p[i..])
    ensures multiset(Swap(s, i, j)[i + 1..]) == multiset(p[i + 1..])
  {
    var s' := Swap(s, i, j);
    SwapMoves(s, i, j);
    SuffixSwap(s, i, j);
    MultisetFrom(s', i);
    MultisetFrom(p, i);
    assert s'[i] == p[i];
    assert multiset(s'[i + 1..]) == multiset(s'[i..]) - multiset{p[i]};
    assert multiset(p[i + 1..]) == multiset(p[i..]) - multiset{p[i]};
  }

  /** Swapping two positions at or after i keeps the multiset of the suffix from i. */
  lemma SuffixSwap<T>(s: seq<T>, i: int, j: int)
    requires 0 <= i <= j < |s|
    ensures multiset(Swap(s, i, j)[i..]) == multiset(s[i..])
  {
    var t := s[i..];
    SwapMoves(s, i, j);
    SwapMoves(t, 0, j - i);
    assert Swap(s, i, j)[i..] == Swap(t, 0, j - i);
    SwapIsPermutation(t, 0, j - i);
  }

  /** Every permutation of a list is Shuffled(s, rolls) for some valid rolls. */
  lemma EveryOrderIsReachable<T>(s: seq<T>, p: seq<T>)
    requires multiset(p) == multiset(s)
    ensures exists rolls :: ValidRolls(rolls, |s|) && Shuffled(s, rolls) == p
  {
    assert |p| == |multiset(p)| == |multiset(s)| == |s|;
    assert s[0..] == s && p[0..] == p;
    var rolls := ReachFrom(s, p, 0);
  }

  function Max0(n: int): nat
  {
    if n < 0 then 0 else n
  }

  class DeckManager {
    const attackCardCount: int
    const defendCardCount: int
    const medicineCardCount: int
    const chargeCardCount: int
    const mekaLegCount: int
    const protectionGemCount: int

    var deck: seq<Card>
    var discardPile: seq<Card>

    /** The cards the deck was built with, and the cards that have left and entered the piles since. */
    ghost var initial: multiset<Card>
    ghost var drawn: multiset<Card>
    ghost var discarded: multiset<Card>

    /** Card conservation: the piles hold the initial cards, less those drawn, plus those discarded. */
    ghost predicate Valid()
      reads this
    {
      multiset(deck) + multiset(discardPile) + drawn == initial + discarded
    }

    /** The kinds InitializeDeck puts in the deck: each configured count, a negative count adding none. */
    function InitialKinds(): multiset<Kind>
    {
      Copies(Regular(Attack), attackCardCount) + Copies(Regular(Defend), defendCardCount)
      + Copies(Regular(Medicine), medicineCardCount) + Copies(Regular(Charge), chargeCardCount)
      + Copies(Gear(MekaLeg), mekaLegCount) + Copies(Gear(ProtectionGem), protectionGemCount)
    }

    /** The count field InitializeDeck uses for a kind, made non-negative. */
    function Configured(q: Kind): nat
    {
      match q
      case Regular(Attack) => Max0(attackCardCount)
      case Regular(Defend) => Max0(defendCardCount)
      case Regular(Medicine) => Max0(medicineCardCount)
      case Regular(Charge) => Max0(chargeCardCount)
      case Regular(Equipment) => 0
      case Gear(MekaLeg) => Max0(mekaLegCount)
      case Gear(ProtectionGem) => Max0(protectionGemCount)
    }

    function InitialSize(): nat
    {
      Max0(attackCardCount) + Max0(defendCardCount) + Max0(medicineCardCount) + Max0(chargeCardCount)
      + Max0(mekaLegCount) + Max0(protectionGemCount)
    }

    /**
     * Awake: InitializeDeck on empty piles. With the default counts
     * (10, 10, 10, 10, 3, 3) the deck holds 46 cards.
     */
    constructor (attacks: int, defends: int, medicines: int, charges: int, mekaLegs: int, gems: int, rolls: seq<int>)
      requires ValidRolls(rolls, Max0(attacks) + Max0(defends) + Max0(medicines) + Max0(charges) + Max0(mekaLegs) + Max0(gems))
      ensures attackCardCount == attacks && defendCardCount == defends && medicineCardCount == medicines
      ensures chargeCardCount == charges && mekaLegCount == mekaLegs && protectionGemCount == gems
      ensures KindsOf(deck) == InitialKinds() && |deck| == InitialSize() && discardPile == []
      ensures Valid() && initial == multiset(deck) && drawn == multiset{} && discarded == multiset{}
    {
      attackCardCount, defendCardCount, medicineCardCount := attacks, defends, medicines;
      chargeCardCount, mekaLegCount, protectionGemCount := charges, mekaLegs, gems;
      deck, discardPile := [], [];
      new;
      assert InitialSize() == Max0(attacks) + Max0(defends) + Max0(medicines) + Max0(charges) + Max0(mekaLegs) + Max0(gems);
      InitializeDeck(rolls);
      initial, drawn, discarded := multiset(deck), multiset{}, multiset{};
      assert discardPile == [];
      assert multiset(deck) + multiset(discardPile) + drawn == initial;
    }

    /** InitializeDeck: empties the draw pile, adds the configured cards kind by kind, then shuffles. */
    method InitializeDeck(rolls: seq<int>)
      requires ValidRolls(rolls, InitialSize())
      modifies this`deck
      ensures KindsOf(deck) == InitialKinds() && |deck| == InitialSize()
    {
      deck := [];
      assert KindsOf(deck) == multiset{};
      AddCards(attackCardCount, Regular(Attack));
      ghost var kinds := Copies(Regular(Attack), attackCardCount);
      assert KindsOf(deck) == kinds;
      AddCards(defendCardCount, Regular(Defend));
      kinds := kinds + Copies(Regular(Defend), defendCardCount);
      assert KindsOf(deck) == kinds;
      AddCards(medicineCardCount, Regular(Medicine));
      kinds := kinds + Copies(Regular(Medicine), medicineCardCount);
      assert KindsOf(deck) == kinds;
      AddCards(chargeCardCount, Regular(Charge));
      kinds := kinds + Copies(Regular(Charge), chargeCardCount);
      assert KindsOf(deck) == kinds;
      AddCards(mekaLegCount, Gear(MekaLeg));
      kinds := kinds + Copies(Gear(MekaLeg), mekaLegCount);
      assert KindsOf(deck) == kinds;
      AddCards(protectionGemCount, Gear(ProtectionGem));
      kinds := kinds + Copies(Gear(ProtectionGem), protectionGemCount);
      assert KindsOf(deck) == kinds;
      ghost var built := deck;
      assert KindsOf(built) == InitialKinds() && |built| == InitialSize();
      ShuffleDeck(rolls);
      ShuffledIsPermutation(built, rolls);
      KindsOfPermutation(deck, built);
    }

    /**
     * One loop of InitializeDeck: appends `count` new cards of kind k
     * (new Card(t) for a regular kind, new Card(CardType.Equipment, e) for equipment).
     */
    method AddCards(count: int, k: Kind)
      requires k != Regular(Equipment)
      modifies this`deck
      ensures KindsOf(deck) == old(KindsOf(deck)) + Copies(k, count)
      ensures |deck| == old(|deck|) + Max0(count)
    {
      ghost var deck0 := deck;
      ghost var added: seq<Card> := [];
      for i := 0 to Max0(count)
        invariant deck == deck0 + added && |added| == i
        invariant forall m :: 0 <= m < |added| ==> KindOf(added[m]) == k
      {
        var card := NewCard(k);
        deck := deck + [card];
        added := added + [card];
      }
      KindsOfAppend(deck0, added);
      KindsOfUniform(added, k);
    }

    /** The card one iteration of AddCards creates. */
    static method NewCard(k: Kind) returns (card: Card)
      requires k != Regular(Equipment)
      ensures KindOf(card) == k
    {
      if k.Regular? {
        card := new Card(k.t);
      } else {
        card := new Card.Gear(Equipment, k.e);
      }
    }

    /** ShuffleDeck: the Fisher–Yates pass over the draw pile, in place. */
    method ShuffleDeck(rolls: seq<int>)
      requires ValidRolls(rolls, |deck|)
      modifies this`deck
      ensures deck == Shuffled(old(deck), rolls)
    {
      for i := 0 to |deck|
        invariant |deck| == |old(deck)| && ValidRolls(rolls, |deck|)
        invariant ShuffledFrom(deck, rolls, i) == Shuffled(old(deck), rolls)
      {
        var temp := deck[i];
        var randomIndex := rolls[i];
        deck := deck[i := deck[randomIndex]];
        deck := deck[randomIndex := temp];
      }
    }

    /**
     * DrawCard: takes the front card of the draw pile. An empty draw pile is
     * first refilled with the whole discard pile, shuffled with `rolls`; with
     * both piles empty there is no card (null) and nothing changes.
     */
    method DrawCard(rolls: seq<int>) returns (drawnCard: Card?)
      requires Valid()
      requires deck == [] ==> ValidRolls(rolls, |discardPile|)
      modifies this`deck, this`discardPile, this`drawn
      ensures Valid()
      ensures old(deck) != [] ==>
        drawnCard == old(deck)[0] && deck == old(deck)[1..] && discardPile == old(discardPile)
      ensures old(deck) == [] && old(discardPile) != [] ==>
        var pile := Shuffled(old(discardPile), rolls);
        drawnCard == pile[0] && deck == pile[1..] && discardPile == []
      ensures old(deck) == [] && old(discardPile) == [] ==>
        drawnCard == null && deck == [] && discardPile == [] && drawn == old(drawn)
      ensures drawnCard != null ==> drawn == old(drawn) + multiset{drawnCard}
      ensures drawnCard != null ==>
        multiset(deck) + multiset(discardPile) + multiset{drawnCard} == old(multiset(deck) + multiset(discardPile))
      ensures drawnCard != null ==> |deck| + |discardPile| + 1 == old(|deck| + |discardPile|)
    {
      if |deck| == 0 {
        if |discardPile| > 0 {
          ghost var pile := discardPile;
          deck := deck + discardPile;
          discardPile := [];
          assert deck == pile;
          ShuffleDeck(rolls);
          ShuffledIsPermutation(pile, rolls);
          assert Valid();
        } else {
          return null;
        }
      }
      assert Valid();
      drawnCard := deck[0];
      MultisetOfTail(deck);
      deck := deck[1..];
      drawn := drawn + multiset{drawnCard};
    }

    /** DiscardCard: a card goes on top of the discard pile; null is ignored. */
    method DiscardCard(card: Card?)
      requires Valid()
      modifies this`discardPile, this`discarded
      ensures Valid()
      ensures card != null ==> discardPile == old(discardPile) + [card] && discarded == old(discarded) + multiset{card}
      ensures card == null ==> discardPile == old(discardPile) && discarded == old(discarded)
    {
      if card != null {
        var c: Card := card;
        MultisetOfPush(discardPile, c);
        ghost var before := multiset(deck) + multiset(discardPile) + drawn;
        discardPile := discardPile + [c];
        assert multiset(deck) + multiset(discardPile) + drawn == before + multiset{c};
        discarded := discarded + multiset{c};
      }
    }

    function GetDeckCount(): (n: nat)
      reads this
      ensures n == |deck|
    {
      |deck|
    }

    function GetDiscardCount(): (n: nat)
      reads this
      ensures n == |discardPile|
    {
      |discardPile|
    }
  }

  /** n copies of kind k (none when n is negative). */
  function Copies(k: Kind, n: int): multiset<Kind>
    decreases Max0(n)
  {
    if n <= 0 then multiset{} else Copies(k, n - 1) + multiset{k}
  }

  /** Copies(k, n) holds k max(n, 0) times and nothing else. */
  lemma {:induction false} CopiesCount(k: Kind, n: int, q: Kind)
    ensures Copies(k, n)[q] == if q == k then Max0(n) else 0
  {
    if n > 0 {
      CopiesCount(k, n - 1, q);
    }
  }

  /** A list of cards all of kind k holds k once per card. */
  lemma {:induction false} KindsOfUniform(s: seq<Card>, k: Kind)
    requires forall m :: 0 <= m < |s| ==> KindOf(s[m]) == k
    ensures KindsOf(s) == Copies(k, |s|)
  {
    if s != [] {
      KindsOfUniform(s[..|s| - 1], k);
    }
  }

  /** Appending a card adds its kind to the count. */
  lemma KindsOfPush(s: seq<Card>, c: Card)
    ensures KindsOf(s + [c]) == KindsOf(s) + multiset{KindOf(c)}
  {
    assert (s + [c])[..|s|] == s;
  }

  /**
   * The deck InitializeDeck builds holds each kind as often as its configured
   * count says (none for a negative count), and no Equipment card without an
   * equipment.
   */
  lemma InitialKindsCount(d: DeckManager, q: Kind)
    ensures d.InitialKinds()[q] == d.Configured(q)
  {
    CopiesCount(Regular(Attack), d.attackCardCount, q);
    CopiesCount(Regular(Defend), d.defendCardCount, q);
    CopiesCount(Regular(Medicine), d.medicineCardCount, q);
    CopiesCount(Regular(Charge), d.chargeCardCount, q);
    CopiesCount(Gear(MekaLeg), d.mekaLegCount, q);
    CopiesCount(Gear(ProtectionGem), d.protectionGemCount, q);
    match q {
      case Regular(Attack) =>
      case Regular(Defend) =>
      case Regular(Medicine) =>
      case Regular(Charge) =>
      case Regular(Equipment) =>
      case Gear(MekaLeg) =>
      case Gear(ProtectionGem) =>
    }
  }

  /**
   * The conservation of DeckManager, counted: draw pile + discard pile + cards
   * drawn - cards discarded is the size of the initial deck.
   */
  lemma CardCountIsConserved(d: DeckManager)
    requires d.Valid()
    ensures d.GetDeckCount() + d.GetDiscardCount() + |d.drawn| - |d.discarded| == |d.initial|
  {
    assert |multiset(d.deck) + multiset(d.discardPile) + d.drawn| == |d.initial + d.discarded|;
  }
}
