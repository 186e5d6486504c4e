/**
 * Playing cards: Card.PlayCard (Cards.cs), the two hands of HandManager.cs
 * and the attack/reaction protocol of ReactionManager.cs. The three call into
 * each other (a card's attack starts a reaction, a reaction plays a card and
 * takes it out of a hand), so they share one module.
 *
 * The static Instance of each manager is passed explicitly; `null` stands
 * for a missing instance. Random.value comparisons arrive as booleans and
 * the shuffle rolls of every draw as `shuffle`.
 */
module Combat {

  import opened Lists
  import opened Cards
  import opened Deck
  import opened Battlefield
  import opened Equipment

  function ReactionSet(rm: ReactionManager?): set<ReactionManager>
  {
    if rm == null then {} else {rm}
  }

  function HandSet(hm: HandManager?): set<HandManager>
  {
    if hm == null then {} else {hm}
  }

  function EquipSet(em: EquipmentManager?): set<EquipmentManager>
  {
    if em == null then {} else {em}
  }

  /** `EquipmentManager.Instance != null && EquipmentManager.Instance.HasEquipment(u, t)`. */
  predicate Wears(em: EquipmentManager?, u: DinoUnit, t: EquipmentType)
    reads EquipSet(em)
  {
    em != null && em.HasEquipment(u, t)
  }

  function Min(a: int, b: int): int
  {
    if a <= b then a else b
  }

  /**
   * How many cards DrawCards(count) puts in a hand with `room` free slots when
   * the two piles hold `avail` cards: one per iteration until the hand is
   * full or both piles are empty.
   */
  function Dealt(count: int, room: int, avail: int): nat
  {
    Min(Max0(count), Min(Max0(room), Max0(avail)))
  }

  /** The cards left in the draw and discard piles; none without a deck. */
  function Avail(deck: DeckManager?): nat
    reads DeckSet(deck)
  {
    if deck == null then 0 else |deck.deck| + |deck.discardPile|
  }

  /** The piles of a deck, as one multiset. */
  function Piles(deck: DeckManager?): multiset<Card>
    reads DeckSet(deck)
  {
    if deck == null then multiset{} else multiset(deck.deck) + multiset(deck.discardPile)
  }

  /** Every shuffle the game may ask for gets valid rolls: `shuffle(n)` shuffles a pile of n cards. */
  ghost predicate Fair(shuffle: nat -> seq<int>)
  {
    forall n: nat :: ValidRolls(shuffle(n), n)
  }

  /**
   * DeckManager.DrawCard with the rolls `shuffle` gives for the discard pile,
   * seen from a hand: a card leaves the piles exactly when they are not both
   * empty, and it is counted as drawn.
   */
  method DrawFrom(deck: DeckManager, shuffle: nat -> seq<int>) returns (card: Card?)
    requires deck.Valid() && Fair(shuffle)
    modifies deck`deck, deck`discardPile, deck`drawn
    ensures deck.Valid()
    ensures card == null <==> old(|deck.deck| + |deck.discardPile|) == 0
    ensures card == null ==> deck.drawn == old(deck.drawn) && |deck.deck| + |deck.discardPile| == 0
    ensures card != null ==>
      deck.drawn == old(deck.drawn) + multiset{card} && |deck.deck| + |deck.discardPile| + 1 == old(|deck.deck| + |deck.discardPile|)
  {
    card := deck.DrawCard(shuffle(|deck.discardPile|));
  }

  /**
   * One iteration of the draw loop: a card, if the piles hold one, is drawn
   * and appended to the hand and to the cards added so far.
   */
  method DrawStep(hand: seq<Card>, targetHand: seq<Card>, ghost added: seq<Card>, deck: DeckManager,
                  shuffle: nat -> seq<int>, ghost drawn0: multiset<Card>)
      returns (targetHand': seq<Card>, ghost added': seq<Card>)
    requires deck.Valid() && Fair(shuffle)
    requires targetHand == hand + added && deck.drawn == drawn0 + multiset(added)
    modifies deck`deck, deck`discardPile, deck`drawn
    ensures deck.Valid() && deck.drawn == drawn0 + multiset(added')
    ensures targetHand' == hand + added' && |targetHand'| <= |targetHand| + 1
    ensures old(|deck.deck| + |deck.discardPile|) == 0 ==> added' == added && |deck.deck| + |deck.discardPile| == 0
    ensures old(|deck.deck| + |deck.discardPile|) > 0 ==>
      |added'| == |added| + 1 && |deck.deck| + |deck.discardPile| + 1 == old(|deck.deck| + |deck.discardPile|)
  {
    targetHand', added' := targetHand, added;
    ghost var before := deck.drawn;
    var drawnCard := DrawFrom(deck, shuffle);
    if drawnCard != null {
      var card: Card := drawnCard;
      AddOne(drawn0, added, card, before, deck.drawn);
      assert hand + added + [card] == hand + (added + [card]);
      targetHand' := targetHand + [card];
      added' := added + [card];
    }
  }

  /** The drawn tally after one more card joins `added`. */
  lemma AddOne(d0: multiset<Card>, added: seq<Card>, card: Card, d1: multiset<Card>, d2: multiset<Card>)
    requires d1 == d0 + multiset(added) && d2 == d1 + multiset{card}
    ensures d2 == d0 + multiset(added + [card])
  {
    MultisetOfPush(added, card);
  }

  /**
   * The player's defence in OnDefendCardClicked: the Defend card is played on
   * the defender and taken out of the player's hand (RemoveCardFromHand,
   * which also discards it). A Defend card only sets its caster defending and
   * reads none of the managers, which are passed as null. The attacker, the
   * defender's tile and the reaction and game managers (ghost parameters)
   * are left alone.
   */
  method DefendFromHand(card: Card, d: DinoUnit, hm: HandManager, deck: DeckManager?,
                        ghost a: DinoUnit, ghost rm: ReactionManager, ghost gm: GameManager?)
    requires card.cardType == Defend && (deck != null ==> deck.Valid())
    modifies d`isDefending, d`healLog, d`hasActedThisTurn, d`hasAttacked, hm`playerHand
    modifies DeckSet(deck)`discardPile, DeckSet(deck)`discarded
    ensures deck != null ==> deck.Valid()
    ensures card in old(hm.playerHand) ==>
      hm.playerHand == Remove(old(hm.playerHand), card)
      && (deck != null ==> deck.discardPile == old(deck.discardPile) + [card])
    ensures card !in old(hm.playerHand) ==> hm.playerHand == old(hm.playerHand) && unchanged(DeckSet(deck))
    ensures d.isDefending && d.healLog == old(d.healLog)
    ensures d.hasActedThisTurn == old(d.hasActedThisTurn) && d.hasAttacked == old(d.hasAttacked)
    ensures d.currentTile == old(d.currentTile) && d.currentHealth == old(d.currentHealth) && d.destroyed == old(d.destroyed)
    ensures a.hasAttacked == old(a.hasAttacked) && unchanged(rm) && unchanged(TileOf(d)) && unchanged(ManagerSet(gm))
  {
    Play(card, d, null, null, null, null, null, null, null, false);
    hm.RemoveCardFromHand(card, deck);
  }

  /**
   * The AI's defence in AIReactionCoroutine: the Defend card is played on the
   * defender, then handed to AIPlayCard, which plays it a second time, takes
   * it out of the AI's hand and discards it. A Defend card only sets its
   * caster defending and reads none of the managers, which are passed as null.
   * The attacker, the defender's tile and the reaction and game managers
   * (ghost parameters) are left alone.
   */
  method DefendTwice(card: Card, d: DinoUnit, h: HandManager, deck: DeckManager,
                     ghost a: DinoUnit, ghost rm: ReactionManager, ghost gm: GameManager?)
    requires card.cardType == Defend && card in h.aiHand && deck.Valid()
    modifies d`isDefending, d`healLog, d`hasActedThisTurn, d`hasAttacked, h`aiHand, deck`discardPile, deck`discarded
    ensures deck.Valid() && deck.discardPile == old(deck.discardPile) + [card]
    ensures h.aiHand == Remove(old(h.aiHand), card)
    ensures d.isDefending && d.healLog == old(d.healLog)
    ensures d.hasActedThisTurn == old(d.hasActedThisTurn) && d.hasAttacked == old(d.hasAttacked)
    ensures d.currentTile == old(d.currentTile) && d.currentHealth == old(d.currentHealth) && d.destroyed == old(d.destroyed)
    ensures a.hasAttacked == old(a.hasAttacked) && unchanged(rm) && unchanged(TileOf(d)) && unchanged(ManagerSet(gm))
  {
    Play(card, d, null, null, null, null, null, null, null, false);
    h.AIPlayCard(card, d, null, null, null, null, null, deck, false);
  }

  /** Two hands drawn from the same piles, one after the other: the three parts still hold the same cards. */
  lemma Regroup(p: multiset<Card>, a: multiset<Card>, piles: multiset<Card>,
                p0: multiset<Card>, a0: multiset<Card>, piles0: multiset<Card>, piles1: multiset<Card>)
    requires p + piles1 == p0 + piles0 && a + piles == a0 + piles1
    ensures p + a + piles == p0 + a0 + piles0
  {
    forall x
      ensures (p + a + piles)[x] == (p0 + a0 + piles0)[x]
    {
      assert (p + piles1)[x] == (p0 + piles0)[x];
      assert (a + piles)[x] == (a0 + piles1)[x];
    }
  }

  /** Cancelling a common part of two multiset sums. */
  lemma Cancel<T>(a: multiset<T>, b: multiset<T>, x: multiset<T>)
    requires a + x == b + x
    ensures a == b
  {
    assert forall y :: a[y] == (a + x)[y] - x[y];
  }

  /** list.Where(c => c.cardType == t): the cards of the given type, in order. */
  function OfType(s: seq<Card>, t: CardType): (r: seq<Card>)
    ensures |r| <= |s|
    ensures forall i :: 0 <= i < |r| ==> r[i] in s && r[i].cardType == t
    ensures forall i :: 0 <= i < |s| && s[i].cardType == t ==> s[i] in r
  {
    if s == [] then []
    else
      assert forall i :: 1 <= i < |s| ==> s[i] == s[1..][i - 1];
      if s[0].cardType == t then [s[0]] + OfType(s[1..], t) else OfType(s[1..], t)
  }

  /** list.FirstOrDefault(c => c.cardType == t): the first card of the type, null if none. */
  function FirstOfType(s: seq<Card>, t: CardType): (r: Card?)
    ensures r == null <==> forall i :: 0 <= i < |s| ==> s[i].cardType != t
    ensures r != null ==> r in s && r.cardType == t
    ensures r != null ==>
      exists k :: 0 <= k < |s| && s[k] == r && r.cardType == t && forall j :: 0 <= j < k ==> s[j].cardType != t
  {
    if s == [] then null
    else if s[0].cardType == t then s[0]
    else
      var r := FirstOfType(s[1..], t);
      assert forall i :: 1 <= i < |s| ==> s[i] == s[1..][i - 1];
      assert r != null ==> (exists k :: 0 <= k < |s| && s[k] == r && r.cardType == t && forall j :: 0 <= j < k ==> s[j].cardType != t) by {
        if r != null {
          var k :| 0 <= k < |s[1..]| && s[1..][k] == r && r.cardType == t && forall j :: 0 <= j < k ==> s[1..][j].cardType != t;
          assert s[k + 1] == r;
        }
      }
      r
  }

  /** FirstOrDefault and Where agree: the first card of a type heads the filtered list. */
  lemma {:induction false} FirstOfTypeHeadsOfType(s: seq<Card>, t: CardType)
    ensures FirstOfType(s, t) == if OfType(s, t) == [] then null else OfType(s, t)[0]
  {
    if s != [] && s[0].cardType != t {
      FirstOfTypeHeadsOfType(s[1..], t);
    }
  }

  /**
   * What Card.PlayCard leaves behind for the units, the game manager's
   * selection, the reaction manager and the equipment lists. An Attack card
   * on an opposing target is a reaction begun through `rm` or, without one,
   * a plain attack; any other play leaves every unit but the caster, the
   * selection and the reaction as they were. The game manager's hook log and
   * the discard pile are given by PlayHooks and Replaced, because the hand
   * manager adds to both once the card has taken effect.
   */
  twostate predicate Played(card: Card, caster: DinoUnit, target: DinoUnit?, rm: ReactionManager?,
                            hm: HandManager?, em: EquipmentManager?, gm: GameManager?, gemRoll: bool)
    requires em != null ==> em.maxEquipmentSlots >= 1
    reads caster, Footprint(target), ManagerSet(gm)`selectedUnit, ReactionSet(rm), EquipSet(em)
  {
    && caster.healLog == old(caster.healLog) + (if card.cardType == Medicine then [10] else [])
    && (card.cardType == Defend ==> caster.isDefending)
    && (card.cardType != Defend ==> caster.isDefending == old(caster.isDefending))
    && (em != null ==>
          em.unitEquipment == if card.cardType == Equipment
            then old(em.unitEquipment)[caster := Equipped(SlotsOf(old(em.unitEquipment), caster), card, caster.team, em.maxEquipmentSlots)]
            else old(em.unitEquipment))
    && if card.cardType != Attack || !old(Opposed(caster, target)) then
         && unchanged(ReactionSet(rm)) && (gm != null ==> gm.selectedUnit == old(gm.selectedUnit)) && Unhurt(target)
         && (target != null && target != caster ==> target.isDefending == old(target.isDefending))
         && caster.hasActedThisTurn == old(caster.hasActedThisTurn) && caster.hasAttacked == old(caster.hasAttacked)
       else if rm == null then
         && Struck(target, caster.attackPower) && Deselected(gm, target) && caster.hasActedThisTurn
         && caster.hasAttacked == old(caster.hasAttacked) && target.isDefending == old(target.isDefending)
       else
         && rm.Commenced(caster, target, caster.attackPower, hm, em, gm, gemRoll)
         && caster.hasActedThisTurn == old(caster.hasActedThisTurn)
  }

  /** The hooks Card.PlayCard adds: a reaction completed at once by a Protection Gem that triggers. */
  function PlayHooks(card: Card, caster: DinoUnit, target: DinoUnit?, rm: ReactionManager?, em: EquipmentManager?,
                     gemRoll: bool): seq<Hook>
    reads caster, UnitSet(target), EquipSet(em)
  {
    if card.cardType == Attack && Opposed(caster, target) && rm != null && Wears(em, target, ProtectionGem) && gemRoll
    then [ReactionCompleted] else []
  }

  /** The card that equipping `card` pushes out of a player unit's full list, which EquipCard discards. */
  function Replaced(card: Card, caster: DinoUnit, em: EquipmentManager?): seq<Card>
    reads EquipSet(em)
  {
    if card.cardType == Equipment && em != null && caster.team == Player then
      var slots := SlotsOf(em.unitEquipment, caster);
      if 0 < |slots| && |slots| >= em.maxEquipmentSlots then [slots[0]] else []
    else []
  }

  /**
   * The Attack case of Play: an opposing, living target is attacked, through
   * the reaction manager when there is one, with the caster's attack power.
   */
  method PlayAttack(card: Card, caster: DinoUnit, target: DinoUnit?, rm: ReactionManager?, hm: HandManager?,
                    em: EquipmentManager?, gm: GameManager?, deck: DeckManager?, gemRoll: bool)
    requires card.cardType == Attack
    requires em != null ==> em.maxEquipmentSlots >= 1
    requires rm != null ==> rm.Valid()
    modifies caster`hasActedThisTurn, caster`hasAttacked
    modifies UnitSet(target)`currentHealth, UnitSet(target)`destroyed, UnitSet(target)`isDefending, TileOf(target)`occupyingUnit
    modifies ManagerSet(gm)`selectedUnit, ManagerSet(gm)`hooks, ReactionSet(rm)
    ensures rm != null ==> rm.Valid()
    ensures unchanged(DeckSet(deck))
    ensures Played(card, caster, target, rm, hm, em, gm, gemRoll)
    ensures gm != null ==> gm.hooks == old(gm.hooks) + old(PlayHooks(card, caster, target, rm, em, gemRoll))
  {
    if target != null && !target.destroyed && target.team != caster.team {
      if rm != null {
        rm.InitiateAttack(caster, target, caster.attackPower, hm, em, gm, gemRoll);
      } else {
        caster.Attack(target, gm);
      }
    }
  }

  /**
   * Card.PlayCard: an Attack card on an existing enemy starts a reaction
   * through the reaction manager (or, without one, is a plain attack); a
   * Defend card sets the caster defending; Medicine heals it by 10; Charge
   * does nothing; an Equipment card is equipped on the caster, and a player
   * unit's replaced card is discarded.
   */
  method Play(card: Card, caster: DinoUnit, target: DinoUnit?, targetTile: Tile?,
              rm: ReactionManager?, hm: HandManager?, em: EquipmentManager?, deck: DeckManager?, gm: GameManager?,
              gemRoll: bool)
    requires deck != null ==> deck.Valid()
    requires em != null ==> em.maxEquipmentSlots >= 1
    requires rm != null ==> rm.Valid()
    modifies caster`isDefending, caster`healLog, caster`hasActedThisTurn, caster`hasAttacked
    modifies UnitSet(target)`currentHealth, UnitSet(target)`destroyed, UnitSet(target)`isDefending, TileOf(target)`occupyingUnit
    modifies ManagerSet(gm)`selectedUnit, ManagerSet(gm)`hooks, ReactionSet(rm)
    modifies EquipSet(em)`unitEquipment, DeckSet(deck)`discardPile, DeckSet(deck)`discarded
    ensures rm != null ==> rm.Valid()
    ensures Played(card, caster, target, rm, hm, em, gm, gemRoll)
    ensures gm != null ==> gm.hooks == old(gm.hooks) + old(PlayHooks(card, caster, target, rm, em, gemRoll))
    ensures deck != null ==> deck.Valid() && deck.discardPile == old(deck.discardPile) + old(Replaced(card, caster, em))
    ensures deck != null && old(Replaced(card, caster, em)) == [] ==> deck.discarded == old(deck.discarded)
  {
    if card.cardType == Attack {
      PlayAttack(card, caster, target, rm, hm, em, gm, deck, gemRoll);
    } else {
      PlayOnCaster(card, caster, target, rm, hm, em, deck, gm);
    }
  }

  /**
   * The other cases of Play, which act on the caster alone: Defend sets it
   * defending, Medicine heals it by 10, Equipment equips the card on it,
   * Charge does nothing.
   */
  method PlayOnCaster(card: Card, caster: DinoUnit, target: DinoUnit?, rm: ReactionManager?, hm: HandManager?,
                      em: EquipmentManager?, deck: DeckManager?, gm: GameManager?)
    requires card.cardType != Attack
    requires deck != null ==> deck.Valid()
    requires em != null ==> em.maxEquipmentSlots >= 1
    modifies caster`isDefending, caster`healLog, EquipSet(em)`unitEquipment, DeckSet(deck)`discardPile, DeckSet(deck)`discarded
    ensures Played(card, caster, target, rm, hm, em, gm, false)
    ensures unchanged(ManagerSet(gm))
    ensures deck != null ==> deck.Valid() && deck.discardPile == old(deck.discardPile) + old(Replaced(card, caster, em))
    ensures deck != null && old(Replaced(card, caster, em)) == [] ==> deck.discarded == old(deck.discarded)
  {
    match card.cardType {
      case Defend =>
        caster.isDefending := true;
      case Medicine =>
        caster.Heal(10);
      case Charge =>
      case Equipment =>
        if em != null {
          em.EquipCard(caster, card, deck);
        }
    }
  }

  /** `target != null && target.team != caster.team`, with Unity's null for a destroyed target. */
  predicate Opposed(caster: DinoUnit, target: DinoUnit?)
    reads caster, UnitSet(target)
  {
    !Gone(target) && target.team != caster.team
  }

  class HandManager {
    const maxHandSize: int
    /** cardUIPrefab != null and handContainer != null */
    const hasCardUIPrefab: bool
    const hasHandContainer: bool

    var isInitialized: bool
    var playerHand: seq<Card>
    var aiHand: seq<Card>
    var selectedCard: Card?

    /** The component before Initialize: two empty hands, nothing selected. */
    constructor (maxHandSize: int, hasCardUIPrefab: bool, hasHandContainer: bool)
      ensures this.maxHandSize == maxHandSize
      ensures this.hasCardUIPrefab == hasCardUIPrefab && this.hasHandContainer == hasHandContainer
      ensures !isInitialized && playerHand == [] && aiHand == [] && selectedCard == null
    {
      this.maxHandSize := maxHandSize;
      this.hasCardUIPrefab, this.hasHandContainer := hasCardUIPrefab, hasHandContainer;
      isInitialized, playerHand, aiHand, selectedCard := false, [], [], null;
    }

    /** `isAI ? aiHand : playerHand` */
    function Hand(isAI: bool): seq<Card>
      reads this
    {
      if isAI then aiHand else playerHand
    }

    /**
     * Initialize: without a deck (the retry with Invoke is the caller's) or
     * without the UI prefab and container nothing happens; otherwise the
     * manager is initialised and the player, then the AI, draw 4 cards.
     */
    method Initialize(deck: DeckManager?, shuffle: nat -> seq<int>)
      requires deck != null ==> deck.Valid()
      requires Fair(shuffle)
      modifies this`isInitialized, this`playerHand, this`aiHand
      modifies DeckSet(deck)`deck, DeckSet(deck)`discardPile, DeckSet(deck)`drawn
      ensures deck == null || !hasCardUIPrefab || !hasHandContainer ==>
        unchanged(this) && unchanged(DeckSet(deck))
      ensures deck != null && hasCardUIPrefab && hasHandContainer ==>
        && isInitialized && deck.Valid()
        && |playerHand| == |old(playerHand)| + Dealt(4, maxHandSize - |old(playerHand)|, old(Avail(deck)))
        && |aiHand| == |old(aiHand)|
             + Dealt(4, maxHandSize - |old(aiHand)|, old(Avail(deck)) - (|playerHand| - |old(playerHand)|))
        && playerHand[..|old(playerHand)|] == old(playerHand) && aiHand[..|old(aiHand)|] == old(aiHand)
        && multiset(playerHand) + multiset(aiHand) + Piles(deck)
           == old(multiset(playerHand) + multiset(aiHand) + Piles(deck))
    {
      if deck == null {
        return;
      }
      if !hasCardUIPrefab {
        return;
      }
      if !hasHandContainer {
        return;
      }
      isInitialized := true;
      ghost var player0, ai0, piles0 := multiset(playerHand), multiset(aiHand), Piles(deck);
      ghost var avail0, size0, aiSize0 := Avail(deck), |playerHand|, |aiHand|;
      DrawCards(4, false, deck, shuffle);
      ghost var player1, piles1 := multiset(playerHand), Piles(deck);
      assert |playerHand| == size0 + Dealt(4, maxHandSize - size0, avail0) && |aiHand| == aiSize0;
      ghost var avail1 := Avail(deck);
      assert avail1 == avail0 - (|playerHand| - size0);
      DrawCards(4, true, deck, shuffle);
      assert |aiHand| == aiSize0 + Dealt(4, maxHandSize - aiSize0, avail1);
      assert multiset(playerHand) == player1;
      Regroup(player1, multiset(aiHand), Piles(deck), player0, ai0, piles0, piles1);
    }

    /**
     * DrawCards: once initialised, up to `count` cards go from the deck to the
     * end of the chosen hand, stopping when the hand holds maxHandSize cards;
     * a draw from two empty piles adds nothing. No card is lost or copied:
     * the hand and the piles together hold the same cards as before.
     */
    method DrawCards(count: int, isAI: bool, deck: DeckManager?, shuffle: nat -> seq<int>)
      requires isInitialized && count > 0 && |Hand(isAI)| < maxHandSize ==> deck != null
      requires deck != null ==> deck.Valid()
      requires Fair(shuffle)
      modifies this`playerHand, this`aiHand, DeckSet(deck)`deck, DeckSet(deck)`discardPile, DeckSet(deck)`drawn
      ensures Hand(!isAI) == old(Hand(!isAI))
      ensures |Hand(isAI)| == |old(Hand(isAI))| +
        if isInitialized then Dealt(count, maxHandSize - |old(Hand(isAI))|, old(Avail(deck))) else 0
      ensures Hand(isAI)[..|old(Hand(isAI))|] == old(Hand(isAI))
      ensures Avail(deck) + |Hand(isAI)| == old(Avail(deck) + |Hand(isAI)|)
      ensures deck != null ==> deck.Valid()
      ensures multiset(Hand(isAI)) + Piles(deck) == old(multiset(Hand(isAI)) + Piles(deck))
      ensures deck != null ==> deck.drawn == old(deck.drawn) + multiset(Hand(isAI)[|old(Hand(isAI))|..])
    {
      if !isInitialized || deck == null {
        assert Hand(isAI)[..|Hand(isAI)|] == Hand(isAI);
        return;
      }
      var hand0 := if isAI then aiHand else playerHand;
      var targetHand, added := DrawInto(hand0, count, deck, shuffle);
      if isAI {
        aiHand := targetHand;
      } else {
        playerHand := targetHand;
      }
      assert Hand(isAI)[..|hand0|] == hand0 && Hand(isAI)[|hand0|..] == added;
      assert multiset(Hand(isAI)) == multiset(hand0) + multiset(added);
    }

    /**
     * The loop of DrawCards: one draw per iteration, appended to `hand`, until
     * `count` iterations have run or the hand holds maxHandSize cards.
     */
    method DrawInto(hand: seq<Card>, count: int, deck: DeckManager, shuffle: nat -> seq<int>)
        returns (targetHand: seq<Card>, ghost added: seq<Card>)
      requires deck.Valid()
      requires Fair(shuffle)
      modifies deck`deck, deck`discardPile, deck`drawn
      ensures targetHand == hand + added
      ensures |added| == Dealt(count, maxHandSize - |hand|, old(|deck.deck| + |deck.discardPile|))
      ensures |deck.deck| + |deck.discardPile| + |added| == old(|deck.deck| + |deck.discardPile|)
      ensures deck.Valid() && deck.drawn == old(deck.drawn) + multiset(added)
      ensures multiset(added) + multiset(deck.deck) + multiset(deck.discardPile)
        == old(multiset(deck.deck) + multiset(deck.discardPile))
    {
      targetHand := hand;
      ghost var avail0 := |deck.deck| + |deck.discardPile|;
      ghost var piles0 := multiset(deck.deck) + multiset(deck.discardPile);
      ghost var drawn0 := deck.drawn;
      added := [];
      var i := 0;
      while i < count
        invariant 0 <= i <= Max0(count)
        invariant targetHand == hand + added
        invariant |added| == Min(i, avail0)
        invariant i > 0 ==> |targetHand| <= maxHandSize
        invariant |deck.deck| + |deck.discardPile| == avail0 - Min(i, avail0)
        invariant deck.Valid()
        invariant deck.drawn == drawn0 + multiset(added)
      {
        if |targetHand| >= maxHandSize {
          break;
        }
        targetHand, added := DrawStep(hand, targetHand, added, deck, shuffle, drawn0);
        i := i + 1;
      }
      Cancel(multiset(added) + multiset(deck.deck) + multiset(deck.discardPile), piles0, drawn0);
    }

    /**
     * OnCardClicked: outside the player's turn, without a selected unit, or
     * for an Attack card when the unit has attacked and wears no Meka Leg,
     * nothing happens. Otherwise the card is selected: Attack and Charge put
     * the game in card mode (Charge also shows the charge range), and Defend,
     * Medicine and Equipment are played at once on the selected unit.
     */
    method OnCardClicked(card: Card, gm: GameManager, rm: ReactionManager?, em: EquipmentManager?, deck: DeckManager?)
      requires Accepts(card, gm, em) && card.cardType in {Defend, Medicine, Equipment} ==> deck != null
      requires deck != null ==> deck.Valid()
      requires em != null ==> em.maxEquipmentSlots >= 1
      requires rm != null ==> rm.Valid()
      modifies this`selectedCard, this`playerHand, gm`hooks, gm`selectedUnit, ReactionSet(rm)
      modifies UnitSet(gm.selectedUnit)`isDefending, UnitSet(gm.selectedUnit)`healLog
      modifies UnitSet(gm.selectedUnit)`hasActedThisTurn, UnitSet(gm.selectedUnit)`hasAttacked
      modifies EquipSet(em)`unitEquipment, DeckSet(deck)`discardPile, DeckSet(deck)`discarded
      ensures deck != null ==> deck.Valid()
      ensures rm != null ==> rm.Valid()
      ensures !old(Accepts(card, gm, em)) ==>
        && unchanged(this) && unchanged(gm) && unchanged(DeckSet(deck)) && unchanged(UnitSet(gm.selectedUnit))
        && unchanged(ReactionSet(rm)) && unchanged(EquipSet(em))
      ensures old(Accepts(card, gm, em)) && card.cardType in {Attack, Charge} ==>
        && selectedCard == card && playerHand == old(playerHand) && gm.selectedUnit == old(gm.selectedUnit)
        && unchanged(UnitSet(gm.selectedUnit)) && unchanged(DeckSet(deck)) && unchanged(ReactionSet(rm)) && unchanged(EquipSet(em))
      ensures old(Accepts(card, gm, em)) && card.cardType == Attack ==> gm.hooks == old(gm.hooks) + [CardModeSet(Attack)]
      ensures old(Accepts(card, gm, em)) && card.cardType == Charge ==>
        gm.hooks == old(gm.hooks) + [CardModeSet(Charge), ChargeRangeShown(old(gm.selectedUnit))]
      ensures old(Accepts(card, gm, em)) && card.cardType in {Defend, Medicine, Equipment} ==>
        && selectedCard == null && playerHand == Remove(old(playerHand), card)
        && Played(card, old(gm.selectedUnit), null, rm, this, em, gm, false)
        && deck.discardPile == old(deck.discardPile) + old(Replaced(card, gm.selectedUnit, em)) + [card]
        && gm.hooks == old(gm.hooks) + [CardModeCleared]
    {
      if gm.currentState != PlayerTurn {
        return;
      }
      if gm.selectedUnit == null || gm.selectedUnit.destroyed {
        return;
      }
      var selectedUnit := gm.selectedUnit;
      var hasMekaLeg := em != null && em.HasEquipment(selectedUnit, MekaLeg);
      if card.cardType == Attack && selectedUnit.hasAttacked && !hasMekaLeg {
        return;
      }
      match card.cardType {
        case Attack | Charge =>
          SelectTargeting(card, gm, selectedUnit);
        case Defend | Medicine | Equipment =>
          PlayAtOnce(card, gm, rm, em, deck);
      }
    }

    /**
     * The Defend, Medicine and Equipment cases of OnCardClicked: selectedCard
     * = card; PlayCard(selectedUnit). The card is selected and at once played
     * on the selected unit and spent, which clears the selection again.
     * Without a target the play adds no hook of its own.
     */
    method PlayAtOnce(card: Card, gm: GameManager, rm: ReactionManager?, em: EquipmentManager?, deck: DeckManager?)
      requires card.cardType in {Defend, Medicine, Equipment} && gm.selectedUnit != null
      requires deck != null && deck.Valid()
      requires em != null ==> em.maxEquipmentSlots >= 1
      requires rm != null ==> rm.Valid()
      modifies this`selectedCard, this`playerHand, gm`hooks, gm`selectedUnit, ReactionSet(rm)
      modifies UnitSet(gm.selectedUnit)`isDefending, UnitSet(gm.selectedUnit)`healLog
      modifies UnitSet(gm.selectedUnit)`hasActedThisTurn, UnitSet(gm.selectedUnit)`hasAttacked
      modifies EquipSet(em)`unitEquipment, deck`discardPile, deck`discarded
      ensures deck.Valid() && (rm != null ==> rm.Valid())
      ensures selectedCard == null && playerHand == Remove(old(playerHand), card)
      ensures Played(card, old(gm.selectedUnit), null, rm, this, em, gm, false)
      ensures deck.discardPile == old(deck.discardPile) + old(Replaced(card, gm.selectedUnit, em)) + [card]
      ensures gm.hooks == old(gm.hooks) + [CardModeCleared]
    {
      var selectedUnit := gm.selectedUnit;
      assert PlayHooks(card, selectedUnit, null, rm, em, false) == [];
      PlaySelected(card, selectedUnit, null, null, gm, rm, em, deck, false);
    }

    /**
     * The Attack and Charge cases of OnCardClicked, which wait for a target:
     * the card is selected and the game enters card mode; Charge also shows
     * the charge range of the selected unit.
     */
    method SelectTargeting(card: Card, gm: GameManager, selectedUnit: DinoUnit)
      requires card.cardType in {Attack, Charge}
      modifies this`selectedCard, gm`hooks
      ensures selectedCard == card
      ensures card.cardType == Attack ==> gm.hooks == old(gm.hooks) + [CardModeSet(Attack)]
      ensures card.cardType == Charge ==> gm.hooks == old(gm.hooks) + [CardModeSet(Charge), ChargeRangeShown(selectedUnit)]
    {
      selectedCard := card;
      gm.SetCardMode(card.cardType);
      if card.cardType == Charge {
        gm.ShowChargeRange(selectedUnit);
      }
    }

    /**
     * PlayCard: without a selected card nothing happens. Otherwise the
     * selected card is played (Card.PlayCard), leaves the player's hand, goes
     * on the discard pile, the selection is cleared and card mode is reset.
     */
    method PlayCard(caster: DinoUnit, target: DinoUnit?, targetTile: Tile?,
                    gm: GameManager?, rm: ReactionManager?, em: EquipmentManager?, deck: DeckManager?, gemRoll: bool)
      requires selectedCard != null ==> deck != null && gm != null
      requires deck != null ==> deck.Valid()
      requires em != null ==> em.maxEquipmentSlots >= 1
      requires rm != null ==> rm.Valid()
      modifies this`selectedCard, this`playerHand
      modifies caster`isDefending, caster`healLog, caster`hasActedThisTurn, caster`hasAttacked
      modifies UnitSet(target)`currentHealth, UnitSet(target)`destroyed, UnitSet(target)`isDefending, TileOf(target)`occupyingUnit
      modifies ManagerSet(gm)`selectedUnit, ManagerSet(gm)`hooks, ReactionSet(rm)
      modifies EquipSet(em)`unitEquipment, DeckSet(deck)`discardPile, DeckSet(deck)`discarded
      ensures deck != null ==> deck.Valid()
      ensures rm != null ==> rm.Valid()
      ensures aiHand == old(aiHand)
      ensures old(selectedCard) == null ==>
        && unchanged(this) && unchanged(DeckSet(deck)) && unchanged(ManagerSet(gm)) && unchanged(ReactionSet(rm))
        && unchanged(caster) && unchanged(UnitSet(target)) && unchanged(TileOf(target)) && unchanged(EquipSet(em))
      ensures old(selectedCard) != null ==>
        var card: Card := old(selectedCard);
        && selectedCard == null && playerHand == Remove(old(playerHand), card)
        && Played(card, caster, target, rm, this, em, gm, gemRoll)
        && deck.discardPile == old(deck.discardPile) + old(Replaced(card, caster, em)) + [card]
        && gm.hooks == old(gm.hooks) + old(PlayHooks(card, caster, target, rm, em, gemRoll)) + [CardModeCleared]
    {
      if selectedCard == null {
        return;
      }
      PlaySelected(selectedCard, caster, target, targetTile, gm, rm, em, deck, gemRoll);
    }

    /** PlayCard once a card is selected: the card takes effect, then leaves the hand for the discard pile. */
    method PlaySelected(card: Card, caster: DinoUnit, target: DinoUnit?, targetTile: Tile?,
                        gm: GameManager, rm: ReactionManager?, em: EquipmentManager?, deck: DeckManager, gemRoll: bool)
      requires deck.Valid()
      requires em != null ==> em.maxEquipmentSlots >= 1
      requires rm != null ==> rm.Valid()
      modifies this`selectedCard, this`playerHand
      modifies caster`isDefending, caster`healLog, caster`hasActedThisTurn, caster`hasAttacked
      modifies UnitSet(target)`currentHealth, UnitSet(target)`destroyed, UnitSet(target)`isDefending, TileOf(target)`occupyingUnit
      modifies gm`selectedUnit, gm`hooks, ReactionSet(rm)
      modifies EquipSet(em)`unitEquipment, deck`discardPile, deck`discarded
      ensures deck.Valid() && (rm != null ==> rm.Valid())
      ensures selectedCard == null && playerHand == Remove(old(playerHand), card)
      ensures Played(card, caster, target, rm, this, em, gm, gemRoll)
      ensures deck.discardPile == old(deck.discardPile) + old(Replaced(card, caster, em)) + [card]
      ensures gm.hooks == old(gm.hooks) + old(PlayHooks(card, caster, target, rm, em, gemRoll)) + [CardModeCleared]
    {
      Play(card, caster, target, targetTile, rm, this, em, deck, gm, gemRoll);
      Spend(card, deck, gm, caster, target, rm, em);
    }

    /**
     * The tail of PlayCard, once the card has taken effect: it leaves the
     * player's hand and goes on the discard pile, the selection is cleared
     * and card mode is reset. The units and managers the card acted on
     * (ghost parameters) are left alone.
     */
    method Spend(card: Card, deck: DeckManager, gm: GameManager,
                 ghost caster: DinoUnit, ghost target: DinoUnit?, ghost rm: ReactionManager?, ghost em: EquipmentManager?)
      requires deck.Valid()
      modifies this`selectedCard, this`playerHand, deck`discardPile, deck`discarded, gm`hooks
      ensures unchanged(caster) && unchanged(Footprint(target)) && unchanged(ReactionSet(rm)) && unchanged(EquipSet(em))
      ensures gm.selectedUnit == old(gm.selectedUnit)
      ensures deck.Valid() && deck.discardPile == old(deck.discardPile) + [card]
      ensures selectedCard == null && playerHand == Remove(old(playerHand), card)
      ensures gm.hooks == old(gm.hooks) + [CardModeCleared]
    {
      playerHand := Remove(playerHand, card);
      deck.DiscardCard(card);
      selectedCard := null;
      gm.ClearCardMode();
    }

    /**
     * AIPlayCard: a card that is null or not in the AI's hand is refused;
     * otherwise it is played, leaves the AI's hand and is discarded.
     */
    method AIPlayCard(card: Card?, caster: DinoUnit, target: DinoUnit?, targetTile: Tile?,
                      gm: GameManager?, rm: ReactionManager?, em: EquipmentManager?, deck: DeckManager?, gemRoll: bool)
      requires card != null && card in aiHand ==> deck != null
      requires deck != null ==> deck.Valid()
      requires em != null ==> em.maxEquipmentSlots >= 1
      requires rm != null ==> rm.Valid()
      modifies this`aiHand
      modifies caster`isDefending, caster`healLog, caster`hasActedThisTurn, caster`hasAttacked
      modifies UnitSet(target)`currentHealth, UnitSet(target)`destroyed, UnitSet(target)`isDefending, TileOf(target)`occupyingUnit
      modifies ManagerSet(gm)`selectedUnit, ManagerSet(gm)`hooks, ReactionSet(rm)
      modifies EquipSet(em)`unitEquipment, DeckSet(deck)`discardPile, DeckSet(deck)`discarded
      ensures deck != null ==> deck.Valid()
      ensures rm != null ==> rm.Valid()
      ensures playerHand == old(playerHand) && selectedCard == old(selectedCard)
      ensures card == null || card !in old(aiHand) ==>
        && aiHand == old(aiHand) && unchanged(DeckSet(deck)) && unchanged(ManagerSet(gm)) && unchanged(ReactionSet(rm))
        && unchanged(caster) && unchanged(UnitSet(target)) && unchanged(TileOf(target)) && unchanged(EquipSet(em))
      ensures card != null && card in old(aiHand) ==>
        var c: Card := card;
        && aiHand == Remove(old(aiHand), c) && |aiHand| == |old(aiHand)| - 1
        && Played(c, caster, target, rm, this, em, gm, gemRoll)
        && deck.discardPile == old(deck.discardPile) + old(Replaced(c, caster, em)) + [c]
        && (gm != null ==> gm.hooks == old(gm.hooks) + old(PlayHooks(c, caster, target, rm, em, gemRoll)))
    {
      if card == null || card !in aiHand {
        return;
      }
      PlayFromAIHand(card, caster, target, targetTile, gm, rm, em, deck, gemRoll);
    }

    /** AIPlayCard once the card is known to be in the AI's hand: it takes effect, then is discarded. */
    method PlayFromAIHand(card: Card, caster: DinoUnit, target: DinoUnit?, targetTile: Tile?,
                          gm: GameManager?, rm: ReactionManager?, em: EquipmentManager?, deck: DeckManager, gemRoll: bool)
      requires card in aiHand && deck.Valid()
      requires em != null ==> em.maxEquipmentSlots >= 1
      requires rm != null ==> rm.Valid()
      modifies this`aiHand
      modifies caster`isDefending, caster`healLog, caster`hasActedThisTurn, caster`hasAttacked
      modifies UnitSet(target)`currentHealth, UnitSet(target)`destroyed, UnitSet(target)`isDefending, TileOf(target)`occupyingUnit
      modifies ManagerSet(gm)`selectedUnit, ManagerSet(gm)`hooks, ReactionSet(rm)
      modifies EquipSet(em)`unitEquipment, deck`discardPile, deck`discarded
      ensures deck.Valid() && (rm != null ==> rm.Valid())
      ensures aiHand == Remove(old(aiHand), card) && |aiHand| == |old(aiHand)| - 1
      ensures Played(card, caster, target, rm, this, em, gm, gemRoll)
      ensures deck.discardPile == old(deck.discardPile) + old(Replaced(card, caster, em)) + [card]
      ensures gm != null ==> gm.hooks == old(gm.hooks) + old(PlayHooks(card, caster, target, rm, em, gemRoll))
    {
      Play(card, caster, target, targetTile, rm, this, em, deck, gm, gemRoll);
      Discharge(card, deck, caster, target, rm, em, gm);
    }

    /**
     * The tail of AIPlayCard, once the card has taken effect: it leaves the
     * AI's hand and is discarded. The units and managers the card acted on
     * (ghost parameters) are left alone.
     */
    method Discharge(card: Card, deck: DeckManager, ghost caster: DinoUnit, ghost target: DinoUnit?,
                     ghost rm: ReactionManager?, ghost em: EquipmentManager?, ghost gm: GameManager?)
      requires card in aiHand && deck.Valid()
      modifies this`aiHand, deck`discardPile, deck`discarded
      ensures unchanged(caster) && unchanged(Footprint(target)) && unchanged(ReactionSet(rm)) && unchanged(EquipSet(em))
      ensures unchanged(ManagerSet(gm))
      ensures deck.Valid() && deck.discardPile == old(deck.discardPile) + [card]
      ensures aiHand == Remove(old(aiHand), card) && |aiHand| == |old(aiHand)| - 1
    {
      aiHand := Remove(aiHand, card);
      deck.DiscardCard(card);
    }

    /** GetAIHand: the AI's hand as a value (a copy). */
    function GetAIHand(): (r: seq<Card>)
      reads this
      ensures r == aiHand
    {
      aiHand
    }

    /** GetPlayerHand: the player's hand as a value (a copy). */
    function GetPlayerHand(): (r: seq<Card>)
      reads this
      ensures r == playerHand
    {
      playerHand
    }

    function GetSelectedCard(): (r: Card?)
      reads this
      ensures r == selectedCard
    {
      selectedCard
    }

    /** ClearHand: the player's hand is emptied; its cards are not discarded. */
    method ClearHand()
      modifies this`playerHand
      ensures playerHand == []
    {
      playerHand := [];
    }

    /**
     * RemoveCardFromHand: a card in the player's hand leaves it (its first
     * occurrence) and is discarded when there is a deck; any other card is
     * ignored.
     */
    method RemoveCardFromHand(card: Card, deck: DeckManager?)
      requires deck != null ==> deck.Valid()
      modifies this`playerHand, DeckSet(deck)`discardPile, DeckSet(deck)`discarded
      ensures deck != null ==> deck.Valid()
      ensures card in old(playerHand) ==>
        playerHand == Remove(old(playerHand), card)
        && (deck != null ==> deck.discardPile == old(deck.discardPile) + [card])
      ensures card !in old(playerHand) ==> playerHand == old(playerHand) && unchanged(DeckSet(deck))
    {
      if card in playerHand {
        playerHand := Remove(playerHand, card);
        if deck != null {
          deck.DiscardCard(card);
        }
      }
    }
  }

  /**
   * A card taken out of a hand and put on the discard pile is moved, not
   * lost or copied: the hand and the pile together hold the same cards.
   */
  lemma RemoveThenDiscardKeepsCards(hand: seq<Card>, pile: seq<Card>, card: Card)
    requires card in hand
    ensures multiset(Remove(hand, card)) + multiset(pile + [card]) == multiset(hand) + multiset(pile)
  {
    MultisetOfPush(pile, card);
  }

  /**
   * The guard of OnCardClicked: the player's turn, a selected unit that
   * exists, and, for an Attack card, a unit that has not attacked or wears a
   * Meka Leg.
   */
  predicate Accepts(card: Card, gm: GameManager, em: EquipmentManager?)
    reads gm, UnitSet(gm.selectedUnit), EquipSet(em)
  {
    && gm.currentState == PlayerTurn && !Gone(gm.selectedUnit)
    && !(card.cardType == Attack && gm.selectedUnit.hasAttacked && !Wears(em, gm.selectedUnit, MekaLeg))
  }

  /** A hand of cards never grows past the limit by drawing, once it is within it. */
  lemma DrawingKeepsHandBounded(size: int, count: int, max: int, avail: int)
    requires 0 <= size <= max && avail >= 0
    ensures size + Dealt(count, max - size, avail) <= max
    ensures count >= 0 && avail >= count && size + count <= max ==> Dealt(count, max - size, avail) == count
  {
  }

  class ReactionManager {
    /** Seconds are counted in whole time units; the inspector default is 10 seconds. */
    const reactionTimeLimit: int

    var waitingForReaction: bool
    var attacker: DinoUnit?
    var defender: DinoUnit?
    var incomingDamage: int
    var reactionTimer: int
    /** The Defend cards offered on the reaction panel (reactionCardUIs). */
    var defendOptions: seq<Card>

    /**
     * A pending reaction knows who attacks whom, and the panel only offers
     * Defend cards while it is pending.
     */
    ghost predicate Valid()
      reads this
    {
      && (waitingForReaction ==> attacker != null && defender != null)
      && (defendOptions != [] ==> waitingForReaction)
      && forall i :: 0 <= i < |defendOptions| ==> defendOptions[i].cardType == Defend
    }

    constructor (reactionTimeLimit: int)
      ensures this.reactionTimeLimit == reactionTimeLimit
      ensures !waitingForReaction && attacker == null && defender == null && defendOptions == []
      ensures incomingDamage == 0 && reactionTimer == 0 && Valid()
    {
      this.reactionTimeLimit := reactionTimeLimit;
      waitingForReaction, attacker, defender := false, null, null;
      incomingDamage, reactionTimer, defendOptions := 0, 0, [];
    }

    /**
     * The outcome of ResolveAttack for the attack of `a` on `d` with `damage`,
     * apart from the game manager's hook log: the reaction is over and the
     * panel empty; an unblocked attack strikes d and a blocked one leaves it
     * untouched; a has attacked unless it wears a Meka Leg.
     */
    twostate predicate Settled(a: DinoUnit, d: DinoUnit, damage: int, blocked: bool, em: EquipmentManager?, gm: GameManager?)
      reads this, a, d, TileSet(d.currentTile), ManagerSet(gm)`selectedUnit, EquipSet(em)
    {
      && !waitingForReaction && defendOptions == []
      && (blocked ==>
            && d.currentTile == old(d.currentTile) && d.currentHealth == old(d.currentHealth) && d.destroyed == old(d.destroyed)
            && (d.currentTile != null ==> d.currentTile.occupyingUnit == old(d.currentTile.occupyingUnit))
            && (gm != null ==> gm.selectedUnit == old(gm.selectedUnit)))
      && (!blocked ==> Struck(d, damage) && Deselected(gm, d))
      && a.hasAttacked == (old(a.hasAttacked) || !Wears(em, a, MekaLeg))
    }

    /** The outcome of ResolveAttack: Settled, and the game manager is told that the reaction is complete. */
    twostate predicate Resolved(a: DinoUnit, d: DinoUnit, damage: int, blocked: bool, em: EquipmentManager?, gm: GameManager?)
      reads this, a, d, TileSet(d.currentTile), ManagerSet(gm), EquipSet(em)
    {
      && Settled(a, d, damage, blocked, em, gm)
      && (gm != null ==> gm.hooks == old(gm.hooks) + [ReactionCompleted])
    }

    /**
     * The outcome of InitiateAttack(a, d, damage), apart from the game
     * manager's hook log: the attack is recorded; a Protection Gem that
     * triggers sets d defending and settles the attack as blocked; otherwise
     * a player defender gets the reaction panel with the Defend cards the
     * player's hand held and a full timer, and an AI defender's reaction is
     * left to AIReactionCoroutine.
     */
    twostate predicate Commenced(a: DinoUnit, d: DinoUnit, damage: int, hm: HandManager?, em: EquipmentManager?, gm: GameManager?, gemRoll: bool)
      reads this, a, d, TileSet(d.currentTile), ManagerSet(gm)`selectedUnit, EquipSet(em)
    {
      && attacker == a && defender == d && incomingDamage == damage
      && if Wears(em, d, ProtectionGem) && gemRoll then
           d.isDefending && reactionTimer == old(reactionTimer) && Settled(a, d, damage, true, em, gm)
         else
           && d.currentTile == old(d.currentTile) && d.currentHealth == old(d.currentHealth) && d.destroyed == old(d.destroyed)
           && (d.currentTile != null ==> d.currentTile.occupyingUnit == old(d.currentTile.occupyingUnit))
           && a.hasAttacked == old(a.hasAttacked) && d.isDefending == old(d.isDefending)
           && (gm != null ==> gm.selectedUnit == old(gm.selectedUnit))
           && if d.team == Player then
                && waitingForReaction && reactionTimer == reactionTimeLimit
                && defendOptions == OfType(if hm == null then [] else old(hm.playerHand), Defend)
              else
                && waitingForReaction == old(waitingForReaction) && reactionTimer == old(reactionTimer)
                && defendOptions == old(defendOptions)
    }

    /** The outcome of InitiateAttack: Commenced, and a triggered gem's completion hook. */
    twostate predicate Initiated(a: DinoUnit, d: DinoUnit, damage: int, hm: HandManager?, em: EquipmentManager?, gm: GameManager?, gemRoll: bool)
      reads this, a, d, TileSet(d.currentTile), ManagerSet(gm), EquipSet(em)
    {
      && Commenced(a, d, damage, hm, em, gm, gemRoll)
      && (gm != null ==> gm.hooks == old(gm.hooks) + if Wears(em, d, ProtectionGem) && gemRoll then [ReactionCompleted] else [])
    }

    /**
     * Update: while a reaction is pending the timer runs down by the frame's
     * time; when it reaches zero the attack is resolved unblocked.
     */
    method Update(deltaTime: int, em: EquipmentManager?, gm: GameManager?)
      requires Valid()
      modifies this`waitingForReaction, this`reactionTimer, this`defendOptions
      modifies UnitSet(attacker)`hasAttacked, UnitSet(defender)`currentHealth, UnitSet(defender)`destroyed
      modifies TileOf(defender)`occupyingUnit, ManagerSet(gm)`selectedUnit, ManagerSet(gm)`hooks
      ensures Valid()
      ensures !old(waitingForReaction) ==>
        unchanged(this) && unchanged(ManagerSet(gm)) && unchanged(UnitSet(attacker), UnitSet(defender), TileOf(defender))
      ensures old(waitingForReaction) && old(reactionTimer) - deltaTime > 0 ==>
        waitingForReaction && reactionTimer == old(reactionTimer) - deltaTime && defendOptions == old(defendOptions)
        && unchanged(ManagerSet(gm)) && unchanged(UnitSet(attacker), UnitSet(defender), TileOf(defender))
      ensures old(waitingForReaction) && old(reactionTimer) - deltaTime <= 0 ==>
        reactionTimer == old(reactionTimer) - deltaTime && Resolved(attacker, defender, incomingDamage, false, em, gm)
    {
      if waitingForReaction {
        reactionTimer := reactionTimer - deltaTime;
        if reactionTimer <= 0 {
          ResolveAttack(false, em, gm);
        }
      }
    }

    /** InitiateAttack: see Initiated. */
    method InitiateAttack(attackingUnit: DinoUnit, defendingUnit: DinoUnit, damage: int,
                          hm: HandManager?, em: EquipmentManager?, gm: GameManager?, gemRoll: bool)
      requires Valid()
      modifies this`attacker, this`defender, this`incomingDamage
      modifies this`waitingForReaction, this`reactionTimer, this`defendOptions
      modifies attackingUnit`hasAttacked, defendingUnit`isDefending
      modifies defendingUnit`currentHealth, defendingUnit`destroyed, TileSet(defendingUnit.currentTile)`occupyingUnit
      modifies ManagerSet(gm)`selectedUnit, ManagerSet(gm)`hooks
      ensures Valid()
      ensures Initiated(attackingUnit, defendingUnit, damage, hm, em, gm, gemRoll)
    {
      attacker := attackingUnit;
      defender := defendingUnit;
      incomingDamage := damage;
      var hasProtectionGem := em != null && em.HasEquipment(defendingUnit, ProtectionGem);
      if hasProtectionGem && gemRoll {
        GemDefend(em, gm);
        return;
      }
      if defendingUnit.team == Player {
        ShowReactionUI(hm);
      }
    }

    /** A Protection Gem that triggers: the defender defends, and the attack is resolved as blocked at once. */
    method GemDefend(em: EquipmentManager?, gm: GameManager?)
      requires attacker != null && defender != null
      modifies this`waitingForReaction, this`defendOptions, defender`isDefending
      modifies attacker`hasAttacked, defender`currentHealth, defender`destroyed, TileOf(defender)`occupyingUnit
      modifies ManagerSet(gm)`selectedUnit, ManagerSet(gm)`hooks
      ensures Valid() && defender.isDefending
      ensures Resolved(attacker, defender, incomingDamage, true, em, gm)
    {
      defender.isDefending := true;
      ResolveAttack(true, em, gm);
    }

    /** ShowReactionUI: a pending reaction with a full timer, offering the Defend cards of the player's hand. */
    method ShowReactionUI(hm: HandManager?)
      requires attacker != null && defender != null
      modifies this`waitingForReaction, this`reactionTimer, this`defendOptions
      ensures Valid()
      ensures waitingForReaction && reactionTimer == reactionTimeLimit
      ensures defendOptions == OfType(if hm == null then [] else hm.GetPlayerHand(), Defend)
    {
      waitingForReaction := true;
      reactionTimer := reactionTimeLimit;
      var playerHand := if hm != null then hm.GetPlayerHand() else [];
      defendOptions := OfType(playerHand, Defend);
    }

    /**
     * OnDefendCardClicked: the offered Defend card is played on the defender,
     * taken out of the player's hand and discarded, and the attack is
     * resolved as blocked.
     */
    method OnDefendCardClicked(defendCard: Card, hm: HandManager, em: EquipmentManager?, deck: DeckManager?, gm: GameManager?)
      requires Valid() && defendCard in defendOptions
      requires deck != null ==> deck.Valid()
      requires em != null ==> em.maxEquipmentSlots >= 1
      modifies this`waitingForReaction, this`defendOptions
      modifies defender`isDefending, defender`healLog, defender`hasActedThisTurn, defender`hasAttacked
      modifies defender`currentHealth, defender`destroyed, TileOf(defender)`occupyingUnit
      modifies attacker`hasAttacked, hm`playerHand
      modifies ManagerSet(gm)`selectedUnit, ManagerSet(gm)`hooks
      modifies DeckSet(deck)`discardPile, DeckSet(deck)`discarded
      ensures Valid() && (deck != null ==> deck.Valid())
      ensures attacker == old(attacker) && defender == old(defender) && defender.isDefending
      ensures Resolved(old(attacker), old(defender), old(incomingDamage), true, em, gm)
      ensures defendCard in old(hm.playerHand) ==>
        hm.playerHand == Remove(old(hm.playerHand), defendCard)
        && (deck != null ==> deck.discardPile == old(deck.discardPile) + [defendCard])
      ensures defendCard !in old(hm.playerHand) ==> hm.playerHand == old(hm.playerHand) && unchanged(DeckSet(deck))
      ensures defender.healLog == old(defender.healLog) && defender.hasActedThisTurn == old(defender.hasActedThisTurn)
      ensures old(defender) != old(attacker) ==> defender.hasAttacked == old(defender.hasAttacked)
    {
      var d: DinoUnit := defender;
      var a: DinoUnit := attacker;
      assert defendCard.cardType == Defend by {
        var i :| 0 <= i < |defendOptions| && defendOptions[i] == defendCard;
      }
      DefendFromHand(defendCard, d, hm, deck, a, this, gm);
      ResolveAttack(true, em, gm);
    }

    /** OnTakeDamageClicked: the attack is resolved unblocked. */
    method OnTakeDamageClicked(em: EquipmentManager?, gm: GameManager?)
      requires attacker != null && defender != null
      modifies this`waitingForReaction, this`defendOptions
      modifies attacker`hasAttacked, defender`currentHealth, defender`destroyed, TileOf(defender)`occupyingUnit
      modifies ManagerSet(gm)`selectedUnit, ManagerSet(gm)`hooks
      ensures Valid() && attacker == old(attacker) && defender == old(defender)
      ensures Resolved(old(attacker), old(defender), old(incomingDamage), false, em, gm)
    {
      ResolveAttack(false, em, gm);
    }

    /**
     * AIReactionCoroutine, after its one-second wait: the AI defends with the
     * first Defend card of its hand when the damage exceeds 15 and the 70%
     * roll succeeds. The card is played on the defender, then handed to
     * AIPlayCard, which plays it once more, takes it out of the AI's hand and
     * discards it; the attack is resolved as blocked. Otherwise the attack is
     * resolved unblocked.
     */
    method AIReactionCoroutine(hm: HandManager?, em: EquipmentManager?, deck: DeckManager?, gm: GameManager?, defendRoll: bool)
      requires Valid() && attacker != null && defender != null
      requires ShouldDefend(hm, incomingDamage, defendRoll) ==> deck != null
      requires deck != null ==> deck.Valid()
      requires em != null ==> em.maxEquipmentSlots >= 1
      modifies this`waitingForReaction, this`defendOptions
      modifies defender`isDefending, defender`healLog, defender`hasActedThisTurn, defender`hasAttacked
      modifies defender`currentHealth, defender`destroyed, TileOf(defender)`occupyingUnit
      modifies attacker`hasAttacked, HandSet(hm)`aiHand
      modifies ManagerSet(gm)`selectedUnit, ManagerSet(gm)`hooks
      modifies DeckSet(deck)`discardPile, DeckSet(deck)`discarded
      ensures Valid() && (deck != null ==> deck.Valid())
      ensures attacker == old(attacker) && defender == old(defender)
      ensures old(ShouldDefend(hm, incomingDamage, defendRoll)) ==>
        var card: Card := old(FirstOfType(hm.aiHand, Defend));
        && defender.isDefending && hm.aiHand == Remove(old(hm.aiHand), card)
        && deck.discardPile == old(deck.discardPile) + [card]
        && Resolved(old(attacker), old(defender), old(incomingDamage), true, em, gm)
      ensures !old(ShouldDefend(hm, incomingDamage, defendRoll)) ==>
        && unchanged(HandSet(hm)) && unchanged(DeckSet(deck))
        && Resolved(old(attacker), old(defender), old(incomingDamage), false, em, gm)
      ensures defender.healLog == old(defender.healLog) && defender.hasActedThisTurn == old(defender.hasActedThisTurn)
      ensures old(defender) != old(attacker) ==> defender.hasAttacked == old(defender.hasAttacked)
    {
      ghost var d, a := defender, attacker;
      var aiHand := if hm != null then hm.GetAIHand() else [];
      var defendCard := FirstOfType(aiHand, Defend);
      var shouldDefend := defendCard != null && incomingDamage > 15 && defendRoll;
      if shouldDefend {
        assert hm != null && deck != null;
        var h: HandManager := hm;
        var card: Card := defendCard;
        assert card.cardType == Defend && card in h.aiHand;
        AIBlock(card, h, deck, em, gm);
      } else {
        ResolveAttack(false, em, gm);
        assert d.healLog == old(d.healLog) && d.hasActedThisTurn == old(d.hasActedThisTurn);
        assert d != a ==> d.hasAttacked == old(d.hasAttacked);
      }
    }

    /**
     * The defending branch of AIReactionCoroutine: the AI's Defend card is
     * played on the defender and through AIPlayCard (DefendTwice), and the
     * attack is resolved as blocked.
     */
    method AIBlock(card: Card, h: HandManager, deck: DeckManager, em: EquipmentManager?, gm: GameManager?)
      requires Valid() && attacker != null && defender != null
      requires card.cardType == Defend && card in h.aiHand && deck.Valid()
      modifies this`waitingForReaction, this`defendOptions
      modifies defender`isDefending, defender`healLog, defender`hasActedThisTurn, defender`hasAttacked
      modifies defender`currentHealth, defender`destroyed, TileOf(defender)`occupyingUnit
      modifies attacker`hasAttacked, h`aiHand, deck`discardPile, deck`discarded
      modifies ManagerSet(gm)`selectedUnit, ManagerSet(gm)`hooks
      ensures Valid() && deck.Valid()
      ensures defender.isDefending && h.aiHand == Remove(old(h.aiHand), card)
      ensures deck.discardPile == old(deck.discardPile) + [card]
      ensures Resolved(old(attacker), old(defender), old(incomingDamage), true, em, gm)
      ensures defender.healLog == old(defender.healLog) && defender.hasActedThisTurn == old(defender.hasActedThisTurn)
      ensures old(defender) != old(attacker) ==> defender.hasAttacked == old(defender.hasAttacked)
    {
      var d: DinoUnit := defender;
      var a: DinoUnit := attacker;
      DefendTwice(card, d, h, deck, a, this, gm);
      ResolveAttack(true, em, gm);
    }

    /**
     * ResolveAttack: see Resolved. The recorded attack itself (attacker,
     * defender, damage) is kept.
     */
    method ResolveAttack(wasBlocked: bool, em: EquipmentManager?, gm: GameManager?)
      requires attacker != null && defender != null
      modifies this`waitingForReaction, this`defendOptions
      modifies attacker`hasAttacked, defender`currentHealth, defender`destroyed, TileOf(defender)`occupyingUnit
      modifies ManagerSet(gm)`selectedUnit, ManagerSet(gm)`hooks
      ensures Valid()
      ensures Resolved(attacker, defender, incomingDamage, wasBlocked, em, gm)
    {
      waitingForReaction := false;
      defendOptions := [];
      if !wasBlocked {
        defender.TakeDamage(incomingDamage, gm);
      }
      var hasMechaLeg := em != null && em.HasEquipment(attacker, MekaLeg);
      if !hasMechaLeg {
        attacker.hasAttacked := true;
      }
      if gm != null {
        gm.OnReactionComplete();
      }
    }

    function IsWaitingForReaction(): (r: bool)
      reads this
      ensures r == waitingForReaction
    {
      waitingForReaction
    }
  }

  /** The condition under which AIReactionCoroutine defends. */
  predicate ShouldDefend(hm: HandManager?, incomingDamage: int, defendRoll: bool)
    reads HandSet(hm)
  {
    hm != null && FirstOfType(hm.aiHand, Defend) != null && incomingDamage > 15 && defendRoll
  }
}
