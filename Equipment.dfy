/**
 * EquipementManager.cs: each unit's list of equipped cards, bounded by
 * maxEquipmentSlots. The static DeckManager.Instance that receives replaced
 * cards is passed explicitly as `deck`.
 */
module Equipment {

  import opened Cards
  import opened Deck
  import opened Battlefield

  function DeckSet(d: DeckManager?): set<DeckManager>
  {
    if d == null then {} else {d}
  }

  /** Enumerable.Any(e => e.equipmentType == t) over a list of cards. */
  function AnyOfType(s: seq<Card>, t: EquipmentType): (r: bool)
    ensures r <==> exists i :: 0 <= i < |s| && s[i].equipmentType == t
  {
    if s == [] then false
    else
      assert forall i :: 1 <= i < |s| ==> s[i] == s[1..][i - 1];
      s[0].equipmentType == t || AnyOfType(s[1..], t)
  }

  /** The list of a unit, an empty one when the unit has none yet. */
  function SlotsOf(m: map<DinoUnit, seq<Card>>, unit: DinoUnit): seq<Card>
  {
    if unit in m then m[unit] else []
  }

  /**
   * The list EquipCard leaves a unit with: below capacity the card is added
   * at the end; at capacity a player unit has slot 0 replaced, an AI unit
   * loses its oldest card and gains the new one at the end.
   */
  function Equipped(slots: seq<Card>, card: Card, team: Team, max: int): seq<Card>
    requires max >= 1
  {
    if |slots| < max then slots + [card]
    else if team == Player then slots[0 := card]
    else slots[1..] + [card]
  }

  /**
   * Equipping never takes a unit past the slot limit, keeps the count at
   * capacity, and always leaves the new card equipped.
   */
  lemma EquippedStaysBounded(slots: seq<Card>, card: Card, team: Team, max: int)
    requires max >= 1 && |slots| <= max
    ensures |Equipped(slots, card, team, max)| <= max
    ensures |slots| == max ==> |Equipped(slots, card, team, max)| == max
    ensures card in Equipped(slots, card, team, max)
  {
    var r := Equipped(slots, card, team, max);
    if |slots| == max && team == Player {
      assert r[0] == card;
    } else {
      assert r[|r| - 1] == card;
    }
  }

  /**
   * At capacity an AI unit's list is a queue: the front card leaves, every
   * other card moves up one slot, and the new card takes the last slot.
   */
  lemma AIEquipmentIsFIFO(slots: seq<Card>, card: Card, max: int)
    requires max >= 1 && |slots| >= max
    ensures var r := Equipped(slots, card, Enemy, max);
      |r| == |slots| && r[|r| - 1] == card && forall i :: 0 <= i < |r| - 1 ==> r[i] == slots[i + 1]
  {
  }

  /** At capacity a player unit keeps every slot but the first. */
  lemma PlayerEquipmentReplacesFirst(slots: seq<Card>, card: Card, max: int)
    requires max >= 1 && |slots| >= max
    ensures var r := Equipped(slots, card, Player, max);
      |r| == |slots| && r[0] == card && forall i :: 1 <= i < |r| ==> r[i] == slots[i]
  {
  }

  class EquipmentManager {
    const maxEquipmentSlots: int
    var unitEquipment: map<DinoUnit, seq<Card>>

    /** No unit holds more cards than there are slots. */
    ghost predicate Bounded()
      reads this
    {
      forall u :: u in unitEquipment ==> |unitEquipment[u]| <= maxEquipmentSlots
    }

    constructor (maxEquipmentSlots: int)
      requires maxEquipmentSlots >= 1
      ensures this.maxEquipmentSlots == maxEquipmentSlots && unitEquipment == map[] && Bounded()
    {
      this.maxEquipmentSlots := maxEquipmentSlots;
      unitEquipment := map[];
    }

    /**
     * EquipCard: the unit gets a list if it had none, then the card is
     * equipped as Equipped describes. Only a player's replacement discards
     * the replaced card; an AI's dropped card goes nowhere.
     */
    method EquipCard(unit: DinoUnit, equipmentCard: Card, deck: DeckManager?)
      requires maxEquipmentSlots >= 1
      requires deck != null ==> deck.Valid()
      modifies this`unitEquipment, DeckSet(deck)`discardPile, DeckSet(deck)`discarded
      ensures var slots := SlotsOf(old(unitEquipment), unit);
        unitEquipment == old(unitEquipment)[unit := Equipped(slots, equipmentCard, unit.team, maxEquipmentSlots)]
      ensures deck != null ==> deck.Valid()
      ensures var slots := SlotsOf(old(unitEquipment), unit);
        deck != null && |slots| >= maxEquipmentSlots && unit.team == Player ==>
          deck.discardPile == old(deck.discardPile) + [slots[0]]
      ensures var slots := SlotsOf(old(unitEquipment), unit);
        deck != null && !(|slots| >= maxEquipmentSlots && unit.team == Player) ==>
          deck.discardPile == old(deck.discardPile) && deck.discarded == old(deck.discarded)
      ensures old(Bounded()) ==> Bounded()
    {
      if unit !in unitEquipment {
        unitEquipment := unitEquipment[unit := []];
      }
      var equipment: seq<Card> := unitEquipment[unit];
      if |equipment| >= maxEquipmentSlots {
        if unit.team == Player {
          ShowReplacementUI(unit, equipmentCard, deck);
        } else {
          equipment := equipment[1..];
          equipment := equipment + [equipmentCard];
          unitEquipment := unitEquipment[unit := equipment];
        }
      } else {
        equipment := equipment + [equipmentCard];
        unitEquipment := unitEquipment[unit := equipment];
      }
      if old(Bounded()) {
        EquipKeepsBounded(old(unitEquipment), unit, equipmentCard, maxEquipmentSlots);
      }
    }

    /**
     * ReplaceEquipment: for a known unit and a slot inside its list, the card
     * in that slot is replaced and discarded; otherwise nothing changes.
     */
    method ReplaceEquipment(unit: DinoUnit, slotIndex: int, newEquipment: Card, deck: DeckManager?)
      requires deck != null ==> deck.Valid()
      modifies this`unitEquipment, DeckSet(deck)`discardPile, DeckSet(deck)`discarded
      ensures deck != null ==> deck.Valid()
      ensures unit in old(unitEquipment) && 0 <= slotIndex < |old(unitEquipment)[unit]| ==>
        && unitEquipment == old(unitEquipment)[unit := old(unitEquipment)[unit][slotIndex := newEquipment]]
        && (deck != null ==> deck.discardPile == old(deck.discardPile) + [old(unitEquipment)[unit][slotIndex]])
      ensures !(unit in old(unitEquipment) && 0 <= slotIndex < |old(unitEquipment)[unit]|) ==>
        unitEquipment == old(unitEquipment)
        && (deck != null ==> deck.discardPile == old(deck.discardPile) && deck.discarded == old(deck.discarded))
      ensures old(Bounded()) ==> Bounded()
    {
      if unit !in unitEquipment {
        return;
      }
      var equipment: seq<Card> := unitEquipment[unit];
      if 0 <= slotIndex < |equipment| {
        var oldEquipment: Card := equipment[slotIndex];
        equipment := equipment[slotIndex := newEquipment];
        unitEquipment := unitEquipment[unit := equipment];
        if deck != null {
          deck.DiscardCard(oldEquipment);
        }
        if old(Bounded()) {
          ReplaceKeepsBounded(old(unitEquipment), unit, slotIndex, newEquipment, maxEquipmentSlots);
        }
      }
    }

    /** ShowReplacementUI: the player's replacement always takes slot 0. */
    method ShowReplacementUI(unit: DinoUnit, newEquipment: Card, deck: DeckManager?)
      requires deck != null ==> deck.Valid()
      modifies this`unitEquipment, DeckSet(deck)`discardPile, DeckSet(deck)`discarded
      ensures deck != null ==> deck.Valid()
      ensures unit in old(unitEquipment) && |old(unitEquipment)[unit]| > 0 ==>
        && unitEquipment == old(unitEquipment)[unit := old(unitEquipment)[unit][0 := newEquipment]]
        && (deck != null ==> deck.discardPile == old(deck.discardPile) + [old(unitEquipment)[unit][0]])
      ensures !(unit in old(unitEquipment) && |old(unitEquipment)[unit]| > 0) ==>
        unitEquipment == old(unitEquipment)
        && (deck != null ==> deck.discardPile == old(deck.discardPile) && deck.discarded == old(deck.discarded))
      ensures old(Bounded()) ==> Bounded()
    {
      ReplaceEquipment(unit, 0, newEquipment, deck);
    }

    /** HasEquipment: the unit has a list and some card in it is of the given equipment type. */
    function HasEquipment(unit: DinoUnit, equipType: EquipmentType): (r: bool)
      reads this
      ensures r <==> (unit in unitEquipment &&
        exists i :: 0 <= i < |unitEquipment[unit]| && unitEquipment[unit][i].equipmentType == equipType)
    {
      unit in unitEquipment && AnyOfType(unitEquipment[unit], equipType)
    }

    /** GetEquipment: the unit's list as a value (a copy), empty for an unknown unit. */
    function GetEquipment(unit: DinoUnit): (r: seq<Card>)
      reads this
      ensures unit in unitEquipment ==> r == unitEquipment[unit]
      ensures unit !in unitEquipment ==> r == []
    {
      SlotsOf(unitEquipment, unit)
    }

    /** ClearEquipment: the unit's list is dropped (its cards are not discarded). */
    method ClearEquipment(unit: DinoUnit)
      modifies this`unitEquipment
      ensures unitEquipment == old(unitEquipment) - {unit}
      ensures forall t :: !HasEquipment(unit, t)
    {
      if unit in unitEquipment {
        unitEquipment := unitEquipment - {unit};
      }
    }
  }

  /** EquipCard keeps every unit within the slot limit. */
  lemma EquipKeepsBounded(m: map<DinoUnit, seq<Card>>, unit: DinoUnit, card: Card, max: int)
    requires max >= 1
    requires forall u :: u in m ==> |m[u]| <= max
    ensures var m' := m[unit := Equipped(SlotsOf(m, unit), card, unit.team, max)];
      forall u :: u in m' ==> |m'[u]| <= max
  {
    EquippedStaysBounded(SlotsOf(m, unit), card, unit.team, max);
  }

  /** A replacement keeps the length of the list it writes into. */
  lemma ReplaceKeepsBounded(m: map<DinoUnit, seq<Card>>, unit: DinoUnit, slotIndex: int, card: Card, max: int)
    requires unit in m && 0 <= slotIndex < |m[unit]|
    requires forall u :: u in m ==> |m[u]| <= max
    ensures var m' := m[unit := m[unit][slotIndex := card]];
      forall u :: u in m' ==> |m'[u]| <= max
  {
  }
}
