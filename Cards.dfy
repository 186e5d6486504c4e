/**
 * Cards.cs: the kinds of cards and the two Card constructors. A card's fields
 * are set once by its constructor and never written again, so they are
 * `const`; a card keeps its reference identity, which is what List<Card>.Remove
 * and Contains compare. The effect dispatch Card.PlayCard lives in module
 * Combat, next to the managers it calls.
 */
module Cards {

  import opened Wrappers
  import opened Lists

  datatype CardType = Attack | Defend | Medicine | Charge | Equipment

  /** The C# default of this enum (the value of an unset field) is MekaLeg. */
  datatype EquipmentType = MekaLeg | ProtectionGem

  class Card {
    const cardType: CardType
    /** Only meaningful for Equipment cards; a regular card keeps the default MekaLeg. */
    const equipmentType: EquipmentType
    /** null (None) for an Equipment card made by the one-argument constructor. */
    const cardName: Option<string>
    const description: Option<string>
    const maxUses: int
    const currentUses: int

    /** Card(CardType type): a regular card named after its type. */
    constructor (t: CardType)
      ensures cardType == t && equipmentType == MekaLeg && maxUses == 0 && currentUses == 0
      ensures t == Attack ==> cardName == Some("Attack") && description == Some("Deal damage to an enemy in range")
      ensures t == Defend ==> cardName == Some("Defend") && description == Some("Block the next enemy attack")
      ensures t == Medicine ==> cardName == Some("Medicine") && description == Some("Restore 10 HP")
      ensures t == Charge ==>
        cardName == Some("Charge") && description == Some("Move up to 5 tiles and deal 10 damage to adjacent enemy")
      ensures t == Equipment ==> cardName == None && description == None
    {
      cardType := t;
      equipmentType := MekaLeg;
      maxUses := 0;
      currentUses := 0;
      match t {
        case Attack =>
          cardName := Some("Attack");
          description := Some("Deal damage to an enemy in range");
        case Defend =>
          cardName := Some("Defend");
          description := Some("Block the next enemy attack");
        case Medicine =>
          cardName := Some("Medicine");
          description := Some("Restore 10 HP");
        case Charge =>
          cardName := Some("Charge");
          description := Some("Move up to 5 tiles and deal 10 damage to adjacent enemy");
        case Equipment =>
          cardName := None;
          description := None;
      }
    }

    /** Card(CardType type, EquipmentType equipment): named after the equipment, with unlimited (0) uses. */
    constructor Gear(t: CardType, equipment: EquipmentType)
      ensures cardType == t && equipmentType == equipment && maxUses == 0 && currentUses == 0
      ensures equipment == MekaLeg ==>
        cardName == Some("Meka Leg") && description == Some("Allows multiple attacks per turn")
      ensures equipment == ProtectionGem ==>
        cardName == Some("Protection Gem") && description == Some("33% chance to auto-defend when attacked")
    {
      cardType := t;
      equipmentType := equipment;
      maxUses := 0;
      currentUses := 0;
      match equipment {
        case MekaLeg =>
          cardName := Some("Meka Leg");
          description := Some("Allows multiple attacks per turn");
        case ProtectionGem =>
          cardName := Some("Protection Gem");
          description := Some("33% chance to auto-defend when attacked");
      }
    }
  }

  /** What a card is, for counting: a regular card by its type, an equipment card by its equipment. */
  datatype Kind = Regular(t: CardType) | Gear(e: EquipmentType)

  function KindOf(c: Card): Kind
  {
    if c.cardType == Equipment then Gear(c.equipmentType) else Regular(c.cardType)
  }

  /** The kinds of the cards of a list, with multiplicity. */
  function KindsOf(s: seq<Card>): multiset<Kind>
  {
    if s == [] then multiset{} else KindsOf(s[..|s| - 1]) + multiset{KindOf(s[|s| - 1])}
  }

  /** Every card has exactly one kind. */
  lemma {:induction false} KindsOfSize(s: seq<Card>)
    ensures |KindsOf(s)| == |s|
  {
    if s != [] {
      KindsOfSize(s[..|s| - 1]);
    }
  }

  /** Counting kinds distributes over concatenation. */
  lemma {:induction false} KindsOfAppend(a: seq<Card>, b: seq<Card>)
    ensures KindsOf(a + b) == KindsOf(a) + KindsOf(b)
  {
    if b != [] {
      var b' := b[..|b| - 1];
      assert (a + b)[..|a + b| - 1] == a + b';
      KindsOfAppend(a, b');
    } else {
      assert a + b == a;
    }
  }

  lemma KindsOfSingle(c: Card)
    ensures KindsOf([c]) == multiset{KindOf(c)}
  {
    assert [c][..0] == [];
  }

  /** Taking the card at index j out of a list takes one card of its kind out of the count. */
  lemma KindsOfRemove(b: seq<Card>, j: int)
    requires 0 <= j < |b|
    ensures KindsOf(b) == KindsOf(b[..j] + b[j + 1..]) + multiset{KindOf(b[j])}
  {
    var x, c, y := b[..j], b[j], b[j + 1..];
    SplitAt(b, j);
    KindsOfAppend(x + [c], y);
    KindsOfAppend(x, [c]);
    KindsOfAppend(x, y);
    KindsOfSingle(c);
  }

  /** Two lists holding the same cards hold the same kinds. */
  lemma {:induction false} KindsOfPermutation(a: seq<Card>, b: seq<Card>)
    requires multiset(a) == multiset(b)
    ensures KindsOf(a) == KindsOf(b)
  {
    if a != [] {
      var c := a[|a| - 1];
      var a' := a[..|a| - 1];
      SplitAt(a, |a| - 1);
      assert multiset(a') == multiset(a) - multiset{c};
      assert c in multiset(b);
      var j :| 0 <= j < |b| && b[j] == c;
      var b' := b[..j] + b[j + 1..];
      SplitAt(b, j);
      assert multiset(b') == multiset(b) - multiset{c};
      KindsOfPermutation(a', b');
      KindsOfRemove(b, j);
    }
  }
}
