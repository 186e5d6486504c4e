/**
 * The units on the board and the turn logic: Tile.cs (coordinates and the
 * occupying unit), DinoUnit.cs and GameManager.cs. Units and tiles point at
 * each other (unit.currentTile, tile.occupyingUnit) and a unit's death
 * reaches into the game manager (it deselects itself), so the three classes
 * share one module.
 *
 * A destroyed Unity object compares equal to null; `Gone` is that test for
 * units. The static `GameManager.Instance` is passed explicitly as `gm`.
 */
module Battlefield {

  import opened Grid
  import opened Cards

  datatype Team = Player | Enemy

  /** The C# default of this enum (the value of a fresh field) is PlayerTurn. */
  datatype GameState = PlayerTurn | EnemyTurn | GameOver

  /**
   * Calls into GameManager members that the game's other scripts use but
   * GameManager.cs does not define; the model records that they were made.
   */
  datatype Hook = CardModeSet(t: CardType) | ChargeRangeShown(u: DinoUnit) | CardModeCleared | ReactionCompleted

  function TileSet(t: Tile?): set<Tile>
  {
    if t == null then {} else {t}
  }

  function UnitSet(u: DinoUnit?): set<DinoUnit>
  {
    if u == null then {} else {u}
  }

  function ManagerSet(g: GameManager?): set<GameManager>
  {
    if g == null then {} else {g}
  }

  /** The non-null units of a list. */
  function Units(s: seq<DinoUnit?>): set<DinoUnit>
  {
    set u: DinoUnit | u in s
  }

  /** The tiles the units of a list stand on. */
  function TilesOf(s: seq<DinoUnit?>): set<Tile>
    reads Units(s)
  {
    set u: DinoUnit | u in s && u.currentTile != null :: u.currentTile
  }

  /** The tile a unit stands on, as a frame. */
  function TileOf(u: DinoUnit?): set<Tile>
    reads UnitSet(u)
  {
    if u == null then {} else TileSet(u.currentTile)
  }

  /** The game manager's selected unit, as a frame. */
  function Selection(gm: GameManager?): set<DinoUnit>
    reads ManagerSet(gm)
  {
    if gm == null then {} else UnitSet(gm.selectedUnit)
  }

  /** A unit and the tile it stands on: what an attack on it may write. */
  function Footprint(u: DinoUnit?): set<object>
    reads UnitSet(u)
  {
    if u == null then {} else {u} + TileSet(u.currentTile)
  }

  /** Unity's `unit == null`: no unit, or one whose game object was destroyed. */
  predicate Gone(u: DinoUnit?)
    reads UnitSet(u)
  {
    u == null || u.destroyed
  }

  /** Mathf.Max(1, damage - defense): the damage a hit deals, at least one point. */
  function ActualDamage(damage: int, defense: int): (r: int)
    ensures r >= 1 && r >= damage - defense
    ensures r == 1 || r == damage - defense
  {
    if damage - defense > 1 then damage - defense else 1
  }

  /** GameManager.GetDistance: the Manhattan distance of two tiles, int.MaxValue when either is missing. */
  function GetDistance(a: Tile?, b: Tile?): (d: int)
    ensures a == null || b == null ==> d == MaxInt
    ensures a != null && b != null ==> d == Manhattan(a.At(), b.At())
  {
    if a == null || b == null then MaxInt else Abs(a.x - b.x) + Abs(a.z - b.z)
  }

  /**
   * Between two tiles GetDistance is a metric, and a missing tile puts every
   * distance at int.MaxValue.
   */
  lemma GetDistanceIsMetric(a: Tile, b: Tile, c: Tile)
    ensures GetDistance(a, b) == GetDistance(b, a) >= 0
    ensures GetDistance(a, b) == 0 <==> a.At() == b.At()
    ensures GetDistance(a, c) <= GetDistance(a, b) + GetDistance(b, c)
    ensures GetDistance(a, null) == GetDistance(null, a) == MaxInt
  {
    ManhattanIsMetric(a.At(), b.At(), c.At());
  }

  class Tile {
    const x: int
    const z: int
    var occupyingUnit: DinoUnit?

    constructor (x: int, z: int)
      ensures this.x == x && this.z == z && occupyingUnit == null
    {
      this.x, this.z := x, z;
      occupyingUnit := null;
    }

    function At(): Pos
    {
      Pos(x, z)
    }
  }

  /**
   * The tile of every live unit points back at the unit, and the unit on every
   * tile stands on that tile.
   */
  ghost predicate Placed(units: set<DinoUnit>, tiles: set<Tile>)
    reads units, tiles
  {
    && (forall u :: u in units && !u.destroyed && u.currentTile != null ==>
          u.currentTile in tiles && u.currentTile.occupyingUnit == u)
    && (forall t :: t in tiles && t.occupyingUnit != null ==>
          t.occupyingUnit in units && t.occupyingUnit.currentTile == t)
  }

  /** The effect of a hit of `damage` on u, as DinoUnit.TakeDamage makes it (its tile is unchanged). */
  twostate predicate Struck(u: DinoUnit, damage: int)
    reads u, TileSet(u.currentTile)
  {
    && u.currentTile == old(u.currentTile)
    && u.currentHealth == old(u.currentHealth) - ActualDamage(damage, u.defense)
    && u.destroyed == (old(u.destroyed) || u.currentHealth <= 0)
    && (u.currentTile != null ==>
          u.currentTile.occupyingUnit == if u.currentHealth <= 0 then null else old(u.currentTile.occupyingUnit))
  }

  /** A death deselects the dying unit and no other. */
  twostate predicate Deselected(gm: GameManager?, u: DinoUnit)
    reads ManagerSet(gm)`selectedUnit, u
  {
    gm != null ==>
      gm.selectedUnit == if u.currentHealth <= 0 && old(gm.selectedUnit) == u then null else old(gm.selectedUnit)
  }

  /** Nothing an attack could change about u has changed. */
  twostate predicate Unhurt(u: DinoUnit?)
    reads Footprint(u)
  {
    u != null ==>
      && u.currentTile == old(u.currentTile)
      && u.currentHealth == old(u.currentHealth) && u.destroyed == old(u.destroyed)
      && u.hasActedThisTurn == old(u.hasActedThisTurn)
      && (u.currentTile != null ==> u.currentTile.occupyingUnit == old(u.currentTile.occupyingUnit))
  }

  /** The effect of DinoUnit.MoveTo(tile) on a unit that stood on `from`. */
  twostate predicate Moved(u: DinoUnit, from: Tile?, tile: Tile)
    reads u, tile, TileSet(from)
  {
    && u.currentTile == tile && tile.occupyingUnit == u && u.hasActedThisTurn
    && (from != null && from != tile ==> from.occupyingUnit == null)
  }

  class DinoUnit {
    const dinoName: string
    const team: Team
    const maxHealth: int
    const attackPower: int
    const defense: int
    const moveRange: int
    const attackRange: int

    var currentHealth: int
    var hasActedThisTurn: bool
    var currentTile: Tile?
    /** Set by Defend cards and the Protection Gem; the shown TakeDamage never reads it. */
    var isDefending: bool
    /** Set when an attack by this unit resolves, unless it wears a Meka Leg. */
    var hasAttacked: bool
    /** Destroy(gameObject) has been called. */
    var destroyed: bool
    /** The amounts of the Heal calls made on this unit, in order. */
    var healLog: seq<int>

    /** A unit as configured in the inspector, after Start: full health, no tile yet, nothing done. */
    constructor (name: string, team: Team, maxHealth: int, attackPower: int, defense: int, moveRange: int, attackRange: int)
      ensures dinoName == name && this.team == team && this.maxHealth == maxHealth
      ensures this.attackPower == attackPower && this.defense == defense
      ensures this.moveRange == moveRange && this.attackRange == attackRange
      ensures currentHealth == maxHealth
      ensures !hasActedThisTurn && currentTile == null && !isDefending && !hasAttacked && !destroyed && healLog == []
    {
      dinoName, this.team, this.maxHealth := name, team, maxHealth;
      this.attackPower, this.defense := attackPower, defense;
      this.moveRange, this.attackRange := moveRange, attackRange;
      currentHealth := maxHealth;
      hasActedThisTurn, currentTile := false, null;
      isDefending, hasAttacked, destroyed := false, false, false;
      healLog := [];
    }

    /** DinoUnit.Heal is not part of this model; the call is recorded. */
    method Heal(amount: int)
      modifies this`healLog
      ensures healLog == old(healLog) + [amount]
    {
      healLog := healLog + [amount];
    }

    /**
     * TakeDamage: health drops by max(1, damage - defense), without a floor at
     * zero; the unit dies exactly when its health ends at or below zero.
     * isDefending plays no part.
     */
    method TakeDamage(damage: int, gm: GameManager?)
      modifies this`currentHealth, this`destroyed, TileSet(currentTile)`occupyingUnit, ManagerSet(gm)`selectedUnit
      ensures Struck(this, damage) && Deselected(gm, this)
    {
      currentHealth := currentHealth - ActualDamage(damage, defense);
      if currentHealth <= 0 {
        Die(gm);
      }
    }

    /** Attack: the target takes this unit's attack power, and this unit has acted. */
    method Attack(target: DinoUnit, gm: GameManager?)
      modifies this`hasActedThisTurn, target`currentHealth, target`destroyed
      modifies TileSet(target.currentTile)`occupyingUnit, ManagerSet(gm)`selectedUnit
      ensures Struck(target, attackPower) && Deselected(gm, target) && hasActedThisTurn
    {
      target.TakeDamage(attackPower, gm);
      hasActedThisTurn := true;
    }

    /** MoveTo: leaves the old tile empty, stands on the new one, and has acted. */
    method MoveTo(tile: Tile)
      modifies this`currentTile, this`hasActedThisTurn, TileSet(currentTile)`occupyingUnit, tile`occupyingUnit
      ensures Moved(this, old(currentTile), tile)
    {
      if currentTile != null {
        currentTile.occupyingUnit := null;
      }
      currentTile := tile;
      tile.occupyingUnit := this;
      hasActedThisTurn := true;
    }

    /**
     * Die: empties the unit's tile, deselects the unit if the game manager had
     * it selected, and destroys it. The unit keeps its currentTile.
     */
    method Die(gm: GameManager?)
      modifies this`destroyed, TileSet(currentTile)`occupyingUnit, ManagerSet(gm)`selectedUnit
      ensures destroyed
      ensures currentTile != null ==> currentTile.occupyingUnit == null
      ensures gm != null ==> gm.selectedUnit == if old(gm.selectedUnit) == this then null else old(gm.selectedUnit)
    {
      if currentTile != null {
        currentTile.occupyingUnit := null;
      }
      if gm != null && gm.selectedUnit == this {
        gm.SelectUnit(null);
      }
      destroyed := true;
    }

    /** ResetTurn: the unit may act again; nothing else changes. */
    method ResetTurn()
      modifies this`hasActedThisTurn
      ensures !hasActedThisTurn
    {
      hasActedThisTurn := false;
    }

    /**
     * OnClick: outside the player's turn (or without a game manager) nothing
     * happens; a player unit that has not acted is selected, one that has is
     * ignored; an enemy unit is the target of TryAttackUnit.
     */
    method OnClick(gm: GameManager?)
      modifies ManagerSet(gm)`selectedUnit, Selection(gm)`hasActedThisTurn
      modifies this`currentHealth, this`destroyed, TileSet(currentTile)`occupyingUnit
      ensures gm == null || old(gm.currentState) != PlayerTurn || (team == Player && old(hasActedThisTurn)) ==>
        unchanged(ManagerSet(gm), this)
      ensures gm == null || old(gm.currentState) != PlayerTurn || team == Player ==>
        unchanged(TileSet(old(currentTile))) && (gm != null ==> unchanged(old(Footprint(gm.selectedUnit))))
      ensures gm != null && old(gm.currentState) == PlayerTurn && team == Player ==>
        gm.selectedUnit == (if old(hasActedThisTurn) then old(gm.selectedUnit) else this)
      ensures gm != null && old(gm.currentState) == PlayerTurn && team == Player ==> unchanged(this)
      ensures gm != null && old(gm.currentState) == PlayerTurn && team == Enemy ==>
        gm.AttackTried(old(gm.selectedUnit), this)
    {
      if gm == null {
        return;
      }
      if gm.currentState != PlayerTurn {
        return;
      }
      if team == Player && !hasActedThisTurn {
        gm.SelectUnit(this);
      } else if team == Player && hasActedThisTurn {
      } else if team == Enemy {
        gm.TryAttackUnit(this);
      }
    }
  }

  /**
   * MoveTo onto an empty tile keeps units and tiles pointing at each other,
   * provided the moving unit is alive and nothing else changed.
   */
  twostate lemma MoveToKeepsPlaced(u: DinoUnit, from: Tile?, tile: Tile, units: set<DinoUnit>, tiles: set<Tile>)
    requires old(Placed(units, tiles)) && u in units && tile in tiles
    requires old(u.currentTile) == from && !old(u.destroyed) && !u.destroyed
    requires old(tile.occupyingUnit) == null
    requires Moved(u, from, tile)
    requires forall v :: v in units && v != u ==> unchanged(v)
    requires forall t :: t in tiles && t != from && t != tile ==> unchanged(t)
    ensures Placed(units, tiles)
  {
    forall v | v in units && !v.destroyed && v.currentTile != null
      ensures v.currentTile in tiles && v.currentTile.occupyingUnit == v
    {
      if v != u {
        var t := v.currentTile;
        assert old(t.occupyingUnit) == v;
        assert t != tile && t != from;
      }
    }
    forall t | t in tiles && t.occupyingUnit != null
      ensures t.occupyingUnit in units && t.occupyingUnit.currentTile == t
    {
      if t != tile && t != from {
        assert old(t.occupyingUnit) != u;
      }
    }
  }

  /** The units of a list that are on the given team, in order. */
  function OnTeam(s: seq<DinoUnit>, team: Team): (r: seq<DinoUnit>)
    ensures forall i :: 0 <= i < |r| ==> r[i] in s && r[i].team == team
    ensures forall i :: 0 <= i < |s| && s[i].team == team ==> s[i] in r
  {
    if s == [] then []
    else if s[|s| - 1].team == team then OnTeam(s[..|s| - 1], team) + [s[|s| - 1]]
    else OnTeam(s[..|s| - 1], team)
  }

  /** FindAllUnits splits the units into two teams, losing and duplicating none. */
  lemma {:induction false} TeamsPartition(s: seq<DinoUnit>)
    ensures multiset(OnTeam(s, Player)) + multiset(OnTeam(s, Enemy)) == multiset(s)
  {
    if s != [] {
      var init := s[..|s| - 1];
      TeamsPartition(init);
      assert s == init + [s[|s| - 1]];
    }
  }

  class GameManager {
    var currentState: GameState
    var selectedUnit: DinoUnit?
    var playerUnits: seq<DinoUnit?>
    var enemyUnits: seq<DinoUnit?>
    var hooks: seq<Hook>

    constructor ()
      ensures currentState == PlayerTurn && selectedUnit == null
      ensures playerUnits == [] && enemyUnits == [] && hooks == []
    {
      currentState, selectedUnit := PlayerTurn, null;
      playerUnits, enemyUnits, hooks := [], [], [];
    }

    /** FindAllUnits: the units found in the scene (`allUnits`), split by team in scene order. */
    method FindAllUnits(allUnits: seq<DinoUnit>)
      modifies this`playerUnits, this`enemyUnits
      ensures playerUnits == OnTeam(allUnits, Player) && enemyUnits == OnTeam(allUnits, Enemy)
    {
      playerUnits, enemyUnits := [], [];
      for i := 0 to |allUnits|
        invariant playerUnits == OnTeam(allUnits[..i], Player)
        invariant enemyUnits == OnTeam(allUnits[..i], Enemy)
      {
        assert allUnits[..i + 1][..i] == allUnits[..i];
        if allUnits[i].team == Player {
          playerUnits := playerUnits + [allUnits[i]];
        } else {
          enemyUnits := enemyUnits + [allUnits[i]];
        }
      }
      assert allUnits[..|allUnits|] == allUnits;
    }

    /** ResetTurn on every unit of the list that is not gone; gone units keep their flag. */
    static method ResetAll(units: seq<DinoUnit?>)
      modifies Units(units)`hasActedThisTurn
      ensures forall u :: u in Units(units) ==> u.hasActedThisTurn == (old(u.hasActedThisTurn) && u.destroyed)
    {
      for i := 0 to |units|
        invariant forall u :: u in Units(units[..i]) ==> u.hasActedThisTurn == (old(u.hasActedThisTurn) && u.destroyed)
        invariant forall u :: u in Units(units) && u !in units[..i] ==> u.hasActedThisTurn == old(u.hasActedThisTurn)
      {
        assert units[..i + 1] == units[..i] + [units[i]];
        if units[i] != null && !units[i].destroyed {
          units[i].ResetTurn();
        }
      }
      assert units[..|units|] == units;
    }

    /** StartPlayerTurn: the player's turn begins and every remaining player unit may act again. */
    method StartPlayerTurn()
      modifies this`currentState, Units(playerUnits)`hasActedThisTurn
      ensures currentState == PlayerTurn
      ensures forall u :: u in Units(playerUnits) ==> u.hasActedThisTurn == (old(u.hasActedThisTurn) && u.destroyed)
    {
      currentState := PlayerTurn;
      ResetAll(playerUnits);
    }

    /**
     * EndPlayerTurn: the enemy's turn begins, the selection is dropped and every
     * remaining enemy unit may act again. (The delayed ExecuteEnemyTurn is the
     * caller's next call.)
     */
    method EndPlayerTurn()
      modifies this`currentState, this`selectedUnit, Units(enemyUnits)`hasActedThisTurn
      ensures currentState == EnemyTurn && selectedUnit == null
      ensures forall u :: u in Units(enemyUnits) ==> u.hasActedThisTurn == (old(u.hasActedThisTurn) && u.destroyed)
    {
      currentState := EnemyTurn;
      if selectedUnit != null {
        selectedUnit := null;
      }
      ResetAll(enemyUnits);
    }

    /**
     * ExecuteEnemyTurn: each remaining enemy that has not acted attacks the
     * nearest player unit when it is within its attack range. Units only ever
     * lose health, acquire the acted flag and die; none comes back.
     */
    method ExecuteEnemyTurn()
      modifies this`selectedUnit, Units(enemyUnits)`hasActedThisTurn
      modifies Units(playerUnits)`currentHealth, Units(playerUnits)`destroyed, TilesOf(playerUnits)`occupyingUnit
      ensures forall u :: u in Units(enemyUnits) && old(u.hasActedThisTurn) ==> u.hasActedThisTurn
      ensures forall u :: u in Units(playerUnits) ==> u.currentHealth <= old(u.currentHealth)
      ensures forall u :: u in Units(playerUnits) && old(u.destroyed) ==> u.destroyed
    {
      for i := 0 to |enemyUnits|
        invariant forall u :: u in Units(enemyUnits) && old(u.hasActedThisTurn) ==> u.hasActedThisTurn
        invariant forall u :: u in Units(playerUnits) ==> u.currentHealth <= old(u.currentHealth)
        invariant forall u :: u in Units(playerUnits) && old(u.destroyed) ==> u.destroyed
      {
        var enemy := enemyUnits[i];
        if enemy == null || enemy.destroyed || enemy.hasActedThisTurn {
          continue;
        }
        var nearestTarget := FindNearestTarget(enemy, playerUnits);
        if nearestTarget != null {
          var dist := GetDistance(enemy.currentTile, nearestTarget.currentTile);
          if dist <= enemy.attackRange {
            assert nearestTarget in Units(playerUnits);
            enemy.Attack(nearestTarget, this);
          }
        }
      }
    }

    /**
     * The outcome of TryAttackUnit(target) with `selected` the selection at
     * the call: nothing happens unless both exist, they are on opposite teams,
     * the target is within the attacker's range and the attacker has not
     * acted; then the attack is made and the selection dropped.
     */
    twostate predicate AttackTried(selected: DinoUnit?, target: DinoUnit?)
      reads this, Footprint(selected), Footprint(target)
    {
      if old(Gone(selected)) || old(Gone(target)) || selected.team == target.team
         || old(GetDistance(selected.currentTile, target.currentTile)) > selected.attackRange
         || old(selected.hasActedThisTurn)
      then
        selectedUnit == old(selectedUnit) && Unhurt(selected) && Unhurt(target)
      else
        && Struck(target, selected.attackPower) && selected.hasActedThisTurn
        && selected.currentHealth == old(selected.currentHealth) && selected.currentTile == old(selected.currentTile)
        && selected.destroyed == old(selected.destroyed)
        && selectedUnit == null
    }

    /** TryAttackUnit: the clicked enemy is attacked by the selected unit when the attack is allowed. */
    method TryAttackUnit(target: DinoUnit?)
      modifies this`selectedUnit, UnitSet(selectedUnit)`hasActedThisTurn
      modifies UnitSet(target)`currentHealth, UnitSet(target)`destroyed, TileOf(target)`occupyingUnit
      ensures AttackTried(old(selectedUnit), target)
    {
      if selectedUnit == null || selectedUnit.destroyed || target == null || target.destroyed {
        return;
      }
      if selectedUnit.team == target.team {
        return;
      }
      var dist := GetDistance(selectedUnit.currentTile, target.currentTile);
      if dist <= selectedUnit.attackRange && !selectedUnit.hasActedThisTurn {
        selectedUnit.Attack(target, this);
        DeselectUnit();
      }
    }

    /**
     * OnTileClicked: with no selection nothing happens. An empty tile within
     * the selected unit's move range is moved to, an enemy-held tile within its
     * attack range is attacked (both only if the unit has not acted, and both
     * drop the selection), and a friendly-held tile selects its unit.
     */
    method OnTileClicked(tile: Tile)
      modifies this`selectedUnit, UnitSet(selectedUnit)`currentTile, UnitSet(selectedUnit)`hasActedThisTurn
      modifies TileOf(selectedUnit)`occupyingUnit, tile`occupyingUnit
      modifies UnitSet(tile.occupyingUnit)`currentHealth, UnitSet(tile.occupyingUnit)`destroyed
      modifies TileOf(tile.occupyingUnit)`occupyingUnit
      ensures old(Gone(selectedUnit)) ==>
        selectedUnit == old(selectedUnit) && unchanged(tile)
        && unchanged(old(Footprint(selectedUnit) + Footprint(tile.occupyingUnit)))
      ensures !old(Gone(selectedUnit)) && old(Gone(tile.occupyingUnit)) ==>
        var s, o := old(selectedUnit), old(tile.occupyingUnit);
        if old(GetDistance(s.currentTile, tile)) <= s.moveRange && !old(s.hasActedThisTurn)
        then
          && Moved(s, old(s.currentTile), tile) && selectedUnit == null
          && s.currentHealth == old(s.currentHealth) && s.destroyed == old(s.destroyed)
          && (o != null ==>
                && o.currentHealth == old(o.currentHealth) && o.destroyed == old(o.destroyed)
                && (o.currentTile != null && o.currentTile != tile && o.currentTile != old(s.currentTile) ==>
                      o.currentTile.occupyingUnit == old(o.currentTile.occupyingUnit)))
        else selectedUnit == s && unchanged(tile) && unchanged(old(Footprint(selectedUnit) + Footprint(tile.occupyingUnit)))
      ensures !old(Gone(selectedUnit)) && !old(Gone(tile.occupyingUnit)) ==>
        var s, o := old(selectedUnit), old(tile.occupyingUnit);
        if o.team != s.team then
          if old(GetDistance(s.currentTile, tile)) <= s.attackRange && !old(s.hasActedThisTurn)
          then
            && Struck(o, s.attackPower) && s.hasActedThisTurn && selectedUnit == null
            && s.currentTile == old(s.currentTile) && s.currentHealth == old(s.currentHealth) && s.destroyed == old(s.destroyed)
            && tile.occupyingUnit == (if tile == o.currentTile && o.currentHealth <= 0 then null else o)
            && (s.currentTile != null && s.currentTile != o.currentTile ==>
                  s.currentTile.occupyingUnit == old(s.currentTile.occupyingUnit))
          else selectedUnit == s && unchanged(tile) && unchanged(old(Footprint(selectedUnit) + Footprint(tile.occupyingUnit)))
        else selectedUnit == o && unchanged(tile) && unchanged(old(Footprint(selectedUnit) + Footprint(tile.occupyingUnit)))
    {
      if selectedUnit == null || selectedUnit.destroyed {
        return;
      }
      if tile.occupyingUnit == null || tile.occupyingUnit.destroyed {
        var dist := GetDistance(selectedUnit.currentTile, tile);
        if dist <= selectedUnit.moveRange && !selectedUnit.hasActedThisTurn {
          selectedUnit.MoveTo(tile);
          DeselectUnit();
        }
      } else if tile.occupyingUnit.team != selectedUnit.team {
        var dist := GetDistance(selectedUnit.currentTile, tile);
        if dist <= selectedUnit.attackRange && !selectedUnit.hasActedThisTurn {
          selectedUnit.Attack(tile.occupyingUnit, this);
          DeselectUnit();
        }
      } else {
        SelectUnit(tile.occupyingUnit);
      }
    }

    /** SelectUnit: the given unit (possibly none) becomes the selection. */
    method SelectUnit(unit: DinoUnit?)
      modifies this`selectedUnit
      ensures selectedUnit == unit
    {
      selectedUnit := unit;
    }

    method DeselectUnit()
      modifies this`selectedUnit
      ensures selectedUnit == null
    {
      selectedUnit := null;
    }

    /**
     * FindNearestTarget: the first target, in list order, of least distance
     * from the unit among those that exist and stand on a tile; none when no
     * such target is nearer than int.MaxValue.
     */
    static method FindNearestTarget(unit: DinoUnit, targets: seq<DinoUnit?>) returns (nearest: DinoUnit?)
      ensures nearest == null <==>
        forall i :: 0 <= i < |targets| && Candidate(targets[i]) ==> Reach(unit, targets[i]) >= MaxInt
      ensures nearest != null ==>
        exists k :: 0 <= k < |targets| && targets[k] == nearest && Candidate(nearest) && Reach(unit, nearest) < MaxInt
          && (forall i :: 0 <= i < |targets| && Candidate(targets[i]) ==> Reach(unit, nearest) <= Reach(unit, targets[i]))
          && (forall i :: 0 <= i < k && Candidate(targets[i]) ==> Reach(unit, nearest) < Reach(unit, targets[i]))
    {
      nearest := null;
      var minDist := MaxInt;
      ghost var k := 0;
      for i := 0 to |targets|
        invariant nearest == null ==> minDist == MaxInt
        invariant forall j :: 0 <= j < i && Candidate(targets[j]) ==> minDist <= Reach(unit, targets[j])
        invariant nearest == null ==>
          forall j :: 0 <= j < i && Candidate(targets[j]) ==> Reach(unit, targets[j]) >= MaxInt
        invariant nearest != null ==>
          && 0 <= k < i && targets[k] == nearest && Candidate(nearest) && minDist == Reach(unit, nearest) < MaxInt
          && (forall j :: 0 <= j < k && Candidate(targets[j]) ==> minDist < Reach(unit, targets[j]))
      {
        var target := targets[i];
        if target == null || target.destroyed || target.currentTile == null {
          continue;
        }
        var dist := GetDistance(unit.currentTile, target.currentTile);
        if dist < minDist {
          minDist := dist;
          nearest := target;
          k := i;
        }
      }
    }

    /** OnReactionComplete is not defined in GameManager.cs; the call is recorded. */
    method OnReactionComplete()
      modifies this`hooks
      ensures hooks == old(hooks) + [ReactionCompleted]
    {
      hooks := hooks + [ReactionCompleted];
    }

    /** SetCardMode is not defined in GameManager.cs; the call is recorded. */
    method SetCardMode(t: CardType)
      modifies this`hooks
      ensures hooks == old(hooks) + [CardModeSet(t)]
    {
      hooks := hooks + [CardModeSet(t)];
    }

    /** ShowChargeRange is not defined in GameManager.cs; the call is recorded. */
    method ShowChargeRange(u: DinoUnit)
      modifies this`hooks
      ensures hooks == old(hooks) + [ChargeRangeShown(u)]
    {
      hooks := hooks + [ChargeRangeShown(u)];
    }

    /** ClearCardMode is not defined in GameManager.cs; the call is recorded. */
    method ClearCardMode()
      modifies this`hooks
      ensures hooks == old(hooks) + [CardModeCleared]
    {
      hooks := hooks + [CardModeCleared];
    }
  }

  /** A target FindNearestTarget considers: it exists and stands on a tile. */
  predicate Candidate(t: DinoUnit?)
    reads UnitSet(t)
  {
    !Gone(t) && t.currentTile != null
  }

  /** The distance FindNearestTarget compares. */
  function Reach(unit: DinoUnit, t: DinoUnit): int
    reads unit, t
  {
    GetDistance(unit.currentTile, t.currentTile)
  }
}
