/**
 * The ability engine acting on a game record: buffs and debuffs, one ability on one
 * target, active abilities (validate, pay, resolve targets, apply), passive
 * abilities dispatched by trigger, and the ledger tick.
 */
module AbilityEngine {
  import opened Basics
  import opened GameConstants
  import opened Board
  import opened GameState
  import opened AbilityTargets
  import opened AbilityEffects

  // ------------------------------------------------------------ buffs and debuffs

  /** Adds the buff's deltas to the target and records it when it has a duration. */
  method ApplyBuff(g: Game, target: Cell, targetPos: Pos, buff: StatChange, abilityName: string) returns (buffed: Cell)
    requires g.Valid() && OnGrid(g.board, targetPos)
    modifies g`activeBuffs
    ensures g.Valid()
    ensures buffed == Buffed(target, buff)
    ensures g.activeBuffs == Recorded(old(g.activeBuffs), targetPos, abilityName, BuffKind, buff)
  {
    var buffData := LedgerRecord(targetPos, abilityName, BuffKind, buff);
    buffed := target;
    if buffed.Unit? {
      var attack := if buff.attack != 0 then buffed.attack + buff.attack else buffed.attack;
      var defense := if buff.defense != 0 then buffed.defense + buff.defense else buffed.defense;
      var speed := if buff.speed != 0 then buffed.speed + buff.speed else buffed.speed;
      buffed := buffed.(attack := attack, defense := defense, speed := speed);
    }
    if buff.durationTurns.Some? {
      g.activeBuffs := g.activeBuffs + [buffData];
    }
  }

  /** Subtracts the debuff's deltas from the target and records it when it has a duration. */
  method ApplyDebuff(g: Game, target: Cell, targetPos: Pos, debuff: StatChange, abilityName: string) returns (debuffed: Cell)
    requires g.Valid() && OnGrid(g.board, targetPos)
    modifies g`activeBuffs
    ensures g.Valid()
    ensures debuffed == Debuffed(target, debuff)
    ensures g.activeBuffs == Recorded(old(g.activeBuffs), targetPos, abilityName, DebuffKind, debuff)
  {
    var debuffData := LedgerRecord(targetPos, abilityName, DebuffKind, debuff);
    debuffed := target;
    if debuffed.Unit? {
      var attack := if debuff.attack != 0 then debuffed.attack - debuff.attack else debuffed.attack;
      var defense := if debuff.defense != 0 then debuffed.defense - debuff.defense else debuffed.defense;
      var speed := if debuff.speed != 0 then debuffed.speed - debuff.speed else debuffed.speed;
      debuffed := debuffed.(attack := attack, defense := defense, speed := speed);
    }
    if debuff.durationTurns.Some? {
      g.activeBuffs := g.activeBuffs + [debuffData];
    }
  }

  // ------------------------------------------------------------ one target

  /** The heal, buff, debuff and move-flag steps of `applyAbilityEffect` on the target object. */
  method LaterEffects(g: Game, a: Ability, target: Cell, targetPos: Pos) returns (result: Cell, items: seq<EffectItem>)
    requires g.Valid() && OnGrid(g.board, targetPos) && !target.Empty?
    modifies g`activeBuffs
    ensures g.Valid()
    ensures result == LaterSteps(a, target)
    ensures items == LaterItems(a, HealAmount(target, a.heal))
    ensures g.activeBuffs == LedgerAfter(old(g.activeBuffs), a, targetPos)
  {
    result := target;
    items := [];
    if a.heal != 0 {
      var healAmount := HealAmount(result, a.heal);
      result := Healed(result, a.heal);
      items := items + [HealApplied(healAmount)];
    }
    ghost var want := if a.heal != 0 then [HealApplied(HealAmount(target, a.heal))] else [];
    assert items == want;
    if a.buff.Some? {
      result := ApplyBuff(g, result, targetPos, a.buff.value, a.name);
      items := items + [BuffApplied(a.buff.value)];
    }
    want := want + (if a.buff.Some? then [BuffApplied(a.buff.value)] else []);
    assert items == want;
    if a.debuff.Some? {
      result := ApplyDebuff(g, result, targetPos, a.debuff.value, a.name);
      items := items + [DebuffApplied(a.debuff.value)];
    }
    want := want + (if a.debuff.Some? then [DebuffApplied(a.debuff.value)] else []);
    assert items == want;
    if a.allowAttackAfterFullMove {
      result := MoveReset(result);
      items := items + [MoveFlagReset];
    }
  }

  /** The damage step of `applyAbilityEffect`: the occupant is removed once its hp drops to 0 or below. */
  method DamageStep(g: Game, a: Ability, targetPos: Pos) returns (target: Cell, killed: bool, items: seq<EffectItem>)
    requires g.Valid() && OnGrid(g.board, targetPos) && !At(g.board, targetPos).Empty?
    modifies g`board
    ensures g.Valid()
    ensures target == AfterDamage(a, old(At(g.board, targetPos)))
    ensures killed == (a.damage != 0 && Fallen(target))
    ensures items == (if a.damage != 0 then [DamageDealt(DealtDamage(a, old(At(g.board, targetPos))))] else []) +
                     (if killed then [Killed] else [])
    ensures g.board == if killed then Put(old(g.board), targetPos, Empty) else old(g.board)
  {
    target := At(g.board, targetPos);
    items := [];
    killed := false;
    if a.damage != 0 {
      var damage := a.damage;
      if target.Tower? && a.structureBonus.Some? {
        damage := damage + a.structureBonus.value;
      }
      if !a.ignoresDefense && target.DefenseOrZero() != 0 {
        damage := Max(0, damage - target.DefenseOrZero());
      }
      target := Wounded(target, damage);
      items := items + [DamageDealt(damage)];
      if Fallen(target) {
        g.board := Put(g.board, targetPos, Empty);
        killed := true;
        items := items + [Killed];
      }
    }
  }

  /** One ability applied to the occupant of targetPos, as `EffectOn` describes. */
  method ApplyAbilityEffect(g: Game, caster: PlayerId, a: Ability, targetPos: Pos) returns (effect: Option<TargetEffect>)
    requires g.Valid() && OnGrid(g.board, targetPos) && !At(g.board, targetPos).Empty?
    modifies g`board, g`activeBuffs
    ensures g.Valid()
    ensures Applied(Engine(g.board, g.activeBuffs), effect) ==
      EffectOn(old(Engine(g.board, g.activeBuffs)), caster, a, targetPos)
  {
    var x := At(g.board, targetPos);
    if !a.friendlyFire && x.owner == caster && a.damage != 0 {
      return None;
    }
    var target, killed, items := DamageStep(g, a, targetPos);
    ghost var t1 := target;
    ghost var front := items;
    var later: seq<EffectItem>;
    target, later := LaterEffects(g, a, target, targetPos);
    items := items + later;
    if !killed {
      g.board := Put(g.board, targetPos, target);
    }
    effect := if |items| > 0 then Some(TargetEffect(targetPos, items)) else None;
    assert items == front + LaterItems(a, HealAmount(t1, a.heal));
  }

  /**
   * The ability applied to each listed cell in turn. Every target the engine
   * collects is still in place when its turn comes, since an effect changes only its
   * own cell; the occupancy test matters only for the cells of an area.
   */
  method ApplyToAll(g: Game, caster: PlayerId, a: Ability, ps: seq<Pos>) returns (effects: seq<TargetEffect>)
    requires g.Valid()
    modifies g`board, g`activeBuffs
    ensures g.Valid()
    ensures Resolved(Engine(g.board, g.activeBuffs), effects) == ApplyAll(old(Engine(g.board, g.activeBuffs)), caster, a, ps)
  {
    ghost var e0 := Engine(g.board, g.activeBuffs);
    effects := [];
    var i := 0;
    while i < |ps|
      invariant 0 <= i <= |ps|
      invariant g.Valid()
      invariant Resolved(Engine(g.board, g.activeBuffs), effects) == ApplyAll(e0, caster, a, ps[..i])
    {
      var pos := ps[i];
      assert ps[..i + 1][..i] == ps[..i];
      if OnGrid(g.board, pos) && !At(g.board, pos).Empty? {
        var effect := ApplyAbilityEffect(g, caster, a, pos);
        if effect.Some? {
          effects := effects + [effect.value];
        }
      }
      i := i + 1;
    }
    assert ps[..|ps|] == ps;
  }

  // ------------------------------------------------------------ active abilities

  /** Why an active ability was refused. */
  datatype Rejection = InsufficientEnergy | AbilityAlreadyUsed | OutOfRange | BadTarget(reason: TargetError)

  /**
   * The result of an active ability: refused, carried out with its effects and cost,
   * or aborted after payment because it needed a target position it was not given.
   */
  datatype AbilityOutcome = Rejected(why: Rejection) | Activated(effects: seq<TargetEffect>, energyCost: int) | Fault

  /** The checks run before anything changes, in order; None when all pass. */
  function ActiveRejection(b: Grid, player: Player, playerId: PlayerId, unitPos: Pos, a: Ability, targetPos: Option<Pos>): (r: Option<Rejection>)
    requires OnGrid(b, unitPos) && At(b, unitPos).Unit?
    requires targetPos.Some? ==> OnGrid(b, targetPos.value)
    ensures r.None? <==>
      && (a.energyCost == 0 || player.energy >= a.energyCost)
      && !At(b, unitPos).abilityUsedThisTurn
      && (a.range != 0 && targetPos.Some? ==> Manhattan(unitPos, targetPos.value) <= a.range)
      && ValidateTarget(b, playerId, a.target, targetPos) == TargetOk
  {
    if a.energyCost != 0 && player.energy < a.energyCost then Some(InsufficientEnergy)
    else if At(b, unitPos).abilityUsedThisTurn then Some(AbilityAlreadyUsed)
    else if a.range != 0 && targetPos.Some? && Manhattan(unitPos, targetPos.value) > a.range then Some(OutOfRange)
    else match ValidateTarget(b, playerId, a.target, targetPos)
      case TargetRejected(reason) => Some(BadTarget(reason))
      case TargetOk => None
  }

  /** An area ability, or a self ability, given no target position reads a field of nothing after payment. */
  predicate Faults(a: Ability, targetPos: Option<Pos>) {
    targetPos.None? && (a.areaEffect || a.target == SelfTarget)
  }

  /** The board once the caster is marked as having used its ability this turn. */
  function MarkedUsed(b: Grid, unitPos: Pos): (b': Grid)
    requires OnGrid(b, unitPos) && At(b, unitPos).Unit?
    ensures SameShape(b, b')
  {
    Put(b, unitPos, At(b, unitPos).(abilityUsedThisTurn := true))
  }

  /** The player after paying for the ability (an absent cost reads as 0). */
  function Charged(player: Player, a: Ability): Player {
    player.(energy := player.energy - a.energyCost)
  }

  /** The cells an ability resolves to: the in-bounds cells of its area, or its target list. */
  function TargetCells(b: Grid, playerId: PlayerId, a: Ability, targetPos: Option<Pos>): seq<Pos>
    requires IsGrid(b) && !Faults(a, targetPos)
    requires targetPos.Some? ==> OnGrid(b, targetPos.value)
    requires a.target == AllyTarget || a.target == EnemyTarget ==> targetPos.Some?
  {
    if a.areaEffect then InBoundsOnly(AffectedArea(targetPos.value, a.areaSize))
    else GetTargets(b, playerId, a.target, targetPos)
  }

  /**
   * `executeActiveAbility`. A refusal changes nothing. Otherwise the player pays the
   * cost and the caster is marked before the targets are resolved; the effects are
   * then those of `ApplyAll` over the resolved cells.
   */
  method ExecuteActiveAbility(g: Game, playerId: PlayerId, unitPos: Pos, a: Ability, targetPos: Option<Pos>)
    returns (outcome: AbilityOutcome)
    requires g.Valid()
    requires OnGrid(g.board, unitPos) && At(g.board, unitPos).Unit?
    requires targetPos.Some? ==> OnGrid(g.board, targetPos.value)
    modifies g`board, g`activeBuffs, g`player1, g`player2
    ensures g.Valid()
    ensures outcome.Rejected? <==>
      old(ActiveRejection(g.board, PlayerFor(g.player1, g.player2, playerId), playerId, unitPos, a, targetPos)).Some?
    ensures outcome.Rejected? ==>
      && outcome.why == old(ActiveRejection(g.board, PlayerFor(g.player1, g.player2, playerId), playerId, unitPos, a, targetPos)).value
      && g.board == old(g.board) && g.activeBuffs == old(g.activeBuffs)
      && g.player1 == old(g.player1) && g.player2 == old(g.player2)
    ensures !outcome.Rejected? ==>
      && PlayerFor(g.player1, g.player2, playerId) == Charged(old(PlayerFor(g.player1, g.player2, playerId)), a)
      && (playerId == old(g.player1.id) ==> g.player2 == old(g.player2))
      && (playerId != old(g.player1.id) ==> g.player1 == old(g.player1))
    ensures outcome == Fault <==> !outcome.Rejected? && Faults(a, targetPos)
    ensures outcome == Fault ==> g.board == old(MarkedUsed(g.board, unitPos)) && g.activeBuffs == old(g.activeBuffs)
    ensures outcome.Activated? ==>
      && outcome.energyCost == a.energyCost
      && Resolved(Engine(g.board, g.activeBuffs), outcome.effects) ==
         ApplyAll(old(Engine(MarkedUsed(g.board, unitPos), g.activeBuffs)), playerId, a,
                  TargetCells(old(MarkedUsed(g.board, unitPos)), playerId, a, targetPos))
  {
    var isPlayer1 := playerId == g.player1.id;
    var player := if isPlayer1 then g.player1 else g.player2;
    var unit := At(g.board, unitPos);

    if a.energyCost != 0 && player.energy < a.energyCost {
      return Rejected(InsufficientEnergy);
    }
    if unit.abilityUsedThisTurn {
      return Rejected(AbilityAlreadyUsed);
    }
    if a.range != 0 && targetPos.Some? {
      var dist := Abs(unitPos.r - targetPos.value.r) + Abs(unitPos.c - targetPos.value.c);
      if dist > a.range {
        return Rejected(OutOfRange);
      }
    }
    var targetValidation := ValidateTarget(g.board, playerId, a.target, targetPos);
    if targetValidation.TargetRejected? {
      return Rejected(BadTarget(targetValidation.reason));
    }

    PayAndMark(g, playerId, unitPos, a);
    outcome := ResolveActive(g, playerId, a, targetPos);
  }

  /** The player pays the ability's cost and the caster is marked as having used its ability. */
  method PayAndMark(g: Game, playerId: PlayerId, unitPos: Pos, a: Ability)
    requires g.Valid() && OnGrid(g.board, unitPos) && At(g.board, unitPos).Unit?
    modifies g`board, g`player1, g`player2
    ensures g.Valid()
    ensures g.board == old(MarkedUsed(g.board, unitPos))
    ensures PlayerFor(g.player1, g.player2, playerId) == Charged(old(PlayerFor(g.player1, g.player2, playerId)), a)
    ensures playerId == old(g.player1.id) ==> g.player2 == old(g.player2)
    ensures playerId != old(g.player1.id) ==> g.player1 == old(g.player1)
  {
    var isPlayer1 := playerId == g.player1.id;
    var player := if isPlayer1 then g.player1 else g.player2;
    player := player.(energy := player.energy - a.energyCost);
    if isPlayer1 { g.player1 := player; } else { g.player2 := player; }
    g.board := Put(g.board, unitPos, At(g.board, unitPos).(abilityUsedThisTurn := true));
    SameShapeLedger(old(g.board), g.board, g.activeBuffs);
  }

  /** After payment: a missing target position faults; otherwise the ability is applied to its resolved cells. */
  method ResolveActive(g: Game, playerId: PlayerId, a: Ability, targetPos: Option<Pos>) returns (outcome: AbilityOutcome)
    requires g.Valid() && (targetPos.Some? ==> OnGrid(g.board, targetPos.value))
    requires a.target == AllyTarget || a.target == EnemyTarget ==> targetPos.Some?
    modifies g`board, g`activeBuffs
    ensures g.Valid() && !outcome.Rejected?
    ensures outcome == Fault <==> Faults(a, targetPos)
    ensures outcome == Fault ==> g.board == old(g.board) && g.activeBuffs == old(g.activeBuffs)
    ensures outcome.Activated? ==>
      && outcome.energyCost == a.energyCost
      && Resolved(Engine(g.board, g.activeBuffs), outcome.effects) ==
         ApplyAll(old(Engine(g.board, g.activeBuffs)), playerId, a, TargetCells(old(g.board), playerId, a, targetPos))
  {
    if targetPos.None? && (a.areaEffect || a.target == SelfTarget) {
      return Fault;
    }
    var cells: seq<Pos>;
    if a.areaEffect {
      cells := InBoundsOnly(AffectedArea(targetPos.value, a.areaSize));
    } else {
      cells := GetTargets(g.board, playerId, a.target, targetPos);
    }
    var effects := ApplyToAll(g, playerId, a, cells);
    outcome := Activated(effects, a.energyCost);
  }

  /**
   * Once an ability has been carried out, the caster (if it is still on the board)
   * cannot use an ability again: the same check now refuses it.
   */
  lemma SecondUseRejected(b: Grid, ledger: seq<LedgerEntry>, player: Player, playerId: PlayerId, unitPos: Pos,
                          a: Ability, targetPos: Option<Pos>, next: Ability, nextTarget: Option<Pos>)
    requires IsGrid(b) && OnGrid(b, unitPos) && At(b, unitPos).Unit?
    requires targetPos.Some? ==> OnGrid(b, targetPos.value)
    requires nextTarget.Some? ==> OnGrid(b, nextTarget.value)
    requires ActiveRejection(b, player, playerId, unitPos, a, targetPos).None? && !Faults(a, targetPos)
    ensures var marked := MarkedUsed(b, unitPos);
      var after := ApplyAll(Engine(marked, ledger), playerId, a, TargetCells(marked, playerId, a, targetPos)).engine.board;
      At(after, unitPos).Unit? ==>
        ActiveRejection(after, Charged(player, a), playerId, unitPos, next, nextTarget).Some?
  {
    var marked := MarkedUsed(b, unitPos);
    assert ValidateTarget(b, playerId, a.target, targetPos) == TargetOk;
    var after := ApplyAll(Engine(marked, ledger), playerId, a, TargetCells(marked, playerId, a, targetPos)).engine.board;
    assert OnGrid(marked, unitPos);
    ApplyAllFacts(Engine(marked, ledger), playerId, a, TargetCells(marked, playerId, a, targetPos));
  }

  // ------------------------------------------------------------ passive abilities

  /** The trigger name under which only the killer's passives fire. */
  const ON_KILL: string := "onKill"

  /** A passive effect report carries the ability's name and the trigger. */
  datatype PassiveEffect = PassiveEffect(abilityName: string, trigger: string, effect: TargetEffect)

  datatype Triggered = Triggered(engine: Engine, effects: seq<PassiveEffect>)

  /** Does ability a listen to this trigger? */
  predicate Fires(a: Ability, trigger: string) {
    a.abilityType == Passive && a.trigger == Some(trigger)
  }

  /** An onKill event with a killer position holds back every unit but the killer. */
  predicate HeldBack(trigger: string, killerPos: Option<Pos>, p: Pos) {
    trigger == ON_KILL && killerPos.Some? && killerPos.value != p
  }

  function Tagged(fx: seq<TargetEffect>, name: string, trigger: string): seq<PassiveEffect> {
    seq(|fx|, i requires 0 <= i < |fx| => PassiveEffect(name, trigger, fx[i]))
  }

  /**
   * The first n passives of the unit at p (owned by owner), in order: each one that
   * fires resolves its targets from p, as the unit's own player, and applies itself
   * to them.
   */
  function UnitPassives(e: Engine, owner: PlayerId, abilities: seq<Ability>, n: nat, p: Pos, trigger: string, killerPos: Option<Pos>): (r: Triggered)
    requires IsGrid(e.board) && InBounds(p) && n <= |abilities|
    ensures SameShape(e.board, r.engine.board) && IsGrid(r.engine.board)
  {
    if n == 0 then Triggered(e, [])
    else PassiveStep(UnitPassives(e, owner, abilities, n - 1, p, trigger, killerPos), owner, abilities[n - 1], p, trigger, killerPos)
  }

  /** One ability of the unit at p: if it fires, its effects on its targets follow prev's. */
  function PassiveStep(prev: Triggered, owner: PlayerId, a: Ability, p: Pos, trigger: string, killerPos: Option<Pos>): (r: Triggered)
    requires IsGrid(prev.engine.board) && InBounds(p)
    ensures SameShape(prev.engine.board, r.engine.board) && IsGrid(r.engine.board)
  {
    if Fires(a, trigger) && !HeldBack(trigger, killerPos, p) then
      var res := ApplyAll(prev.engine, owner, a, GetTargets(prev.engine.board, owner, a.target, Some(p)));
      Triggered(res.engine, prev.effects + Tagged(res.effects, a.name, trigger))
    else prev
  }

  /** One cell of the scan: a unit there runs its passives; any other cell does nothing. */
  function ScanStep(prev: Triggered, p: Pos, trigger: string, killerPos: Option<Pos>): (r: Triggered)
    requires IsGrid(prev.engine.board) && InBounds(p)
    ensures SameShape(prev.engine.board, r.engine.board) && IsGrid(r.engine.board)
  {
    var x := At(prev.engine.board, p);
    if x.Unit? then
      var u := UnitPassives(prev.engine, x.owner, x.abilities, |x.abilities|, p, trigger, killerPos);
      Triggered(u.engine, prev.effects + u.effects)
    else prev
  }

  /** The scan of the first c cells of row r, left to right, continuing from prev. */
  function RowScan(prev: Triggered, r: int, c: nat, trigger: string, killerPos: Option<Pos>): (res: Triggered)
    requires IsGrid(prev.engine.board) && 0 <= r < BOARD_HEIGHT && c <= BOARD_WIDTH
    ensures SameShape(prev.engine.board, res.engine.board) && IsGrid(res.engine.board)
  {
    if c == 0 then prev
    else ScanStep(RowScan(prev, r, c - 1, trigger, killerPos), Pos(r, c - 1), trigger, killerPos)
  }

  /** The first r rows of the row-major scan for units whose passives fire. */
  function PassiveScan(e: Engine, trigger: string, killerPos: Option<Pos>, r: nat): (res: Triggered)
    requires IsGrid(e.board) && r <= BOARD_HEIGHT
    ensures SameShape(e.board, res.engine.board) && IsGrid(res.engine.board)
  {
    if r == 0 then Triggered(e, [])
    else RowScan(PassiveScan(e, trigger, killerPos, r - 1), r - 1, BOARD_WIDTH, trigger, killerPos)
  }

  /** The inner loop of `triggerPassiveAbilities`: one unit's abilities, in order. */
  method RunUnitPassives(g: Game, owner: PlayerId, abilities: seq<Ability>, p: Pos, trigger: string, killerPos: Option<Pos>)
    returns (effects: seq<PassiveEffect>)
    requires g.Valid() && InBounds(p)
    modifies g`board, g`activeBuffs
    ensures g.Valid()
    ensures Triggered(Engine(g.board, g.activeBuffs), effects) ==
      UnitPassives(old(Engine(g.board, g.activeBuffs)), owner, abilities, |abilities|, p, trigger, killerPos)
  {
    ghost var e0 := Engine(g.board, g.activeBuffs);
    effects := [];
    var n := 0;
    while n < |abilities|
      invariant 0 <= n <= |abilities|
      invariant g.Valid()
      invariant Triggered(Engine(g.board, g.activeBuffs), effects) ==
        UnitPassives(e0, owner, abilities, n, p, trigger, killerPos)
    {
      effects := RunPassive(g, owner, abilities[n], p, trigger, killerPos, effects);
      n := n + 1;
    }
  }

  /** One pass of that loop: the ability fires, or is skipped. */
  method RunPassive(g: Game, owner: PlayerId, ability: Ability, p: Pos, trigger: string, killerPos: Option<Pos>, effects: seq<PassiveEffect>)
    returns (effects': seq<PassiveEffect>)
    requires g.Valid() && InBounds(p)
    modifies g`board, g`activeBuffs
    ensures g.Valid()
    ensures Triggered(Engine(g.board, g.activeBuffs), effects') ==
      PassiveStep(Triggered(old(Engine(g.board, g.activeBuffs)), effects), owner, ability, p, trigger, killerPos)
  {
    effects' := effects;
    if Fires(ability, trigger) && !HeldBack(trigger, killerPos, p) {
      var targets := GetTargets(g.board, owner, ability.target, Some(p));
      var found := ApplyToAll(g, owner, ability, targets);
      effects' := effects + Tagged(found, ability.name, trigger);
    }
  }

  /** The body of `triggerPassiveAbilities`' inner loop, at cell p. */
  method RunCell(g: Game, p: Pos, trigger: string, killerPos: Option<Pos>, effects: seq<PassiveEffect>)
    returns (effects': seq<PassiveEffect>)
    requires g.Valid() && InBounds(p)
    modifies g`board, g`activeBuffs
    ensures g.Valid()
    ensures Triggered(Engine(g.board, g.activeBuffs), effects') ==
      ScanStep(Triggered(old(Engine(g.board, g.activeBuffs)), effects), p, trigger, killerPos)
  {
    effects' := effects;
    var unit := At(g.board, p);
    if unit.Unit? {
      var found := RunUnitPassives(g, unit.owner, unit.abilities, p, trigger, killerPos);
      effects' := effects + found;
    }
  }

  /** The inner loop of `triggerPassiveAbilities`: the cells of row r, left to right. */
  method ScanRow(g: Game, r: int, trigger: string, killerPos: Option<Pos>, effects: seq<PassiveEffect>)
    returns (effects': seq<PassiveEffect>)
    requires g.Valid() && 0 <= r < BOARD_HEIGHT
    modifies g`board, g`activeBuffs
    ensures g.Valid()
    ensures Triggered(Engine(g.board, g.activeBuffs), effects') ==
      RowScan(Triggered(old(Engine(g.board, g.activeBuffs)), effects), r, BOARD_WIDTH, trigger, killerPos)
  {
    ghost var start := Triggered(Engine(g.board, g.activeBuffs), effects);
    effects' := effects;
    var c := 0;
    while c < BOARD_WIDTH
      invariant 0 <= c <= BOARD_WIDTH
      invariant g.Valid()
      invariant Triggered(Engine(g.board, g.activeBuffs), effects') == RowScan(start, r, c, trigger, killerPos)
    {
      effects' := RunCell(g, Pos(r, c), trigger, killerPos, effects');
      c := c + 1;
    }
  }

  /** `triggerPassiveAbilities`: the scan of the whole rectangle. */
  method TriggerPassiveAbilities(g: Game, trigger: string, killerPos: Option<Pos>) returns (effects: seq<PassiveEffect>)
    requires g.Valid()
    modifies g`board, g`activeBuffs
    ensures g.Valid()
    ensures Triggered(Engine(g.board, g.activeBuffs), effects) ==
      PassiveScan(old(Engine(g.board, g.activeBuffs)), trigger, killerPos, BOARD_HEIGHT)
  {
    ghost var e0 := Engine(g.board, g.activeBuffs);
    effects := [];
    var r := 0;
    while r < BOARD_HEIGHT
      invariant 0 <= r <= BOARD_HEIGHT
      invariant g.Valid()
      invariant Triggered(Engine(g.board, g.activeBuffs), effects) == PassiveScan(e0, trigger, killerPos, r)
    {
      effects := ScanRow(g, r, trigger, killerPos, effects);
      r := r + 1;
    }
  }

  /** A held-back unit's passives do nothing. */
  lemma {:induction false} HeldBackUnitPassives(e: Engine, owner: PlayerId, abilities: seq<Ability>, n: nat, p: Pos,
                                                 trigger: string, killerPos: Option<Pos>)
    requires IsGrid(e.board) && InBounds(p) && n <= |abilities| && HeldBack(trigger, killerPos, p)
    ensures UnitPassives(e, owner, abilities, n, p, trigger, killerPos) == Triggered(e, [])
  {
    if n > 0 {
      HeldBackUnitPassives(e, owner, abilities, n - 1, p, trigger, killerPos);
    }
  }

  /** The killer's passives, run on engine e. */
  function KillerPassives(e: Engine, killerPos: Pos): Triggered
    requires IsGrid(e.board)
  {
    if InBounds(killerPos) && At(e.board, killerPos).Unit? then
      var x := At(e.board, killerPos);
      UnitPassives(e, x.owner, x.abilities, |x.abilities|, killerPos, ON_KILL, Some(killerPos))
    else Triggered(e, [])
  }

  /** A held-back cell's step changes nothing. */
  lemma ScanStepHeld(prev: Triggered, p: Pos, killerPos: Pos)
    requires IsGrid(prev.engine.board) && InBounds(p) && p != killerPos
    ensures ScanStep(prev, p, ON_KILL, Some(killerPos)) == prev
  {
    var x := At(prev.engine.board, p);
    if x.Unit? {
      HeldBackUnitPassives(prev.engine, x.owner, x.abilities, |x.abilities|, p, ON_KILL, Some(killerPos));
      assert prev.effects + [] == prev.effects;
    }
  }

  /** A stretch of row r that does not hold the killer leaves an onKill scan where it was. */
  lemma {:induction false} RowHeld(prev: Triggered, r: int, c: nat, killerPos: Pos)
    requires IsGrid(prev.engine.board) && 0 <= r < BOARD_HEIGHT && c <= BOARD_WIDTH
    requires !(killerPos.r == r && 0 <= killerPos.c < c)
    ensures RowScan(prev, r, c, ON_KILL, Some(killerPos)) == prev
  {
    if c > 0 {
      RowHeld(prev, r, c - 1, killerPos);
      ScanStepHeld(prev, Pos(r, c - 1), killerPos);
    }
  }

  /** Once a row scan from a quiet engine has passed the killer, it has done exactly what the killer does. */
  lemma {:induction false} KillerRow(e: Engine, r: int, c: nat, killerPos: Pos)
    requires IsGrid(e.board) && 0 <= r < BOARD_HEIGHT && c <= BOARD_WIDTH
    requires killerPos.r == r && 0 <= killerPos.c < c
    ensures RowScan(Triggered(e, []), r, c, ON_KILL, Some(killerPos)) == KillerPassives(e, killerPos)
  {
    var prev := RowScan(Triggered(e, []), r, c - 1, ON_KILL, Some(killerPos));
    if killerPos.c == c - 1 {
      RowHeld(Triggered(e, []), r, c - 1, killerPos);
      assert [] + KillerPassives(e, killerPos).effects == KillerPassives(e, killerPos).effects;
    } else {
      KillerRow(e, r, c - 1, killerPos);
      ScanStepHeld(prev, Pos(r, c - 1), killerPos);
    }
  }

  /** The first r rows of an onKill scan with a killer position. */
  function KillScan(e: Engine, killerPos: Pos, r: nat): Triggered
    requires IsGrid(e.board) && r <= BOARD_HEIGHT
  {
    PassiveScan(e, ON_KILL, Some(killerPos), r)
  }

  /** A row that does not hold the killer adds nothing to an onKill scan. */
  lemma RowPassed(e: Engine, killerPos: Pos, r: nat)
    requires IsGrid(e.board) && 0 < r <= BOARD_HEIGHT && !(killerPos.r == r - 1 && 0 <= killerPos.c < BOARD_WIDTH)
    ensures KillScan(e, killerPos, r) == KillScan(e, killerPos, r - 1)
  {
    RowHeld(PassiveScan(e, ON_KILL, Some(killerPos), r - 1), r - 1, BOARD_WIDTH, killerPos);
  }

  /** Before the scan reaches the killer's row, an onKill scan does nothing. */
  lemma {:induction false} OnKillBefore(e: Engine, killerPos: Pos, r: nat)
    requires IsGrid(e.board) && r <= BOARD_HEIGHT && !(InBounds(killerPos) && killerPos.r < r)
    ensures KillScan(e, killerPos, r) == Triggered(e, [])
  {
    if r > 0 {
      OnKillBefore(e, killerPos, r - 1);
      RowPassed(e, killerPos, r);
    }
  }

  /** The scan that ends with the killer's row has done what the killer does. */
  lemma OnKillRow(e: Engine, killerPos: Pos)
    requires IsGrid(e.board) && InBounds(killerPos)
    ensures KillScan(e, killerPos, killerPos.r + 1) == KillerPassives(e, killerPos)
  {
    OnKillBefore(e, killerPos, killerPos.r);
    KillerRow(e, killerPos.r, BOARD_WIDTH, killerPos);
  }

  /** Once the scan has passed the killer's row, it has done what the killer does. */
  lemma {:induction false} OnKillAfter(e: Engine, killerPos: Pos, r: nat)
    requires IsGrid(e.board) && r <= BOARD_HEIGHT && InBounds(killerPos) && killerPos.r < r
    ensures KillScan(e, killerPos, r) == KillerPassives(e, killerPos)
  {
    if killerPos.r == r - 1 {
      OnKillRow(e, killerPos);
    } else {
      OnKillAfter(e, killerPos, r - 1);
      RowPassed(e, killerPos, r);
    }
  }

  /**
   * On an onKill event with a killer position only the killer's passives fire:
   * the whole scan does exactly what the killer's own passives do, and nothing
   * at all when no unit stands on the killer's cell.
   */
  lemma OnKillOnlyKiller(e: Engine, killerPos: Pos)
    requires IsGrid(e.board)
    ensures PassiveScan(e, ON_KILL, Some(killerPos), BOARD_HEIGHT) == KillerPassives(e, killerPos)
  {
    if InBounds(killerPos) {
      OnKillAfter(e, killerPos, BOARD_HEIGHT);
    } else {
      OnKillBefore(e, killerPos, BOARD_HEIGHT);
    }
  }

  // ------------------------------------------------------------ the ledger tick

  /**
   * The `forEach` of `updateBuffDurations`: every counted entry is ticked, and each
   * one that reaches 0 or below is reversed on the current occupant of its cell
   * and has its index recorded.
   */
  method TickLedger(b0: Grid, d0: seq<LedgerEntry>) returns (board: Grid, buffs: seq<LedgerEntry>, expiredBuffs: seq<nat>)
    requires LedgerOnGrid(b0, d0)
    ensures buffs == Ticked(d0)
    ensures expiredBuffs == ExpiredIndices(Ticked(d0))
    ensures board == RevertExpired(b0, Ticked(d0))
  {
    board := b0;
    buffs := d0;
    ghost var d := Ticked(d0);
    expiredBuffs := [];
    var i := 0;
    while i < |buffs|
      invariant 0 <= i <= |d| == |buffs| == |d0|
      invariant buffs[..i] == d[..i] && buffs[i..] == d0[i..]
      invariant expiredBuffs == ExpiredIndices(d[..i])
      invariant board == RevertExpired(b0, d[..i])
    {
      TickStep(b0, d0, i);
      assert buffs[i + 1..] == d0[i + 1..] by { assert buffs[i + 1..] == buffs[i..][1..]; }
      var buff := buffs[i];
      assert buff == d0[i] by { assert buffs[i..][0] == d0[i..][0]; }
      if buff.turnsRemaining.Some? {
        buff := buff.(turnsRemaining := Some(buff.turnsRemaining.value - 1));
        buffs := buffs[i := buff];
        if buff.turnsRemaining.value <= 0 {
          var target := At(board, buff.targetPos);
          if !target.Empty? {
            board := Put(board, buff.targetPos, Reverted(target, buff));
          }
          expiredBuffs := expiredBuffs + [i];
        }
      }
      assert buffs[..i + 1] == buffs[..i] + [buffs[i]] && buffs[i] == d[i];
      i := i + 1;
    }
    assert d[..|d|] == d && buffs[..|d|] == buffs;
  }

  /** One step of the ticking loop: entry i of the ticked ledger extends the indices and the reverts. */
  lemma TickStep(b0: Grid, d0: seq<LedgerEntry>, i: nat)
    requires LedgerOnGrid(b0, d0) && i < |d0|
    ensures Ticked(d0)[..i + 1] == Ticked(d0)[..i] + [Ticked(d0)[i]]
    ensures ExpiredIndices(Ticked(d0)[..i + 1]) ==
      ExpiredIndices(Ticked(d0)[..i]) + if Expired(Ticked(d0)[i]) then [i] else []
    ensures OnGrid(RevertExpired(b0, Ticked(d0)[..i]), d0[i].targetPos)
    ensures RevertExpired(b0, Ticked(d0)[..i + 1]) == RevertedAt(RevertExpired(b0, Ticked(d0)[..i]), Ticked(d0)[i])
  {
    var d := Ticked(d0);
    assert d[..i + 1] == d[..i] + [d[i]];
    assert (d[..i + 1])[..i] == d[..i];
    assert OnGrid(b0, d0[i].targetPos);
    SameShapeOnGrid(b0, RevertExpired(b0, d[..i]), d0[i].targetPos);
  }

  /** The `expiredBuffs.reverse().forEach(i => activeBuffs.splice(i, 1))` of `updateBuffDurations`. */
  method SpliceExpired(ticked: seq<LedgerEntry>, expiredBuffs: seq<nat>) returns (buffs: seq<LedgerEntry>)
    ensures buffs == RemoveRev(ticked, expiredBuffs)
  {
    buffs := ticked;
    assert expiredBuffs[..|expiredBuffs|] == expiredBuffs;
    var j := |expiredBuffs|;
    while j > 0
      invariant 0 <= j <= |expiredBuffs|
      invariant RemoveRev(buffs, expiredBuffs[..j]) == RemoveRev(ticked, expiredBuffs)
    {
      var index := expiredBuffs[j - 1];
      assert expiredBuffs[..j][..j - 1] == expiredBuffs[..j - 1];
      if index < |buffs| {
        buffs := RemoveAt(buffs, index);
      }
      j := j - 1;
    }
  }

  /**
   * `updateBuffDurations`: every counted entry is ticked; each one that reaches 0
   * or below is reversed on the current occupant of its cell and then spliced out,
   * back to front, so the surviving entries keep their order.
   */
  method UpdateBuffDurations(g: Game)
    requires g.Valid()
    modifies g`board, g`activeBuffs
    ensures g.Valid()
    ensures g.activeBuffs == Tick(old(g.activeBuffs))
    ensures g.board == RevertExpired(old(g.board), Ticked(old(g.activeBuffs)))
  {
    ghost var b0, d0 := g.board, g.activeBuffs;
    var board, ticked, expiredBuffs := TickLedger(g.board, g.activeBuffs);
    var buffs := SpliceExpired(ticked, expiredBuffs);
    ExpiredRemoval(Ticked(d0));
    LedgerStaysOnGrid(b0, board, d0);
    g.board := board;
    g.activeBuffs := buffs;
  }
}
