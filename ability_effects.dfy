/**
 * What an ability does to one target and to a list of targets, and how the
 * buff/debuff ledger is ticked down, stated as functions over the board and the
 * ledger. The engine's methods are proved against these.
 */
module AbilityEffects {
  import opened Basics
  import opened GameConstants
  import opened Board

  /** One entry of an effect report. */
  datatype EffectItem =
    | DamageDealt(amount: int)
    | Killed
    | HealApplied(healed: Num)
    | BuffApplied(change: StatChange)
    | DebuffApplied(change: StatChange)
    | MoveFlagReset

  /** The report of what an ability did to the occupant of one cell. */
  datatype TargetEffect = TargetEffect(targetPos: Pos, items: seq<EffectItem>)

  /** The board and the ledger, the two things an ability changes. */
  datatype Engine = Engine(board: Grid, ledger: seq<LedgerEntry>)

  /** The result of applying an ability to one target. */
  datatype Applied = Applied(engine: Engine, effect: Option<TargetEffect>)

  /** The result of applying an ability to a list of targets. */
  datatype Resolved = Resolved(engine: Engine, effects: seq<TargetEffect>)

  // ------------------------------------------------------------ one target

  /**
   * The damage an ability deals to x: its base damage, plus the structure bonus
   * against a tower, less the target's defense (never below 0) unless the ability
   * ignores defense or the defense reads as 0.
   */
  function DealtDamage(a: Ability, x: Cell): int
    requires !x.Empty?
  {
    var base := a.damage + (if x.Tower? && a.structureBonus.Some? then a.structureBonus.value else 0);
    if !a.ignoresDefense && x.DefenseOrZero() != 0 then Max(0, base - x.DefenseOrZero()) else base
  }

  /** `Math.min(heal, maxHp - hp)`; a tower has no maxHp, so the amount is NaN. */
  function HealAmount(x: Cell, heal: int): Num
    requires !x.Empty?
  {
    if x.Unit? then Int(Min(heal, x.maxHp - x.hp)) else NaN
  }

  /** `hp += healAmount`. */
  function Healed(x: Cell, heal: int): (y: Cell)
    requires !x.Empty?
    ensures Reshaped(x, y)
  {
    if x.Unit? then x.(hp := x.hp + Min(heal, x.maxHp - x.hp)) else Tower(x.owner, NaN)
  }

  /**
   * A buff adds its deltas to a unit. A tower has no attack, defense or speed; the
   * NaN the addition would leave there reads like the missing field, so a tower is
   * left as it is.
   */
  function Buffed(x: Cell, c: StatChange): (y: Cell)
    ensures !x.Empty? ==> Reshaped(x, y)
  {
    if x.Unit? then x.(attack := x.attack + c.attack, defense := x.defense + c.defense, speed := x.speed + c.speed)
    else x
  }

  /** A debuff subtracts its deltas from a unit (a tower is left as it is). */
  function Debuffed(x: Cell, c: StatChange): (y: Cell)
    ensures !x.Empty? ==> Reshaped(x, y)
  {
    if x.Unit? then x.(attack := x.attack - c.attack, defense := x.defense - c.defense, speed := x.speed - c.speed)
    else x
  }

  /** `hasMoved = false` (a tower gains a flag that reads like the missing one). */
  function MoveReset(x: Cell): (y: Cell)
    ensures !x.Empty? ==> Reshaped(x, y)
  {
    if x.Unit? then x.(hasMoved := false) else x
  }

  /** The ledger entry a buff or debuff with a duration leaves behind. */
  function LedgerRecord(pos: Pos, name: string, kind: LedgerKind, c: StatChange): LedgerEntry {
    LedgerEntry(pos, name, kind, c.attack, c.defense, c.speed, c.durationTurns, c.durationTurns)
  }

  /** The ledger after a buff or debuff: one entry more exactly when it has a duration. */
  function Recorded(ledger: seq<LedgerEntry>, pos: Pos, name: string, kind: LedgerKind, c: StatChange): (l: seq<LedgerEntry>)
  {
    if c.durationTurns.Some? then ledger + [LedgerRecord(pos, name, kind, c)] else ledger
  }

  /** The effect items, in the order the effects are applied. */
  function EffectItems(a: Ability, dealt: int, killed: bool, healed: Num): seq<EffectItem> {
    (if a.damage != 0 then [DamageDealt(dealt)] else []) + (if killed then [Killed] else [])
    + LaterItems(a, healed)
  }

  /** The effect items of the steps after damage. */
  function LaterItems(a: Ability, healed: Num): seq<EffectItem> {
    (if a.heal != 0 then [HealApplied(healed)] else [])
    + (if a.buff.Some? then [BuffApplied(a.buff.value)] else [])
    + (if a.debuff.Some? then [DebuffApplied(a.debuff.value)] else [])
    + (if a.allowAttackAfterFullMove then [MoveFlagReset] else [])
  }

  /** Is a damaging ability held back from a target of the caster's own side? */
  predicate FriendlyFireBlocked(a: Ability, x: Cell, caster: PlayerId)
    requires !x.Empty?
  {
    !a.friendlyFire && x.owner == caster && a.damage != 0
  }

  /**
   * y is what an ability can leave where x stood: nothing, or the same tower, or the
   * same unit with only hp, attack, defense, speed and the move flag changed.
   */
  predicate Persists(x: Cell, y: Cell) {
    y.Empty? || Reshaped(x, y)
  }

  /** y is the same tower as x, or the same unit with only hp, attack, defense, speed and the move flag changed. */
  predicate Reshaped(x: Cell, y: Cell) {
    || (x.Tower? && y.Tower? && y.owner == x.owner)
    || (x.Unit? && y.Unit? &&
        y == x.(hp := y.hp, attack := y.attack, defense := y.defense, speed := y.speed, hasMoved := y.hasMoved))
  }

  lemma ReshapedRefl(x: Cell)
    requires !x.Empty?
    ensures Reshaped(x, x)
  {
  }

  lemma ReshapedTrans(x: Cell, y: Cell, z: Cell)
    requires Reshaped(x, y) && Reshaped(y, z)
    ensures Reshaped(x, z)
  {
  }

  /** The cell after the damage step: hp reduced by the dealt damage when the ability deals any. */
  function AfterDamage(a: Ability, x: Cell): (t: Cell)
    requires !x.Empty?
    ensures !t.Empty? && Persists(x, t)
  {
    if a.damage != 0 then Wounded(x, DealtDamage(a, x)) else x
  }

  /**
   * One ability applied to the occupant of pos: damage (the occupant is removed
   * when its hp drops to 0 or below), heal, buff, debuff and the move-flag reset, in
   * that order. The later steps still run on a removed occupant, so their ledger
   * entries are still recorded. An ability that reports nothing yields no effect.
   */
  function EffectOn(e: Engine, caster: PlayerId, a: Ability, pos: Pos): (r: Applied)
    requires OnGrid(e.board, pos) && !At(e.board, pos).Empty?
    ensures SameShape(e.board, r.engine.board) && OnGrid(r.engine.board, pos)
  {
    var x := At(e.board, pos);
    if FriendlyFireBlocked(a, x, caster) then Applied(e, None)
    else
      var t1 := AfterDamage(a, x);
      var killed := a.damage != 0 && Fallen(t1);
      var items := EffectItems(a, DealtDamage(a, x), killed, HealAmount(t1, a.heal));
      Applied(
        Engine(Put(e.board, pos, if killed then Empty else LaterSteps(a, t1)), LedgerAfter(e.ledger, a, pos)),
        if |items| == 0 then None else Some(TargetEffect(pos, items)))
  }

  /**
   * What one application changes: only the target cell, whose occupant stays of the
   * same kind or is removed; the ledger only grows, by entries for pos; and a
   * reported effect is about pos and lists at least one item.
   */
  lemma EffectOnFacts(e: Engine, caster: PlayerId, a: Ability, pos: Pos)
    requires OnGrid(e.board, pos) && !At(e.board, pos).Empty?
    ensures var r := EffectOn(e, caster, a, pos);
      && (forall q :: OnGrid(e.board, q) && q != pos ==> At(r.engine.board, q) == At(e.board, q))
      && Persists(At(e.board, pos), At(r.engine.board, pos))
      && e.ledger <= r.engine.ledger
      && (forall i :: |e.ledger| <= i < |r.engine.ledger| ==> r.engine.ledger[i].targetPos == pos)
      && (r.effect.Some? ==> r.effect.value.targetPos == pos && |r.effect.value.items| > 0)
  {
  }

  /** The steps after damage, on the (possibly removed) occupant: heal, buff, debuff, move-flag reset. */
  function LaterSteps(a: Ability, t1: Cell): (y: Cell)
    requires !t1.Empty?
    ensures Reshaped(t1, y)
  {
    var t2 := if a.heal != 0 then Healed(t1, a.heal) else t1;
    ReshapedRefl(t1);
    var t3 := if a.buff.Some? then Buffed(t2, a.buff.value) else t2;
    ReshapedRefl(t2);
    ReshapedTrans(t1, t2, t3);
    var t4 := if a.debuff.Some? then Debuffed(t3, a.debuff.value) else t3;
    ReshapedRefl(t3);
    ReshapedTrans(t1, t3, t4);
    var y := if a.allowAttackAfterFullMove then MoveReset(t4) else t4;
    ReshapedRefl(t4);
    ReshapedTrans(t1, t4, y);
    y
  }

  /** The ledger after the buff and debuff steps: the new entries, all for pos, follow the old ones. */
  function LedgerAfter(ledger: seq<LedgerEntry>, a: Ability, pos: Pos): (l: seq<LedgerEntry>)
    ensures ledger <= l
    ensures forall i :: |ledger| <= i < |l| ==> l[i].targetPos == pos
  {
    var l1 := if a.buff.Some? then Recorded(ledger, pos, a.name, BuffKind, a.buff.value) else ledger;
    if a.debuff.Some? then Recorded(l1, pos, a.name, DebuffKind, a.debuff.value) else l1
  }

  /** A damaging ability without friendly fire leaves a target of the caster's own side, and everything else, untouched. */
  lemma FriendlyFireRule(e: Engine, caster: PlayerId, a: Ability, pos: Pos)
    requires OnGrid(e.board, pos) && !At(e.board, pos).Empty?
    requires !a.friendlyFire && a.damage != 0 && At(e.board, pos).owner == caster
    ensures EffectOn(e, caster, a, pos) == Applied(e, None)
  {
  }

  /**
   * The damage rule: the dealt damage is base plus tower bonus, less defense but
   * never below 0, unless defense is ignored or reads as 0; hp drops by exactly that amount; the report
   * opens with it; and the cell is emptied exactly when the resulting hp is 0 or less.
   */
  lemma DamageRule(e: Engine, caster: PlayerId, a: Ability, pos: Pos)
    requires OnGrid(e.board, pos) && !At(e.board, pos).Empty?
    requires !FriendlyFireBlocked(a, At(e.board, pos), caster) && a.damage != 0
    ensures var x := At(e.board, pos);
      var base := a.damage + (if x.Tower? && a.structureBonus.Some? then a.structureBonus.value else 0);
      && (a.ignoresDefense || x.DefenseOrZero() == 0 ==> DealtDamage(a, x) == base)
      && (!a.ignoresDefense && x.DefenseOrZero() != 0 ==>
            DealtDamage(a, x) == Max(0, base - x.DefenseOrZero()))
      && (x.Unit? ==> AfterDamage(a, x).hp == x.hp - DealtDamage(a, x))
      && (x.Tower? && x.towerHp.Int? ==> AfterDamage(a, x).towerHp == Int(x.towerHp.value - DealtDamage(a, x)))
    ensures var x := At(e.board, pos); var r := EffectOn(e, caster, a, pos);
      && r.effect.Some? && r.effect.value.items[0] == DamageDealt(DealtDamage(a, x))
      && (At(r.engine.board, pos).Empty? <==> Fallen(AfterDamage(a, x)))
      && (|r.effect.value.items| > 1 && r.effect.value.items[1] == Killed <==> Fallen(AfterDamage(a, x)))
  {
  }

  /**
   * Healing a unit sets hp to min(hp + heal, maxHp), never beyond maxHp, and reports
   * the change; a non-negative heal of a unit at or below maxHp never lowers hp.
   */
  lemma HealRule(x: Cell, heal: int)
    requires x.Unit?
    ensures Healed(x, heal).hp == Min(x.hp + heal, x.maxHp)
    ensures Healed(x, heal).hp <= x.maxHp
    ensures heal >= 0 && x.hp <= x.maxHp ==> x.hp <= Healed(x, heal).hp
    ensures HealAmount(x, heal) == Int(Healed(x, heal).hp - x.hp)
  {
  }

  /** Healing a tower leaves its hp NaN, and no later damage can then bring it down. */
  lemma HealedTowerStands(x: Cell, heal: int, d: int)
    requires x.Tower?
    ensures Healed(x, heal).towerHp == NaN
    ensures !Fallen(Wounded(Healed(x, heal), d))
  {
  }

  /** Reversing a ledger entry undoes exactly the buff or debuff that recorded it. */
  function Reverted(x: Cell, entry: LedgerEntry): Cell {
    if !x.Unit? then x
    else if entry.kind == BuffKind then
      x.(attack := x.attack - entry.attack, defense := x.defense - entry.defense, speed := x.speed - entry.speed)
    else
      x.(attack := x.attack + entry.attack, defense := x.defense + entry.defense, speed := x.speed + entry.speed)
  }

  /** The ledger round trip: a recorded buff or debuff, once reversed, restores the unit's stats. */
  lemma LedgerRoundTrip(x: Cell, c: StatChange, pos: Pos, name: string)
    ensures Reverted(Buffed(x, c), LedgerRecord(pos, name, BuffKind, c)) == x
    ensures Reverted(Debuffed(x, c), LedgerRecord(pos, name, DebuffKind, c)) == x
    ensures x.Unit? ==> Buffed(x, c).attack == x.attack + c.attack && Debuffed(x, c).attack == x.attack - c.attack
    ensures x.Unit? ==> Buffed(x, c).defense == x.defense + c.defense && Debuffed(x, c).defense == x.defense - c.defense
    ensures x.Unit? ==> Buffed(x, c).speed == x.speed + c.speed && Debuffed(x, c).speed == x.speed - c.speed
  {
  }

  /**
   * A buff or debuff with a duration appends exactly one entry, for its own cell and
   * counting down from its duration, and reversing that entry undoes it.
   */
  lemma RecordedUndoes(ledger: seq<LedgerEntry>, x: Cell, pos: Pos, name: string, kind: LedgerKind, c: StatChange)
    requires c.durationTurns.Some?
    ensures var l := Recorded(ledger, pos, name, kind, c);
      && |l| == |ledger| + 1 && l[..|ledger|] == ledger
      && l[|ledger|].targetPos == pos && l[|ledger|].turnsRemaining == c.durationTurns
      && (kind == BuffKind ==> Reverted(Buffed(x, c), l[|ledger|]) == x)
      && (kind == DebuffKind ==> Reverted(Debuffed(x, c), l[|ledger|]) == x)
  {
    LedgerRoundTrip(x, c, pos, name);
  }

  // ------------------------------------------------------------ a list of targets

  /**
   * The ability applied to each listed cell in turn; a cell off the grid or empty
   * by the time its turn comes is passed over.
   */
  function ApplyAll(e: Engine, caster: PlayerId, a: Ability, ps: seq<Pos>): (r: Resolved)
    ensures SameShape(e.board, r.engine.board)
  {
    if |ps| == 0 then Resolved(e, [])
    else
      var prev := ApplyAll(e, caster, a, ps[..|ps| - 1]);
      var p := ps[|ps| - 1];
      if OnGrid(prev.engine.board, p) && !At(prev.engine.board, p).Empty? then
        var one := EffectOn(prev.engine, caster, a, p);
        Resolved(one.engine, prev.effects + (if one.effect.Some? then [one.effect.value] else []))
      else prev
  }

  /**
   * Applying an ability to a list of cells touches only those cells, never places a
   * new occupant, only appends to the ledger, and reports and records only listed cells.
   */
  lemma ApplyAllFacts(e: Engine, caster: PlayerId, a: Ability, ps: seq<Pos>)
    ensures var r := ApplyAll(e, caster, a, ps);
      && (forall q :: OnGrid(e.board, q) && q !in ps ==> At(r.engine.board, q) == At(e.board, q))
      && (forall q :: OnGrid(e.board, q) ==> Persists(At(e.board, q), At(r.engine.board, q)))
      && e.ledger <= r.engine.ledger
      && (forall i :: |e.ledger| <= i < |r.engine.ledger| ==> r.engine.ledger[i].targetPos in ps)
      && (forall i :: 0 <= i < |r.effects| ==> r.effects[i].targetPos in ps)
  {
    ApplyAllBoard(e, caster, a, ps);
    ApplyAllReports(e, caster, a, ps);
  }

  /** The board half of ApplyAllFacts. */
  lemma {:induction false} ApplyAllBoard(e: Engine, caster: PlayerId, a: Ability, ps: seq<Pos>)
    ensures var r := ApplyAll(e, caster, a, ps);
      && (forall q :: OnGrid(e.board, q) && q !in ps ==> At(r.engine.board, q) == At(e.board, q))
      && (forall q :: OnGrid(e.board, q) ==> Persists(At(e.board, q), At(r.engine.board, q)))
  {
    if |ps| > 0 {
      var prev := ApplyAll(e, caster, a, ps[..|ps| - 1]);
      ApplyAllBoard(e, caster, a, ps[..|ps| - 1]);
      var p := ps[|ps| - 1];
      assert forall q :: q in ps[..|ps| - 1] ==> q in ps;
      if OnGrid(prev.engine.board, p) && !At(prev.engine.board, p).Empty? {
        var one := EffectOn(prev.engine, caster, a, p);
        EffectOnFacts(prev.engine, caster, a, p);
        PersistsTrans(e, prev.engine, one.engine, p);
      }
    }
  }

  /** The ledger and report half of ApplyAllFacts. */
  lemma {:induction false} ApplyAllReports(e: Engine, caster: PlayerId, a: Ability, ps: seq<Pos>)
    ensures var r := ApplyAll(e, caster, a, ps);
      && e.ledger <= r.engine.ledger
      && (forall i :: |e.ledger| <= i < |r.engine.ledger| ==> r.engine.ledger[i].targetPos in ps)
      && (forall i :: 0 <= i < |r.effects| ==> r.effects[i].targetPos in ps)
  {
    if |ps| > 0 {
      var prev := ApplyAll(e, caster, a, ps[..|ps| - 1]);
      ApplyAllReports(e, caster, a, ps[..|ps| - 1]);
      var p := ps[|ps| - 1];
      assert forall q :: q in ps[..|ps| - 1] ==> q in ps;
      if OnGrid(prev.engine.board, p) && !At(prev.engine.board, p).Empty? {
        EffectOnFacts(prev.engine, caster, a, p);
      }
    }
  }

  /** Persistence composes: what one step leaves of what an earlier step left still persists. */
  lemma PersistsTrans(e: Engine, mid: Engine, last: Engine, p: Pos)
    requires SameShape(e.board, mid.board) && SameShape(mid.board, last.board)
    requires forall q :: OnGrid(e.board, q) ==> Persists(At(e.board, q), At(mid.board, q))
    requires forall q :: OnGrid(mid.board, q) && q != p ==> At(last.board, q) == At(mid.board, q)
    requires OnGrid(mid.board, p) ==> Persists(At(mid.board, p), At(last.board, p))
    ensures forall q :: OnGrid(e.board, q) ==> Persists(At(e.board, q), At(last.board, q))
  {
  }

  /** Abilities never place anything on an empty cell. */
  lemma ApplyAllNoSpawn(e: Engine, caster: PlayerId, a: Ability, ps: seq<Pos>, q: Pos)
    requires OnGrid(e.board, q) && At(e.board, q).Empty?
    ensures At(ApplyAll(e, caster, a, ps).engine.board, q).Empty?
  {
    ApplyAllFacts(e, caster, a, ps);
  }

  // ------------------------------------------------------------ the ledger tick

  /** One tick of an entry with a counter; an entry without one is left alone. */
  function Decremented(entry: LedgerEntry): LedgerEntry {
    if entry.turnsRemaining.Some? then entry.(turnsRemaining := Some(entry.turnsRemaining.value - 1)) else entry
  }

  /** A ticked entry whose counter reached 0 or below. */
  predicate Expired(entry: LedgerEntry) {
    entry.turnsRemaining.Some? && entry.turnsRemaining.value <= 0
  }

  /** The ledger with every entry ticked once. */
  function Ticked(ledger: seq<LedgerEntry>): (t: seq<LedgerEntry>)
    ensures |t| == |ledger|
  {
    seq(|ledger|, i requires 0 <= i < |ledger| => Decremented(ledger[i]))
  }

  /** The entries that have not expired, in their order. */
  function Keep(d: seq<LedgerEntry>): (k: seq<LedgerEntry>)
    ensures |k| <= |d|
  {
    if |d| == 0 then [] else Keep(d[..|d| - 1]) + (if Expired(d[|d| - 1]) then [] else [d[|d| - 1]])
  }

  /** Keep retains exactly the entries that have not expired. */
  lemma {:induction false} KeepMember(d: seq<LedgerEntry>, x: LedgerEntry)
    ensures x in Keep(d) <==> x in d && !Expired(x)
  {
    if |d| > 0 {
      var front, last := d[..|d| - 1], d[|d| - 1];
      KeepMember(front, x);
      assert d == front + [last];
      assert x in d <==> x in front || x == last;
    }
  }

  /**
   * Reversal of the expired entries of a ticked ledger, in ledger order, each on
   * whatever occupies its cell at that moment; an empty cell is passed over.
   */
  function RevertExpired(b: Grid, d: seq<LedgerEntry>): (b': Grid)
    ensures SameShape(b, b')
  {
    if |d| == 0 then b else RevertedAt(RevertExpired(b, d[..|d| - 1]), d[|d| - 1])
  }

  /** The board after one ticked entry: reversed on its cell's occupant when it expired. */
  function RevertedAt(b: Grid, entry: LedgerEntry): (b': Grid)
    ensures SameShape(b, b')
  {
    if Expired(entry) && OnGrid(b, entry.targetPos) && !At(b, entry.targetPos).Empty? then
      Put(b, entry.targetPos, Reverted(At(b, entry.targetPos), entry))
    else b
  }

  /** No cell is targeted by an expired entry of d. */
  predicate Untouched(d: seq<LedgerEntry>, q: Pos) {
    forall i :: 0 <= i < |d| && Expired(d[i]) ==> d[i].targetPos != q
  }

  /** y is x with at most a unit's attack, defense and speed changed. */
  predicate StatsOnly(x: Cell, y: Cell) {
    if x.Unit? then y.Unit? && y == x.(attack := y.attack, defense := y.defense, speed := y.speed)
    else y == x
  }

  /** The reversal changes only cells that an expired entry targets. */
  lemma {:induction false} RevertExpiredFrame(b: Grid, d: seq<LedgerEntry>, q: Pos)
    requires OnGrid(b, q) && Untouched(d, q)
    ensures At(RevertExpired(b, d), q) == At(b, q)
  {
    if |d| > 0 {
      var front := d[..|d| - 1];
      assert Untouched(front, q) by {
        forall i | 0 <= i < |front| && Expired(front[i])
          ensures front[i].targetPos != q
        {
          assert front[i] == d[i];
        }
      }
      RevertExpiredFrame(b, front, q);
    }
  }

  /**
   * The reversal keeps every occupant in place (and every empty cell empty), and
   * changes an occupant only in its attack, defense and speed.
   */
  lemma {:induction false} RevertExpiredStats(b: Grid, d: seq<LedgerEntry>, q: Pos)
    requires OnGrid(b, q)
    ensures StatsOnly(At(b, q), At(RevertExpired(b, d), q))
  {
    if |d| > 0 {
      var b1 := RevertExpired(b, d[..|d| - 1]);
      var entry := d[|d| - 1];
      RevertExpiredStats(b, d[..|d| - 1], q);
      assert OnGrid(b1, q);
      if Expired(entry) && OnGrid(b1, entry.targetPos) && !At(b1, entry.targetPos).Empty? && entry.targetPos == q {
        assert StatsOnly(At(b1, q), Reverted(At(b1, q), entry));
      }
    }
  }

  /** Ticking keeps every entry's cell, so a ledger on the grid stays on it, on a grid of the same shape. */
  lemma LedgerStaysOnGrid(b: Grid, b': Grid, ledger: seq<LedgerEntry>)
    requires LedgerOnGrid(b, ledger) && SameShape(b, b')
    ensures LedgerOnGrid(b', Tick(ledger))
  {
    var d := Ticked(ledger);
    forall i | 0 <= i < |Tick(ledger)|
      ensures OnGrid(b', Tick(ledger)[i].targetPos)
    {
      var x := Tick(ledger)[i];
      KeepMember(d, x);
      assert x in d;
      var k :| 0 <= k < |d| && d[k] == x;
      assert x.targetPos == ledger[k].targetPos;
      SameShapeOnGrid(b, b', x.targetPos);
    }
  }

  /** One `updateBuffDurations` on the ledger alone. */
  function Tick(ledger: seq<LedgerEntry>): seq<LedgerEntry> {
    Keep(Ticked(ledger))
  }

  /** n successive ticks. */
  function Ticks(ledger: seq<LedgerEntry>, n: nat): seq<LedgerEntry>
    decreases n
  {
    if n == 0 then ledger else Ticks(Tick(ledger), n - 1)
  }

  lemma {:induction false} KeepAppend(a: seq<LedgerEntry>, b: seq<LedgerEntry>)
    ensures Keep(a + b) == Keep(a) + Keep(b)
  {
    if |b| > 0 {
      assert (a + b)[..|a + b| - 1] == a + b[..|b| - 1];
      KeepAppend(a, b[..|b| - 1]);
    } else {
      assert a + b == a;
    }
  }

  /** The tick treats entries independently: a ledger ticks as its parts do, in order. */
  lemma TickAppend(a: seq<LedgerEntry>, b: seq<LedgerEntry>)
    ensures Tick(a + b) == Tick(a) + Tick(b)
  {
    assert Ticked(a + b) == Ticked(a) + Ticked(b);
    KeepAppend(Ticked(a), Ticked(b));
  }

  /**
   * The lifetime of an entry recorded with durationTurns == n >= 1: it survives n - 1
   * ticks, its counter counting down, and the n-th tick removes it.
   */
  lemma {:induction false} EntryLifetime(entry: LedgerEntry, n: int, k: nat)
    requires entry.turnsRemaining == Some(n) && k <= n
    decreases k
    ensures k < n ==> Ticks([entry], k) == [entry.(turnsRemaining := Some(n - k))]
    ensures k == n && n >= 1 ==> Ticks([entry], k) == []
  {
    if k > 0 {
      var once := entry.(turnsRemaining := Some(n - 1));
      OneTick(entry);
      assert Ticks([entry], k) == Ticks(Tick([entry]), k - 1);
      if n - 1 > 0 {
        EntryLifetime(once, n - 1, k - 1);
        assert once.(turnsRemaining := Some(n - 1 - (k - 1))) == entry.(turnsRemaining := Some(n - k));
      } else {
        NothingTicks(k - 1);
      }
    }
  }

  /** One tick of a one-entry ledger. */
  lemma OneTick(entry: LedgerEntry)
    ensures Tick([entry]) == if Expired(Decremented(entry)) then [] else [Decremented(entry)]
  {
    assert Ticked([entry]) == [Decremented(entry)];
    assert Keep([Decremented(entry)]) == Keep([]) + (if Expired(Decremented(entry)) then [] else [Decremented(entry)]);
  }

  lemma {:induction false} NothingTicks(n: nat)
    ensures Ticks([], n) == []
  {
    if n > 0 {
      assert Tick([]) == [];
      NothingTicks(n - 1);
    }
  }

  // ------------------------------------------------ removal of expired entries by index

  /** The indices of the expired entries, ascending. */
  function ExpiredIndices(d: seq<LedgerEntry>): seq<nat> {
    if |d| == 0 then [] else ExpiredIndices(d[..|d| - 1]) + (if Expired(d[|d| - 1]) then [|d| - 1] else [])
  }

  predicate Ascending(idx: seq<nat>) {
    forall i, j :: 0 <= i < j < |idx| ==> idx[i] < idx[j]
  }

  /** The splices of `idx.reverse().forEach(i => s.splice(i, 1))`; an index past the end removes nothing. */
  function RemoveRev<T>(s: seq<T>, idx: seq<nat>): seq<T> {
    if |idx| == 0 then s
    else
      var i := idx[|idx| - 1];
      RemoveRev(if i < |s| then RemoveAt(s, i) else s, idx[..|idx| - 1])
  }

  lemma {:induction false} ExpiredIndicesFacts(d: seq<LedgerEntry>)
    ensures Ascending(ExpiredIndices(d))
    ensures forall i :: 0 <= i < |ExpiredIndices(d)| ==> ExpiredIndices(d)[i] < |d|
  {
    if |d| > 0 {
      ExpiredIndicesFacts(d[..|d| - 1]);
    }
  }

  lemma {:induction false} RemoveRevAppend<T>(s: seq<T>, x: T, idx: seq<nat>)
    requires Ascending(idx)
    requires forall i :: 0 <= i < |idx| ==> idx[i] < |s|
    ensures RemoveRev(s + [x], idx) == RemoveRev(s, idx) + [x]
  {
    if |idx| > 0 {
      var i := idx[|idx| - 1];
      assert RemoveAt(s + [x], i) == RemoveAt(s, i) + [x];
      RemoveRevAppend(RemoveAt(s, i), x, idx[..|idx| - 1]);
    }
  }

  /** An expired last entry is the first splice, and it removes exactly that entry. */
  lemma {:induction false} ExpiredLast(d: seq<LedgerEntry>)
    requires |d| > 0 && Expired(d[|d| - 1])
    ensures RemoveRev(d, ExpiredIndices(d)) == RemoveRev(d[..|d| - 1], ExpiredIndices(d[..|d| - 1]))
  {
    var front := d[..|d| - 1];
    var idx := ExpiredIndices(d);
    assert idx == ExpiredIndices(front) + [|d| - 1];
    assert idx[..|idx| - 1] == ExpiredIndices(front);
    assert RemoveAt(d, |d| - 1) == front;
  }

  /** A surviving last entry is left alone by the splices of the earlier indices. */
  lemma {:induction false} KeptLast(d: seq<LedgerEntry>)
    requires |d| > 0 && !Expired(d[|d| - 1])
    ensures RemoveRev(d, ExpiredIndices(d)) == RemoveRev(d[..|d| - 1], ExpiredIndices(d[..|d| - 1])) + [d[|d| - 1]]
  {
    var front := d[..|d| - 1];
    assert d == front + [d[|d| - 1]];
    assert ExpiredIndices(d) == ExpiredIndices(front);
    ExpiredIndicesFacts(front);
    RemoveRevAppend(front, d[|d| - 1], ExpiredIndices(front));
  }

  /** Splicing out the expired indices back to front leaves exactly the surviving entries, in order. */
  lemma {:induction false} ExpiredRemoval(d: seq<LedgerEntry>)
    ensures RemoveRev(d, ExpiredIndices(d)) == Keep(d)
  {
    if |d| > 0 {
      ExpiredRemoval(d[..|d| - 1]);
      if Expired(d[|d| - 1]) {
        ExpiredLast(d);
      } else {
        KeptLast(d);
      }
    }
  }
}
