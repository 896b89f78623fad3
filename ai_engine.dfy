/**
 * The heuristic planner for a computer-controlled player. It only reads the game:
 * it lists the possible attacks over the BOARD_HEIGHT x BOARD_WIDTH rectangle and
 * sorts them, picks the strongest affordable card for a summon, lists one-row
 * forward moves, and chooses attack, summon, move or end of turn in that order.
 */
module AiEngine {
  import opened Basics
  import opened GameConstants
  import opened Board
  import opened GameState

  /** An entry of the attack list: `{ from, to, damage, isKill, targetType }`. */
  datatype AttackOption = AttackOption(from: Pos, to: Pos, damage: int, isKill: bool, atTower: bool)

  /** The planner's answer. */
  datatype Plan =
    | AttackPlan(attack: AttackOption)
    | SummonPlan(cardIndex: nat, target: Pos)
    | MovePlan(from: Pos, to: Pos)
    | EndTurnPlan

  // ------------------------------------------------------------ attack candidates

  /** `unit && unit.owner === ai && !unit.hasAttacked`: a tower passes this test too. */
  predicate MayAttack(x: Cell, ai: PlayerId) {
    !x.Empty? && x.owner == ai && !x.Attacked()
  }

  /** `target && target.owner !== ai`. */
  predicate Hostile(x: Cell, ai: PlayerId) {
    !x.Empty? && x.owner != ai
  }

  /** `dist <= unit.range`; a tower has no range, and a comparison with a missing one is false. */
  predicate InRange(x: Cell, dist: int) {
    x.Unit? && dist <= x.range
  }

  /** The planner's damage estimate `Math.max(0, unit.attack - (target.defense || 0))`. */
  function Estimate(x: Cell, target: Cell): (d: int)
    requires x.Unit?
    ensures d >= 0 && d >= x.attack - target.DefenseOrZero()
    ensures d == 0 || d == x.attack - target.DefenseOrZero()
  {
    Max(0, x.attack - target.DefenseOrZero())
  }

  /** `target.hp <= damage`, false for a tower whose hp is NaN. */
  predicate HpAtMost(target: Cell, d: int) {
    match target
    case Empty => false
    case Unit(_, _, hp, _, _, _, _, _, _, _, _, _, _) => hp <= d
    case Tower(_, h) => h.Int? && h.value <= d
  }

  /** The list entry for the attacker at `from` and the target at `to`. */
  function OptionFor(b: Grid, from: Pos, to: Pos): AttackOption
    requires OnGrid(b, from) && OnGrid(b, to) && At(b, from).Unit?
  {
    var d := Estimate(At(b, from), At(b, to));
    AttackOption(from, to, d, HpAtMost(At(b, to), d), At(b, to).Tower?)
  }

  /** The targets in row tr, columns below tc, of the attacker at `from`. */
  function RowTargets(b: Grid, ai: PlayerId, from: Pos, tr: int, tc: nat): seq<AttackOption>
    requires IsGrid(b) && InBounds(from) && 0 <= tr < BOARD_HEIGHT && tc <= BOARD_WIDTH
  {
    if tc == 0 then []
    else
      var to := Pos(tr, tc - 1);
      RowTargets(b, ai, from, tr, tc - 1) +
        if Hostile(At(b, to), ai) && InRange(At(b, from), Manhattan(from, to)) then [OptionFor(b, from, to)] else []
  }

  /** The targets in rows below tr of the attacker at `from`. */
  function Targets(b: Grid, ai: PlayerId, from: Pos, tr: nat): seq<AttackOption>
    requires IsGrid(b) && InBounds(from) && tr <= BOARD_HEIGHT
  {
    if tr == 0 then [] else Targets(b, ai, from, tr - 1) + RowTargets(b, ai, from, tr - 1, BOARD_WIDTH)
  }

  /** The entries of the attackers in row r, columns below c. */
  function RowAttacks(b: Grid, ai: PlayerId, r: int, c: nat): seq<AttackOption>
    requires IsGrid(b) && 0 <= r < BOARD_HEIGHT && c <= BOARD_WIDTH
  {
    if c == 0 then []
    else
      var from := Pos(r, c - 1);
      RowAttacks(b, ai, r, c - 1) +
        if MayAttack(At(b, from), ai) then Targets(b, ai, from, BOARD_HEIGHT) else []
  }

  /** The unsorted attack list of the rows below r, in the order of the four nested loops. */
  function ScanAttacks(b: Grid, ai: PlayerId, r: nat): seq<AttackOption>
    requires IsGrid(b) && r <= BOARD_HEIGHT
  {
    if r == 0 then [] else ScanAttacks(b, ai, r - 1) + RowAttacks(b, ai, r - 1, BOARD_WIDTH)
  }

  /** An attack the planner may propose: an eligible attacker, a hostile target within range. */
  predicate Candidate(b: Grid, ai: PlayerId, a: AttackOption)
    requires IsGrid(b)
  {
    && InBounds(a.from) && InBounds(a.to)
    && MayAttack(At(b, a.from), ai)
    && Hostile(At(b, a.to), ai)
    && InRange(At(b, a.from), Manhattan(a.from, a.to))
    && a == OptionFor(b, a.from, a.to)
  }

  lemma {:induction false} RowTargetsMember(b: Grid, ai: PlayerId, from: Pos, tr: int, tc: nat, a: AttackOption)
    requires IsGrid(b) && InBounds(from) && 0 <= tr < BOARD_HEIGHT && tc <= BOARD_WIDTH
    ensures a in RowTargets(b, ai, from, tr, tc) <==>
      && a.from == from && a.to.r == tr && 0 <= a.to.c < tc
      && Hostile(At(b, a.to), ai) && InRange(At(b, from), Manhattan(from, a.to))
      && a == OptionFor(b, from, a.to)
  {
    if tc > 0 {
      RowTargetsMember(b, ai, from, tr, tc - 1, a);
      var to := Pos(tr, tc - 1);
      var front := RowTargets(b, ai, from, tr, tc - 1);
      var last := if Hostile(At(b, to), ai) && InRange(At(b, from), Manhattan(from, to)) then [OptionFor(b, from, to)] else [];
      assert RowTargets(b, ai, from, tr, tc) == front + last;
      assert a in front + last <==> a in front || a in last;
    }
  }

  /** One more target row adds exactly the hostile cells of that row within range. */
  lemma TargetsStep(b: Grid, ai: PlayerId, from: Pos, tr: nat, a: AttackOption)
    requires IsGrid(b) && InBounds(from) && 0 < tr <= BOARD_HEIGHT
    ensures a in Targets(b, ai, from, tr) <==>
      || a in Targets(b, ai, from, tr - 1)
      || (&& a.from == from && a.to.r == tr - 1 && 0 <= a.to.c < BOARD_WIDTH
          && Hostile(At(b, a.to), ai) && InRange(At(b, from), Manhattan(from, a.to))
          && a == OptionFor(b, from, a.to))
  {
    var front := Targets(b, ai, from, tr - 1);
    var last := RowTargets(b, ai, from, tr - 1, BOARD_WIDTH);
    assert Targets(b, ai, from, tr) == front + last;
    assert a in front + last <==> a in front || a in last;
    RowTargetsMember(b, ai, from, tr - 1, BOARD_WIDTH, a);
  }

  lemma {:induction false} TargetsMember(b: Grid, ai: PlayerId, from: Pos, tr: nat, a: AttackOption)
    requires IsGrid(b) && InBounds(from) && tr <= BOARD_HEIGHT
    ensures a in Targets(b, ai, from, tr) <==>
      && a.from == from && 0 <= a.to.r < tr && 0 <= a.to.c < BOARD_WIDTH
      && Hostile(At(b, a.to), ai) && InRange(At(b, from), Manhattan(from, a.to))
      && a == OptionFor(b, from, a.to)
  {
    if tr > 0 {
      TargetsStep(b, ai, from, tr, a);
      TargetsMember(b, ai, from, tr - 1, a);
    }
  }

  lemma {:induction false} RowAttacksMember(b: Grid, ai: PlayerId, r: int, c: nat, a: AttackOption)
    requires IsGrid(b) && 0 <= r < BOARD_HEIGHT && c <= BOARD_WIDTH
    ensures a in RowAttacks(b, ai, r, c) <==> a.from.r == r && 0 <= a.from.c < c && Candidate(b, ai, a)
  {
    if c > 0 {
      RowAttacksMember(b, ai, r, c - 1, a);
      var from := Pos(r, c - 1);
      TargetsMember(b, ai, from, BOARD_HEIGHT, a);
      var front := RowAttacks(b, ai, r, c - 1);
      var last := if MayAttack(At(b, from), ai) then Targets(b, ai, from, BOARD_HEIGHT) else [];
      assert RowAttacks(b, ai, r, c) == front + last;
      assert a in front + last <==> a in front || a in last;
    }
  }

  /** One more row of the scan adds exactly the candidates whose attacker stands in it. */
  lemma ScanAttacksStep(b: Grid, ai: PlayerId, r: nat, a: AttackOption)
    requires IsGrid(b) && 0 < r <= BOARD_HEIGHT
    ensures a in ScanAttacks(b, ai, r) <==> a in ScanAttacks(b, ai, r - 1) || (a.from.r == r - 1 && Candidate(b, ai, a))
  {
    var front := ScanAttacks(b, ai, r - 1);
    var last := RowAttacks(b, ai, r - 1, BOARD_WIDTH);
    assert ScanAttacks(b, ai, r) == front + last;
    assert a in front + last <==> a in front || a in last;
    assert a in last <==> a.from.r == r - 1 && Candidate(b, ai, a) by {
      RowAttacksMember(b, ai, r - 1, BOARD_WIDTH, a);
    }
  }

  /** The attack list holds exactly the candidates whose attacker lies in the scanned rows. */
  lemma {:induction false} ScanAttacksMember(b: Grid, ai: PlayerId, r: nat, a: AttackOption)
    requires IsGrid(b) && r <= BOARD_HEIGHT
    ensures a in ScanAttacks(b, ai, r) <==> 0 <= a.from.r < r && Candidate(b, ai, a)
  {
    if r > 0 {
      ScanAttacksStep(b, ai, r, a);
      ScanAttacksMember(b, ai, r - 1, a);
    }
  }

  /** a comes before b in the scan: attacker row, attacker column, target row, target column. */
  predicate AttackScannedBefore(a: AttackOption, b: AttackOption) {
    || a.from.r < b.from.r
    || (a.from.r == b.from.r && a.from.c < b.from.c)
    || (a.from == b.from && a.to.r < b.to.r)
    || (a.from == b.from && a.to.r == b.to.r && a.to.c < b.to.c)
  }

  predicate AttacksInScanOrder(s: seq<AttackOption>) {
    forall i, j :: 0 <= i < j < |s| ==> AttackScannedBefore(s[i], s[j])
  }

  lemma AttacksConcatOrdered(x: seq<AttackOption>, y: seq<AttackOption>)
    requires AttacksInScanOrder(x) && AttacksInScanOrder(y)
    requires forall i, j :: 0 <= i < |x| && 0 <= j < |y| ==> AttackScannedBefore(x[i], y[j])
    ensures AttacksInScanOrder(x + y)
  {
    forall i, j | 0 <= i < j < |x + y|
      ensures AttackScannedBefore((x + y)[i], (x + y)[j])
    {
      if j < |x| {
        assert (x + y)[i] == x[i] && (x + y)[j] == x[j];
      } else if i < |x| {
        assert (x + y)[i] == x[i] && (x + y)[j] == y[j - |x|];
      } else {
        assert (x + y)[i] == y[i - |x|] && (x + y)[j] == y[j - |x|];
      }
    }
  }

  lemma {:induction false} RowTargetsOrdered(b: Grid, ai: PlayerId, from: Pos, tr: int, tc: nat)
    requires IsGrid(b) && InBounds(from) && 0 <= tr < BOARD_HEIGHT && tc <= BOARD_WIDTH
    ensures AttacksInScanOrder(RowTargets(b, ai, from, tr, tc))
  {
    if tc > 0 {
      RowTargetsOrdered(b, ai, from, tr, tc - 1);
      var to := Pos(tr, tc - 1);
      var front := RowTargets(b, ai, from, tr, tc - 1);
      var last := if Hostile(At(b, to), ai) && InRange(At(b, from), Manhattan(from, to)) then [OptionFor(b, from, to)] else [];
      forall i | 0 <= i < |front|
        ensures front[i].from == from && front[i].to.r == tr && front[i].to.c < tc - 1
      {
        RowTargetsMember(b, ai, from, tr, tc - 1, front[i]);
      }
      AttacksConcatOrdered(front, last);
      assert RowTargets(b, ai, from, tr, tc) == front + last;
    }
  }

  lemma {:induction false} TargetsOrdered(b: Grid, ai: PlayerId, from: Pos, tr: nat)
    requires IsGrid(b) && InBounds(from) && tr <= BOARD_HEIGHT
    ensures AttacksInScanOrder(Targets(b, ai, from, tr))
  {
    if tr > 0 {
      TargetsOrdered(b, ai, from, tr - 1);
      RowTargetsOrdered(b, ai, from, tr - 1, BOARD_WIDTH);
      var front := Targets(b, ai, from, tr - 1);
      var last := RowTargets(b, ai, from, tr - 1, BOARD_WIDTH);
      forall i | 0 <= i < |front|
        ensures front[i].from == from && front[i].to.r < tr - 1
      {
        TargetsMember(b, ai, from, tr - 1, front[i]);
      }
      forall j | 0 <= j < |last|
        ensures last[j].from == from && last[j].to.r == tr - 1
      {
        RowTargetsMember(b, ai, from, tr - 1, BOARD_WIDTH, last[j]);
      }
      AttacksConcatOrdered(front, last);
      assert Targets(b, ai, from, tr) == front + last;
    }
  }

  lemma {:induction false} RowAttacksOrdered(b: Grid, ai: PlayerId, r: int, c: nat)
    requires IsGrid(b) && 0 <= r < BOARD_HEIGHT && c <= BOARD_WIDTH
    ensures AttacksInScanOrder(RowAttacks(b, ai, r, c))
  {
    if c > 0 {
      RowAttacksOrdered(b, ai, r, c - 1);
      var from := Pos(r, c - 1);
      TargetsOrdered(b, ai, from, BOARD_HEIGHT);
      var front := RowAttacks(b, ai, r, c - 1);
      var last := if MayAttack(At(b, from), ai) then Targets(b, ai, from, BOARD_HEIGHT) else [];
      forall i | 0 <= i < |front|
        ensures front[i].from.r == r && front[i].from.c < c - 1
      {
        RowAttacksMember(b, ai, r, c - 1, front[i]);
      }
      forall j | 0 <= j < |last|
        ensures last[j].from == from
      {
        TargetsMember(b, ai, from, BOARD_HEIGHT, last[j]);
      }
      AttacksConcatOrdered(front, last);
      assert RowAttacks(b, ai, r, c) == front + last;
    }
  }

  /**
   * The scan lists its entries in the order of the four nested loops, attacker row,
   * attacker column, target row, target column, so no entry appears twice; the
   * stable sort keeps this order among equal keys.
   */
  lemma {:induction false} ScanAttacksOrdered(b: Grid, ai: PlayerId, r: nat)
    requires IsGrid(b) && r <= BOARD_HEIGHT
    ensures AttacksInScanOrder(ScanAttacks(b, ai, r))
  {
    if r > 0 {
      ScanAttacksOrdered(b, ai, r - 1);
      RowAttacksOrdered(b, ai, r - 1, BOARD_WIDTH);
      var front := ScanAttacks(b, ai, r - 1);
      var last := RowAttacks(b, ai, r - 1, BOARD_WIDTH);
      forall i | 0 <= i < |front|
        ensures front[i].from.r < r - 1
      {
        ScanAttacksMember(b, ai, r - 1, front[i]);
      }
      forall j | 0 <= j < |last|
        ensures last[j].from.r == r - 1
      {
        RowAttacksMember(b, ai, r - 1, BOARD_WIDTH, last[j]);
      }
      AttacksConcatOrdered(front, last);
      assert ScanAttacks(b, ai, r) == front + last;
    }
  }

  // ------------------------------------------------------------ the sort

  /** The comparator of the sort: kills first, then tower targets, then damage descending. */
  function Compare(a: AttackOption, b: AttackOption): int {
    if a.isKill && !b.isKill then -1
    else if !a.isKill && b.isKill then 1
    else if a.atTower && !b.atTower then -1
    else if !a.atTower && b.atTower then 1
    else b.damage - a.damage
  }

  /** a sorts strictly before b. */
  predicate Outranks(a: AttackOption, b: AttackOption) {
    Compare(a, b) < 0
  }

  /** What the comparator looks at; entries with equal keys compare as 0. */
  datatype Key = Key(isKill: bool, atTower: bool, damage: int)

  function KeyOf(a: AttackOption): Key {
    Key(a.isKill, a.atTower, a.damage)
  }

  /** The comparator is a consistent total preorder whose ties are exactly the equal keys. */
  lemma CompareFacts(a: AttackOption, b: AttackOption, c: AttackOption)
    ensures Compare(a, b) == -Compare(b, a)
    ensures Compare(a, b) == 0 <==> KeyOf(a) == KeyOf(b)
    ensures Outranks(a, b) && !Outranks(c, b) ==> Outranks(a, c)
    ensures !Outranks(b, a) && !Outranks(c, b) ==> !Outranks(c, a)
    ensures Outranks(a, b) <==>
      (a.isKill && !b.isKill) ||
      (a.isKill == b.isKill && ((a.atTower && !b.atTower) || (a.atTower == b.atTower && a.damage > b.damage)))
  {
  }

  /** Sorted for the comparator: no entry outranks an earlier one. */
  ghost predicate Sorted(s: seq<AttackOption>) {
    forall i, j :: 0 <= i < j < |s| ==> !Outranks(s[j], s[i])
  }

  /** One step of a stable insertion sort: x goes before the first entry it outranks. */
  function Insert(x: AttackOption, s: seq<AttackOption>): (r: seq<AttackOption>)
    ensures |r| == |s| + 1
  {
    if |s| == 0 then [x]
    else if Outranks(x, s[0]) then [x] + s
    else [s[0]] + Insert(x, s[1..])
  }

  /** `attacks.sort(comparator)`; the built-in sort is stable. */
  function SortAttacks(s: seq<AttackOption>): (r: seq<AttackOption>)
    ensures |r| == |s|
  {
    if |s| == 0 then [] else Insert(s[|s| - 1], SortAttacks(s[..|s| - 1]))
  }

  /** The entries of s with key k, in their order. */
  function WithKey(s: seq<AttackOption>, k: Key): seq<AttackOption> {
    if |s| == 0 then [] else (if KeyOf(s[0]) == k then [s[0]] else []) + WithKey(s[1..], k)
  }

  lemma {:induction false} WithKeyAppend(s: seq<AttackOption>, t: seq<AttackOption>, k: Key)
    ensures WithKey(s + t, k) == WithKey(s, k) + WithKey(t, k)
  {
    if |s| > 0 {
      assert (s + t)[0] == s[0];
      assert (s + t)[1..] == s[1..] + t;
      WithKeyAppend(s[1..], t, k);
    } else {
      assert s + t == t;
    }
  }

  /** Inserting adds exactly x. */
  lemma {:induction false} InsertPerm(x: AttackOption, s: seq<AttackOption>)
    ensures multiset(Insert(x, s)) == multiset(s) + multiset{x}
  {
    if |s| > 0 && !Outranks(x, s[0]) {
      InsertPerm(x, s[1..]);
      assert Insert(x, s) == [s[0]] + Insert(x, s[1..]);
      assert s == [s[0]] + s[1..];
    }
  }

  /** Inserting into a sorted list keeps it sorted. */
  lemma {:induction false} InsertFacts(x: AttackOption, s: seq<AttackOption>)
    requires Sorted(s)
    ensures Sorted(Insert(x, s))
    ensures multiset(Insert(x, s)) == multiset(s) + multiset{x}
  {
    InsertPerm(x, s);
    if |s| > 0 && !Outranks(x, s[0]) {
      InsertFacts(x, s[1..]);
      var r := Insert(x, s);
      var tail := Insert(x, s[1..]);
      assert r == [s[0]] + tail;
      assert s == [s[0]] + s[1..];
      forall j | 0 < j < |r|
        ensures !Outranks(r[j], s[0])
      {
        assert r[j] in multiset(tail);
        assert r[j] == x || r[j] in multiset(s[1..]);
        if r[j] != x {
          var m :| 0 <= m < |s[1..]| && s[1..][m] == r[j];
          assert s[m + 1] == r[j];
        }
      }
    } else if |s| > 0 {
      var r := Insert(x, s);
      assert r == [x] + s;
      forall i, j | 0 <= i < j < |r|
        ensures !Outranks(r[j], r[i])
      {
        if i == 0 {
          CompareFacts(x, s[0], s[j - 1]);
          CompareFacts(s[j - 1], x, x);
        }
      }
    }
  }

  /** Inserting x adds x at the end of its key's run and leaves every other key's run alone. */
  lemma {:induction false} InsertStable(x: AttackOption, s: seq<AttackOption>, k: Key)
    requires Sorted(s)
    ensures WithKey(Insert(x, s), k) == WithKey(s, k) + (if KeyOf(x) == k then [x] else [])
  {
    if |s| == 0 {
    } else if Outranks(x, s[0]) {
      assert Insert(x, s) == [x] + s;
      assert ([x] + s)[1..] == s;
      if KeyOf(x) == k {
        OutrankedKeys(x, s);
      }
    } else {
      InsertStable(x, s[1..], k);
      assert Insert(x, s) == [s[0]] + Insert(x, s[1..]);
      assert ([s[0]] + Insert(x, s[1..]))[1..] == Insert(x, s[1..]);
    }
  }

  /** When x outranks the head of a sorted list, no entry of the list shares x's key. */
  lemma {:induction false} OutrankedKeys(x: AttackOption, s: seq<AttackOption>)
    requires Sorted(s) && |s| > 0 && Outranks(x, s[0])
    ensures WithKey(s, KeyOf(x)) == []
  {
    CompareFacts(x, s[0], s[0]);
    if |s| > 1 {
      CompareFacts(x, s[0], s[1]);
      OutrankedKeys(x, s[1..]);
    } else {
      assert s[1..] == [];
    }
  }

  /** The sort returns a sorted permutation of its input. */
  lemma {:induction false} SortFacts(s: seq<AttackOption>)
    ensures Sorted(SortAttacks(s))
    ensures multiset(SortAttacks(s)) == multiset(s)
  {
    if |s| > 0 {
      var front := s[..|s| - 1];
      SortFacts(front);
      InsertFacts(s[|s| - 1], SortAttacks(front));
      assert s == front + [s[|s| - 1]];
    }
  }

  /** The sort is stable: entries with equal keys keep their relative order. */
  lemma {:induction false} SortStable(s: seq<AttackOption>, k: Key)
    ensures WithKey(SortAttacks(s), k) == WithKey(s, k)
  {
    if |s| > 0 {
      var front := s[..|s| - 1];
      var x := s[|s| - 1];
      var tail := if KeyOf(x) == k then [x] else [];
      SortStable(front, k);
      SortFacts(front);
      InsertStable(x, SortAttacks(front), k);
      assert SortAttacks(s) == Insert(x, SortAttacks(front));
      assert WithKey(SortAttacks(s), k) == WithKey(front, k) + tail;
      assert s == front + [x];
      WithKeyAppend(front, [x], k);
      WithKeySingle(x, k);
    }
  }

  lemma WithKeySingle(x: AttackOption, k: Key)
    ensures WithKey([x], k) == if KeyOf(x) == k then [x] else []
  {
    assert [x][1..] == [];
  }

  /** `getPossibleAttacks`: the candidates in scan order, then sorted. */
  function PossibleAttacks(b: Grid, ai: PlayerId): seq<AttackOption>
    requires IsGrid(b)
  {
    SortAttacks(ScanAttacks(b, ai, BOARD_HEIGHT))
  }

  /**
   * The attack list holds exactly the candidates of the scanned rectangle, each with
   * the estimate `max(0, attack - defense)` and `isKill` exactly when the target's hp
   * is at most that estimate; it is sorted kills first, then towers, then damage.
   */
  lemma PossibleAttacksFacts(b: Grid, ai: PlayerId)
    requires IsGrid(b)
    ensures Sorted(PossibleAttacks(b, ai))
    ensures forall a :: a in PossibleAttacks(b, ai) <==> Candidate(b, ai, a)
  {
    var s := ScanAttacks(b, ai, BOARD_HEIGHT);
    SortFacts(s);
    forall a
      ensures a in PossibleAttacks(b, ai) <==> Candidate(b, ai, a)
    {
      ScanAttacksMember(b, ai, BOARD_HEIGHT, a);
      assert a in PossibleAttacks(b, ai) <==> a in multiset(s);
    }
  }

  /**
   * The head of the sorted list is the best candidate: none outranks it, and among
   * the candidates with its key it comes first in scan order.
   */
  lemma SortedHead(s: seq<AttackOption>)
    requires |s| > 0
    ensures SortAttacks(s)[0] in s
    ensures forall a :: a in s ==> !Outranks(a, SortAttacks(s)[0])
    ensures var k := KeyOf(SortAttacks(s)[0]); |WithKey(s, k)| > 0 && WithKey(s, k)[0] == SortAttacks(s)[0]
  {
    var r := SortAttacks(s);
    SortFacts(s);
    assert r[0] in multiset(s);
    forall a | a in s
      ensures !Outranks(a, r[0])
    {
      assert a in multiset(r);
      var j :| 0 <= j < |r| && r[j] == a;
      if j == 0 {
        CompareFacts(a, a, a);
      }
    }
    SortStable(s, KeyOf(r[0]));
    assert r == [r[0]] + r[1..];
  }

  // ------------------------------------------------------------ summon

  /** A hand card the AI can play: known to the catalog and no dearer than its energy. */
  predicate Playable(cards: seq<Card>, hand: seq<CardId>, energy: int, i: int) {
    0 <= i < |hand| && FindCard(cards, hand[i]).Some? && FindCard(cards, hand[i]).value.cost <= energy
  }

  function CostAt(cards: seq<Card>, hand: seq<CardId>, i: int): int
    requires 0 <= i < |hand| && FindCard(cards, hand[i]).Some?
  {
    FindCard(cards, hand[i]).value.cost
  }

  /**
   * The head of the playable cards among the first n of the hand, sorted by cost
   * descending with a stable sort: the first card of the highest cost.
   */
  function Strongest(cards: seq<Card>, hand: seq<CardId>, energy: int, n: nat): (r: Option<nat>)
    requires n <= |hand|
    ensures r.Some? ==> r.value < n && Playable(cards, hand, energy, r.value)
  {
    if n == 0 then None
    else
      var best := Strongest(cards, hand, energy, n - 1);
      if !Playable(cards, hand, energy, n - 1) then best
      else if best.None? || CostAt(cards, hand, n - 1) > CostAt(cards, hand, best.value) then Some(n - 1)
      else best
  }

  /**
   * The chosen card is playable, no playable card costs more, and every playable
   * card before it costs strictly less; there is none exactly when nothing is playable.
   */
  lemma {:induction false} StrongestFacts(cards: seq<Card>, hand: seq<CardId>, energy: int, n: nat)
    requires n <= |hand|
    ensures var r := Strongest(cards, hand, energy, n);
      && (r.None? <==> forall i :: 0 <= i < n ==> !Playable(cards, hand, energy, i))
      && (r.Some? ==> forall i :: 0 <= i < n && Playable(cards, hand, energy, i) ==>
            CostAt(cards, hand, i) <= CostAt(cards, hand, r.value) &&
            (i < r.value ==> CostAt(cards, hand, i) < CostAt(cards, hand, r.value)))
  {
    if n > 0 {
      StrongestFacts(cards, hand, energy, n - 1);
    }
  }

  /** The empty cells of row `row`, columns below c, left to right. */
  function EmptySlots(b: Grid, row: int, c: nat): (slots: seq<Pos>)
    requires IsGrid(b) && 0 <= row < BOARD_HEIGHT && c <= BOARD_WIDTH
    ensures forall i :: 0 <= i < |slots| ==> slots[i].r == row && 0 <= slots[i].c < c && At(b, slots[i]).Empty?
  {
    if c == 0 then []
    else EmptySlots(b, row, c - 1) + if At(b, Pos(row, c - 1)).Empty? then [Pos(row, c - 1)] else []
  }

  lemma {:induction false} EmptySlotsComplete(b: Grid, row: int, c: nat, col: int)
    requires IsGrid(b) && 0 <= row < BOARD_HEIGHT && c <= BOARD_WIDTH
    requires 0 <= col < c && At(b, Pos(row, col)).Empty?
    ensures Pos(row, col) in EmptySlots(b, row, c)
  {
    if col < c - 1 {
      EmptySlotsComplete(b, row, c - 1, col);
    }
  }

  /** `aiPlayerId === player1.id ? 6 : 1`. */
  function AiSpawnRow(t: Table, ai: PlayerId): int {
    if ai == t.player1.id then 6 else 1
  }

  /**
   * `getBestSummon`: the strongest playable card, on an empty cell of the AI's spawn
   * row; `pick` stands for the random choice among the empty cells.
   */
  function BestSummon(t: Table, cards: seq<Card>, ai: PlayerId, pick: nat): (r: Option<Plan>)
    requires IsGrid(t.board)
    ensures r.Some? ==> r.value.SummonPlan?
  {
    var player := PlayerFor(t.player1, t.player2, ai);
    var best := Strongest(cards, player.hand, player.energy, |player.hand|);
    if best.None? then None
    else
      var slots := EmptySlots(t.board, AiSpawnRow(t, ai), BOARD_WIDTH);
      if |slots| == 0 then None
      else Some(SummonPlan(best.value, slots[pick % |slots|]))
  }

  /**
   * A summon plan names a playable card of the highest cost (the first such in the
   * hand) and an empty cell of the AI's spawn row; there is none exactly when no
   * card is playable or the row is full.
   */
  lemma BestSummonFacts(t: Table, cards: seq<Card>, ai: PlayerId, pick: nat)
    requires IsGrid(t.board)
    ensures var player := PlayerFor(t.player1, t.player2, ai);
      var r := BestSummon(t, cards, ai, pick);
      && (r.None? <==>
           (forall i :: 0 <= i < |player.hand| ==> !Playable(cards, player.hand, player.energy, i)) ||
           (forall c :: 0 <= c < BOARD_WIDTH ==> !At(t.board, Pos(AiSpawnRow(t, ai), c)).Empty?))
      && (r.Some? ==>
           && Playable(cards, player.hand, player.energy, r.value.cardIndex)
           && (forall i :: 0 <= i < |player.hand| && Playable(cards, player.hand, player.energy, i) ==>
                CostAt(cards, player.hand, i) <= CostAt(cards, player.hand, r.value.cardIndex))
           && (forall i :: 0 <= i < r.value.cardIndex && Playable(cards, player.hand, player.energy, i) ==>
                CostAt(cards, player.hand, i) < CostAt(cards, player.hand, r.value.cardIndex))
           && r.value.target.r == AiSpawnRow(t, ai) && 0 <= r.value.target.c < BOARD_WIDTH
           && At(t.board, r.value.target).Empty?)
  {
    var player := PlayerFor(t.player1, t.player2, ai);
    var row := AiSpawnRow(t, ai);
    StrongestFacts(cards, player.hand, player.energy, |player.hand|);
    var slots := EmptySlots(t.board, row, BOARD_WIDTH);
    if |slots| == 0 {
      forall c | 0 <= c < BOARD_WIDTH
        ensures !At(t.board, Pos(row, c)).Empty?
      {
        if At(t.board, Pos(row, c)).Empty? {
          EmptySlotsComplete(t.board, row, BOARD_WIDTH, c);
        }
      }
    } else {
      var s := slots[0];
      assert !At(t.board, Pos(row, s.c)).Empty? ==> false;
    }
  }

  // ------------------------------------------------------------ moves

  /** `aiPlayerId === player2.id ? 1 : -1`: player2 moves down the board, anyone else up. */
  function Direction(t: Table, ai: PlayerId): int {
    if ai == t.player2.id then 1 else -1
  }

  /** `unit && unit.owner === ai && !unit.hasMoved`: a tower passes this test too. */
  predicate MayMove(x: Cell, ai: PlayerId) {
    !x.Empty? && x.owner == ai && !x.Moved()
  }

  /** A forward step from `from`: an eligible occupant, an in-bounds empty cell one row ahead. */
  predicate Step(b: Grid, ai: PlayerId, dir: int, from: Pos)
    requires IsGrid(b) && InBounds(from)
  {
    var to := Pos(from.r + dir, from.c);
    MayMove(At(b, from), ai) && InBounds(to) && At(b, to).Empty?
  }

  /** The move proposals of row r, columns below c. */
  function RowMoves(b: Grid, ai: PlayerId, dir: int, r: int, c: nat): seq<Plan>
    requires IsGrid(b) && 0 <= r < BOARD_HEIGHT && c <= BOARD_WIDTH
  {
    if c == 0 then []
    else
      var from := Pos(r, c - 1);
      RowMoves(b, ai, dir, r, c - 1) + if Step(b, ai, dir, from) then [MovePlan(from, Pos(r + dir, c - 1))] else []
  }

  /** The move proposals of the rows below r, in scan order. */
  function ScanMoves(b: Grid, ai: PlayerId, dir: int, r: nat): seq<Plan>
    requires IsGrid(b) && r <= BOARD_HEIGHT
  {
    if r == 0 then [] else ScanMoves(b, ai, dir, r - 1) + RowMoves(b, ai, dir, r - 1, BOARD_WIDTH)
  }

  /** `getPossibleMoves`. */
  function PossibleMoves(t: Table, ai: PlayerId): seq<Plan>
    requires IsGrid(t.board)
  {
    ScanMoves(t.board, ai, Direction(t, ai), BOARD_HEIGHT)
  }

  /** `p` comes strictly before `q` in row-major order. */
  predicate ScannedBefore(p: Pos, q: Pos) {
    p.r < q.r || (p.r == q.r && p.c < q.c)
  }

  /** Move proposals whose moving cells strictly follow the scan order. */
  predicate InScanOrder(s: seq<Plan>) {
    forall i, j :: 0 <= i < j < |s| ==> s[i].MovePlan? && s[j].MovePlan? && ScannedBefore(s[i].from, s[j].from)
  }

  lemma {:induction false} RowMovesFacts(b: Grid, ai: PlayerId, dir: int, r: int, c: nat, m: Plan)
    requires IsGrid(b) && 0 <= r < BOARD_HEIGHT && c <= BOARD_WIDTH
    ensures m in RowMoves(b, ai, dir, r, c) <==>
      m.MovePlan? && m.from.r == r && 0 <= m.from.c < c && Step(b, ai, dir, m.from) && m.to == Pos(r + dir, m.from.c)
  {
    if c > 0 {
      RowMovesFacts(b, ai, dir, r, c - 1, m);
      var from := Pos(r, c - 1);
      var front := RowMoves(b, ai, dir, r, c - 1);
      var last := if Step(b, ai, dir, from) then [MovePlan(from, Pos(r + dir, c - 1))] else [];
      assert RowMoves(b, ai, dir, r, c) == front + last;
      assert m in front + last <==> m in front || m in last;
    }
  }

  /** The move list holds exactly the forward steps of the scanned rows. */
  lemma {:induction false} ScanMovesMember(b: Grid, ai: PlayerId, dir: int, r: nat, m: Plan)
    requires IsGrid(b) && r <= BOARD_HEIGHT
    ensures m in ScanMoves(b, ai, dir, r) <==>
      m.MovePlan? && InBounds(m.from) && m.from.r < r && Step(b, ai, dir, m.from) && m.to == Pos(m.from.r + dir, m.from.c)
  {
    if r > 0 {
      ScanMovesMember(b, ai, dir, r - 1, m);
      RowMovesFacts(b, ai, dir, r - 1, BOARD_WIDTH, m);
      var front := ScanMoves(b, ai, dir, r - 1);
      var last := RowMoves(b, ai, dir, r - 1, BOARD_WIDTH);
      assert ScanMoves(b, ai, dir, r) == front + last;
      assert m in front + last <==> m in front || m in last;
    }
  }

  lemma {:induction false} RowMovesOrdered(b: Grid, ai: PlayerId, dir: int, r: int, c: nat)
    requires IsGrid(b) && 0 <= r < BOARD_HEIGHT && c <= BOARD_WIDTH
    ensures InScanOrder(RowMoves(b, ai, dir, r, c))
  {
    if c > 0 {
      RowMovesOrdered(b, ai, dir, r, c - 1);
      var s := RowMoves(b, ai, dir, r, c);
      var from := Pos(r, c - 1);
      var front := RowMoves(b, ai, dir, r, c - 1);
      var last := if Step(b, ai, dir, from) then [MovePlan(from, Pos(r + dir, c - 1))] else [];
      assert s == front + last;
      forall i | 0 <= i < |front|
        ensures front[i].MovePlan? && front[i].from.r == r && front[i].from.c < c - 1
      {
        RowMovesFacts(b, ai, dir, r, c - 1, front[i]);
      }
      forall i, j | 0 <= i < j < |s|
        ensures s[i].MovePlan? && s[j].MovePlan? && ScannedBefore(s[i].from, s[j].from)
      {
        assert s[i] == front[i];
        if j < |front| {
          assert s[j] == front[j];
        } else {
          assert s[j] == last[j - |front|];
        }
      }
    }
  }

  /** The move list is in scan order of the moving cell. */
  lemma {:induction false} ScanMovesOrdered(b: Grid, ai: PlayerId, dir: int, r: nat)
    requires IsGrid(b) && r <= BOARD_HEIGHT
    ensures InScanOrder(ScanMoves(b, ai, dir, r))
  {
    if r > 0 {
      ScanMovesOrdered(b, ai, dir, r - 1);
      RowMovesOrdered(b, ai, dir, r - 1, BOARD_WIDTH);
      var front := ScanMoves(b, ai, dir, r - 1);
      var last := RowMoves(b, ai, dir, r - 1, BOARD_WIDTH);
      forall i | 0 <= i < |front|
        ensures front[i].MovePlan? && front[i].from.r < r - 1
      {
        ScanMovesMember(b, ai, dir, r - 1, front[i]);
      }
      forall j | 0 <= j < |last|
        ensures last[j].MovePlan? && last[j].from.r == r - 1
      {
        RowMovesFacts(b, ai, dir, r - 1, BOARD_WIDTH, last[j]);
      }
      var s := ScanMoves(b, ai, dir, r);
      assert s == front + last;
      forall i, j | 0 <= i < j < |s|
        ensures s[i].MovePlan? && s[j].MovePlan? && ScannedBefore(s[i].from, s[j].from)
      {
        if i < |front| {
          assert s[i] == front[i];
          if j < |front| {
            assert s[j] == front[j];
          } else {
            assert s[j] == last[j - |front|];
          }
        } else {
          assert s[i] == last[i - |front|] && s[j] == last[j - |front|];
        }
      }
    }
  }

  // ------------------------------------------------------------ the planner

  /** `attacks.filter((a) => a.isKill)`. */
  function Kills(s: seq<AttackOption>): seq<AttackOption> {
    if |s| == 0 then [] else (if s[0].isKill then [s[0]] else []) + Kills(s[1..])
  }

  /** `attacks.filter((a) => a.targetType === "tower")`. */
  function TowerHits(s: seq<AttackOption>): seq<AttackOption> {
    if |s| == 0 then [] else (if s[0].atTower then [s[0]] else []) + TowerHits(s[1..])
  }

  /** The first kill, else the first tower hit, else the first attack of the list. */
  function PickAttack(attacks: seq<AttackOption>): AttackOption
    requires |attacks| > 0
  {
    var kills := Kills(attacks);
    if |kills| > 0 then kills[0]
    else
      var towerHits := TowerHits(attacks);
      if |towerHits| > 0 then towerHits[0] else attacks[0]
  }

  /** `computeBestMove`: attack, else summon (with energy at least 2), else move, else end the turn. */
  function BestMove(t: Table, cards: seq<Card>, ai: PlayerId, pick: nat): Plan
    requires IsGrid(t.board)
  {
    var attacks := PossibleAttacks(t.board, ai);
    if |attacks| > 0 then AttackPlan(PickAttack(attacks)) else Fallback(t, cards, ai, pick)
  }

  /** What `computeBestMove` does once no attack exists: summon, else move, else end the turn. */
  function Fallback(t: Table, cards: seq<Card>, ai: PlayerId, pick: nat): Plan
    requires IsGrid(t.board)
  {
    var summon := if PlayerFor(t.player1, t.player2, ai).energy >= 2 then BestSummon(t, cards, ai, pick) else None;
    if summon.Some? then summon.value
    else
      var moves := PossibleMoves(t, ai);
      if |moves| > 0 then moves[0] else EndTurnPlan
  }

  /** What `computeBestMove` comes to on a record that may carry no catalog. */
  datatype PlanAttempt = PlanThrew | Planned(plan: Plan)

  /**
   * `computeBestMove` reaches `game.cardsData.find`: no attack exists, the AI has
   * energy 2 or more, and its hand is not empty, so `getBestSummon` maps a card.
   */
  predicate ReachesLookup(t: Table, ai: PlayerId)
    requires IsGrid(t.board)
  {
    var player := PlayerFor(t.player1, t.player2, ai);
    |PossibleAttacks(t.board, ai)| == 0 && player.energy >= 2 && |player.hand| > 0
  }

  /**
   * `computeBestMove` as written, on a record whose `cardsData` is `catalog`: without
   * one it throws exactly when it reaches the lookup, and otherwise plans as with any
   * catalog.
   */
  function BestMoveAsWritten(t: Table, catalog: Option<seq<Card>>, ai: PlayerId, pick: nat): (r: PlanAttempt)
    requires IsGrid(t.board)
    ensures r.PlanThrew? <==> catalog.None? && ReachesLookup(t, ai)
    ensures r.Planned? && catalog.Some? ==> r.plan == BestMove(t, catalog.value, ai, pick)
  {
    if catalog.Some? then Planned(BestMove(t, catalog.value, ai, pick))
    else if ReachesLookup(t, ai) then PlanThrew
    else Planned(BestMove(t, [], ai, pick))
  }

  /** Short of the lookup, the catalog does not matter: every catalog gives the same plan. */
  lemma PlanWithoutLookup(t: Table, cards: seq<Card>, other: seq<Card>, ai: PlayerId, pick: nat)
    requires IsGrid(t.board) && !ReachesLookup(t, ai)
    ensures BestMove(t, cards, ai, pick) == BestMove(t, other, ai, pick)
    ensures BestMoveAsWritten(t, None, ai, pick) == Planned(BestMove(t, cards, ai, pick))
  {
    var player := PlayerFor(t.player1, t.player2, ai);
    if |PossibleAttacks(t.board, ai)| == 0 && player.energy >= 2 {
      assert |player.hand| == 0;
      assert Strongest(cards, player.hand, player.energy, 0).None?;
      assert Strongest(other, player.hand, player.energy, 0).None?;
      assert Strongest([], player.hand, player.energy, 0).None?;
    }
  }

  lemma {:induction false} NoKills(s: seq<AttackOption>)
    requires forall i :: 0 <= i < |s| ==> !s[i].isKill
    ensures Kills(s) == []
  {
    if |s| > 0 {
      NoKills(s[1..]);
    }
  }

  lemma {:induction false} NoTowerHits(s: seq<AttackOption>)
    requires forall i :: 0 <= i < |s| ==> !s[i].atTower
    ensures TowerHits(s) == []
  {
    if |s| > 0 {
      NoTowerHits(s[1..]);
    }
  }

  /** In a sorted list, a kill anywhere means a kill at the head, and likewise a tower hit among non-kills. */
  lemma SortedHeadClass(s: seq<AttackOption>)
    requires Sorted(s) && |s| > 0
    ensures (exists i :: 0 <= i < |s| && s[i].isKill) ==> s[0].isKill
    ensures (forall i :: 0 <= i < |s| ==> !s[i].isKill) && (exists i :: 0 <= i < |s| && s[i].atTower) ==> s[0].atTower
  {
  }

  /** On a sorted list the two filters are redundant: the pick is the head. */
  lemma PickIsHead(attacks: seq<AttackOption>)
    requires Sorted(attacks) && |attacks| > 0
    ensures PickAttack(attacks) == attacks[0]
  {
    SortedHeadClass(attacks);
    if attacks[0].isKill {
      assert Kills(attacks)[0] == attacks[0];
    } else {
      NoKills(attacks);
      if attacks[0].atTower {
        assert TowerHits(attacks)[0] == attacks[0];
      } else {
        NoTowerHits(attacks);
      }
    }
  }

  /**
   * The planner attacks exactly when an attack is possible, and its attack is the
   * head of the sorted list.
   */
  lemma BestMoveAttacks(t: Table, cards: seq<Card>, ai: PlayerId, pick: nat)
    requires IsGrid(t.board)
    ensures BestMove(t, cards, ai, pick).AttackPlan? <==> |PossibleAttacks(t.board, ai)| > 0
    ensures |PossibleAttacks(t.board, ai)| > 0 ==> BestMove(t, cards, ai, pick) == AttackPlan(PossibleAttacks(t.board, ai)[0])
  {
    var attacks := PossibleAttacks(t.board, ai);
    if |attacks| > 0 {
      PossibleAttacksFacts(t.board, ai);
      PickIsHead(attacks);
    } else {
      assert BestSummon(t, cards, ai, pick).Some? ==> !BestSummon(t, cards, ai, pick).value.AttackPlan?;
      var moves := PossibleMoves(t, ai);
      if |moves| > 0 {
        ScanMovesMember(t.board, ai, Direction(t, ai), BOARD_HEIGHT, moves[0]);
      }
    }
  }

  /** Whenever some candidate kills its target, the planner attacks with a kill. */
  lemma BestMoveKills(t: Table, cards: seq<Card>, ai: PlayerId, pick: nat, a: AttackOption)
    requires IsGrid(t.board) && Candidate(t.board, ai, a) && a.isKill
    ensures BestMove(t, cards, ai, pick).AttackPlan? && BestMove(t, cards, ai, pick).attack.isKill
    ensures Candidate(t.board, ai, BestMove(t, cards, ai, pick).attack)
  {
    var attacks := PossibleAttacks(t.board, ai);
    PossibleAttacksFacts(t.board, ai);
    assert a in attacks;
    BestMoveAttacks(t, cards, ai, pick);
    SortedHeadClass(attacks);
  }

  /**
   * Without an attack, the planner summons when it has at least 2 energy and a
   * summon exists; otherwise it proposes the first forward step in scan order,
   * and ends the turn only when there is none.
   */
  lemma BestMoveFallback(t: Table, cards: seq<Card>, ai: PlayerId, pick: nat)
    requires IsGrid(t.board) && |PossibleAttacks(t.board, ai)| == 0
    ensures var player := PlayerFor(t.player1, t.player2, ai);
      var summon := BestSummon(t, cards, ai, pick);
      var moves := PossibleMoves(t, ai);
      var plan := BestMove(t, cards, ai, pick);
      && (player.energy >= 2 && summon.Some? ==> plan == summon.value)
      && (plan.SummonPlan? ==> player.energy >= 2 && summon == Some(plan))
      && (plan.MovePlan? ==>
           && plan in moves
           && forall m :: m in moves ==> m.MovePlan? && (m == plan || ScannedBefore(plan.from, m.from)))
      && (plan == EndTurnPlan <==> (player.energy < 2 || summon.None?) && |moves| == 0)
  {
    var moves := PossibleMoves(t, ai);
    var plan := BestMove(t, cards, ai, pick);
    assert plan == Fallback(t, cards, ai, pick);
    assert BestSummon(t, cards, ai, pick).Some? ==> !BestSummon(t, cards, ai, pick).value.AttackPlan?;
    if plan.MovePlan? && !(PlayerFor(t.player1, t.player2, ai).energy >= 2 && BestSummon(t, cards, ai, pick).Some?) {
      ScanMovesOrdered(t.board, ai, Direction(t, ai), BOARD_HEIGHT);
      assert InScanOrder(moves);
      assert plan == moves[0];
      forall m | m in moves
        ensures m.MovePlan? && (m == plan || ScannedBefore(plan.from, m.from))
      {
        var j :| 0 <= j < |moves| && moves[j] == m;
        if j > 0 {
          assert ScannedBefore(moves[0].from, moves[j].from);
        }
      }
    }
    if |moves| > 0 {
      ScanMovesMember(t.board, ai, Direction(t, ai), BOARD_HEIGHT, moves[0]);
    }
  }

  /**
   * A move proposal is a forward step of one row (down for player2, up otherwise)
   * from an AI-owned occupant that has not moved, to an in-bounds empty cell.
   */
  lemma MoveProposal(t: Table, ai: PlayerId, m: Plan)
    requires IsGrid(t.board) && m in PossibleMoves(t, ai)
    ensures m.MovePlan? && InBounds(m.from) && InBounds(m.to)
    ensures m.to == Pos(m.from.r + (if ai == t.player2.id then 1 else -1), m.from.c)
    ensures !At(t.board, m.from).Empty? && At(t.board, m.from).owner == ai && !At(t.board, m.from).Moved()
    ensures At(t.board, m.to).Empty?
  {
    ScanMovesMember(t.board, ai, Direction(t, ai), BOARD_HEIGHT, m);
  }
}
