/**
 * Target selection of the ability engine: the target check run before an active
 * ability is paid for, the list of targets a single-target or whole-side ability
 * resolves to, and the square an area ability covers.
 */
module AbilityTargets {
  import opened Basics
  import opened GameConstants
  import opened Board

  /** Why the target check refused a target. */
  datatype TargetError = NoTargetSelected | NoOccupant | NotAnAlly | NotAnEnemy

  datatype TargetCheck = TargetOk | TargetRejected(reason: TargetError)

  /** The kinds that need no target position at all. */
  predicate Untargeted(kind: TargetKind) {
    kind == SelfTarget || kind == AllAlliesTarget || kind == AllEnemiesTarget
  }

  /**
   * The target check: self and whole-side kinds always pass; every other kind needs
   * a position; a tile accepts any cell; otherwise the cell must be occupied, by the
   * caster's side for an ally and by the other side for an enemy.
   */
  function ValidateTarget(b: Grid, player: PlayerId, kind: TargetKind, targetPos: Option<Pos>): (v: TargetCheck)
    requires targetPos.Some? ==> OnGrid(b, targetPos.value)
    ensures Untargeted(kind) ==> v == TargetOk
    ensures v == TargetRejected(NoTargetSelected) <==> !Untargeted(kind) && targetPos.None?
    ensures !Untargeted(kind) && targetPos.Some? ==>
      var x := At(b, targetPos.value);
      && (kind == TileTarget ==> v == TargetOk)
      && (kind != TileTarget && x.Empty? ==> v == TargetRejected(NoOccupant))
      && (kind == AllyTarget ==> (v == TargetOk <==> !x.Empty? && x.owner == player))
      && (kind == EnemyTarget ==> (v == TargetOk <==> !x.Empty? && x.owner != player))
      && (kind == OtherTarget ==> (v == TargetOk <==> !x.Empty?))
  {
    if Untargeted(kind) then TargetOk
    else if targetPos.None? then TargetRejected(NoTargetSelected)
    else
      var x := At(b, targetPos.value);
      if kind == TileTarget then TargetOk
      else if x.Empty? then TargetRejected(NoOccupant)
      else if kind == AllyTarget && x.owner != player then TargetRejected(NotAnAlly)
      else if kind == EnemyTarget && x.owner == player then TargetRejected(NotAnEnemy)
      else TargetOk
  }

  // ------------------------------------------------------------ target lists

  /** Does the whole-side scan pick cell x: an occupant of the caster's side (allies) or of the other side? */
  predicate Picked(x: Cell, player: PlayerId, allies: bool) {
    !x.Empty? && (x.owner == player) == allies
  }

  /** The cells picked among the first k steps of the row-major scan of the rectangle. */
  function SideScan(b: Grid, player: PlayerId, allies: bool, k: nat): seq<Pos>
    requires IsGrid(b) && k <= SCAN_SIZE
  {
    if k == 0 then []
    else
      var p := ScanPos(k - 1);
      ScanPosIndex(k - 1);
      SideScan(b, player, allies, k - 1) + (if Picked(At(b, p), player, allies) then [p] else [])
  }

  /**
   * The targets an ability resolves to. Self, ally and enemy name the occupant of
   * the source cell; whole-side kinds scan the rectangle; a tile (or any other
   * kind) yields none.
   */
  function GetTargets(b: Grid, player: PlayerId, kind: TargetKind, source: Option<Pos>): (ps: seq<Pos>)
    requires IsGrid(b)
    requires kind == SelfTarget || kind == AllyTarget || kind == EnemyTarget ==>
      source.Some? && OnGrid(b, source.value)
  {
    match kind
    case SelfTarget => if At(b, source.value).Empty? then [] else [source.value]
    case AllyTarget => if At(b, source.value).Empty? then [] else [source.value]
    case EnemyTarget => if At(b, source.value).Empty? then [] else [source.value]
    case AllAlliesTarget => SideScan(b, player, true, SCAN_SIZE)
    case AllEnemiesTarget => SideScan(b, player, false, SCAN_SIZE)
    case TileTarget => []
    case OtherTarget => []
  }

  /** Cells listed strictly in the order the row-major scan visits them. */
  predicate ScanOrdered(ps: seq<Pos>) {
    forall i, j :: 0 <= i < j < |ps| ==> ScanIndex(ps[i]) < ScanIndex(ps[j])
  }

  /** The first k scan steps pick exactly the matching cells visited, in visiting order. */
  lemma SideScanFacts(b: Grid, player: PlayerId, allies: bool, k: nat)
    requires IsGrid(b) && k <= SCAN_SIZE
    ensures forall p :: p in SideScan(b, player, allies, k) <==>
      InBounds(p) && ScanIndex(p) < k && Picked(At(b, p), player, allies)
    ensures ScanOrdered(SideScan(b, player, allies, k))
  {
    SideScanMembers(b, player, allies, k);
    SideScanOrdered(b, player, allies, k);
  }

  /** The membership half of SideScanFacts. */
  lemma {:induction false} SideScanMembers(b: Grid, player: PlayerId, allies: bool, k: nat)
    requires IsGrid(b) && k <= SCAN_SIZE
    ensures forall p :: p in SideScan(b, player, allies, k) <==>
      InBounds(p) && ScanIndex(p) < k && Picked(At(b, p), player, allies)
  {
    if k > 0 {
      SideScanMembers(b, player, allies, k - 1);
      var q := ScanPos(k - 1);
      ScanPosIndex(k - 1);
      forall p | InBounds(p) && ScanIndex(p) == k - 1
        ensures p == q
      {
        ScanIndexPos(p);
      }
      assert SideScan(b, player, allies, k) ==
        SideScan(b, player, allies, k - 1) + (if Picked(At(b, q), player, allies) then [q] else []);
    }
  }

  /** The ordering half of SideScanFacts. */
  lemma {:induction false} SideScanOrdered(b: Grid, player: PlayerId, allies: bool, k: nat)
    requires IsGrid(b) && k <= SCAN_SIZE
    ensures ScanOrdered(SideScan(b, player, allies, k))
  {
    if k > 0 {
      SideScanOrdered(b, player, allies, k - 1);
      SideScanMembers(b, player, allies, k - 1);
      var q := ScanPos(k - 1);
      ScanPosIndex(k - 1);
      var front := SideScan(b, player, allies, k - 1);
      var ps := SideScan(b, player, allies, k);
      assert ps == front + (if Picked(At(b, q), player, allies) then [q] else []);
      forall i, j | 0 <= i < j < |ps|
        ensures ScanIndex(ps[i]) < ScanIndex(ps[j])
      {
        if j < |front| {
          assert ps[i] == front[i] && ps[j] == front[j];
        } else {
          assert ps[i] == front[i] && ps[i] in front && ps[j] == q;
        }
      }
    }
  }

  /**
   * The whole-side targets are exactly the occupants of the rectangle owned by the
   * caster (allies) or not owned by the caster (enemies), each once, in row-major order.
   */
  lemma WholeSideTargets(b: Grid, player: PlayerId, kind: TargetKind)
    requires IsGrid(b) && (kind == AllAlliesTarget || kind == AllEnemiesTarget)
    ensures forall p :: p in GetTargets(b, player, kind, None) <==>
      InBounds(p) && !At(b, p).Empty? && (At(b, p).owner == player <==> kind == AllAlliesTarget)
    ensures ScanOrdered(GetTargets(b, player, kind, None))
  {
    SideScanFacts(b, player, kind == AllAlliesTarget, SCAN_SIZE);
    assert GetTargets(b, player, kind, None) == SideScan(b, player, kind == AllAlliesTarget, SCAN_SIZE);
    forall p | InBounds(p)
      ensures ScanIndex(p) < SCAN_SIZE
    {
      ScanIndexPos(p);
    }
  }

  /**
   * Whatever the kind, every cell an ability resolves to is on the grid and occupied,
   * and no cell is listed twice.
   */
  lemma TargetsListed(b: Grid, player: PlayerId, kind: TargetKind, source: Option<Pos>)
    requires IsGrid(b)
    requires kind == SelfTarget || kind == AllyTarget || kind == EnemyTarget ==>
      source.Some? && OnGrid(b, source.value)
    ensures var ps := GetTargets(b, player, kind, source);
      forall i :: 0 <= i < |ps| ==> OnGrid(b, ps[i]) && !At(b, ps[i]).Empty?
    ensures var ps := GetTargets(b, player, kind, source);
      forall i, j :: 0 <= i < j < |ps| ==> ps[i] != ps[j]
  {
    if kind == AllAlliesTarget || kind == AllEnemiesTarget {
      var ps := GetTargets(b, player, kind, source);
      assert ps == GetTargets(b, player, kind, None);
      WholeSideTargets(b, player, kind);
      forall i | 0 <= i < |ps|
        ensures OnGrid(b, ps[i]) && !At(b, ps[i]).Empty?
      {
        assert ps[i] in ps;
        InBoundsOnGrid(b, ps[i]);
      }
    }
  }

  /**
   * A target that passed the check for an ally or an enemy is the one target the
   * ability then resolves to, and it is owned by the side the kind demands.
   */
  lemma CheckedSingleTarget(b: Grid, player: PlayerId, kind: TargetKind, targetPos: Option<Pos>)
    requires IsGrid(b)
    requires targetPos.Some? ==> OnGrid(b, targetPos.value)
    requires kind == AllyTarget || kind == EnemyTarget
    requires ValidateTarget(b, player, kind, targetPos) == TargetOk
    ensures targetPos.Some?
    ensures GetTargets(b, player, kind, targetPos) == [targetPos.value]
    ensures !At(b, targetPos.value).Empty?
    ensures (At(b, targetPos.value).owner == player) == (kind == AllyTarget)
  {
  }

  // ------------------------------------------------------------ area of effect

  /** Row-major order of two cells. */
  predicate Before(p: Pos, q: Pos) {
    p.r < q.r || (p.r == q.r && p.c < q.c)
  }

  /** Cells listed strictly in row-major order (so each at most once). */
  predicate RowMajor(ps: seq<Pos>) {
    forall i, j :: 0 <= i < j < |ps| ==> Before(ps[i], ps[j])
  }

  /** The n cells of row r starting at column c, left to right. */
  function RowSpan(r: int, c: int, n: nat): seq<Pos> {
    seq(n, i requires 0 <= i < n => Pos(r, c + i))
  }

  /** The rows r0 .. r0 + rows - 1 of a block `side` columns wide, row by row. */
  function Block(r0: int, c0: int, side: nat, rows: nat): seq<Pos> {
    if rows == 0 then [] else Block(r0, c0, side, rows - 1) + RowSpan(r0 + rows - 1, c0, side)
  }

  /**
   * The cells an area ability covers: the square of radius floor(areaSize / 2)
   * centred on the target, row by row. A missing size gives a NaN radius and no cell.
   */
  function AffectedArea(center: Pos, areaSize: Option<int>): seq<Pos> {
    if areaSize.None? then []
    else
      var radius := areaSize.value / 2;
      if radius < 0 then []
      else Block(center.r - radius, center.c - radius, 2 * radius + 1, 2 * radius + 1)
  }

  lemma RowSpanMember(r: int, c: int, n: nat, p: Pos)
    ensures p in RowSpan(r, c, n) <==> p.r == r && c <= p.c < c + n
  {
    if p.r == r && c <= p.c < c + n {
      assert RowSpan(r, c, n)[p.c - c] == p;
    }
  }

  lemma RowSpanFacts(r: int, c: int, n: nat)
    ensures |RowSpan(r, c, n)| == n
    ensures forall p :: p in RowSpan(r, c, n) <==> p.r == r && c <= p.c < c + n
    ensures RowMajor(RowSpan(r, c, n))
  {
    forall p: Pos {
      RowSpanMember(r, c, n, p);
    }
  }

  lemma {:induction false} BlockLength(r0: int, c0: int, side: nat, rows: nat)
    ensures |Block(r0, c0, side, rows)| == side * rows
  {
    if rows > 0 {
      BlockLength(r0, c0, side, rows - 1);
      RowSpanFacts(r0 + rows - 1, c0, side);
      assert side * rows == side * (rows - 1) + side;
    }
  }

  lemma {:induction false} BlockMember(r0: int, c0: int, side: nat, rows: nat, p: Pos)
    ensures p in Block(r0, c0, side, rows) <==> r0 <= p.r < r0 + rows && c0 <= p.c < c0 + side
  {
    if rows > 0 {
      var front := Block(r0, c0, side, rows - 1);
      var last := RowSpan(r0 + rows - 1, c0, side);
      BlockMember(r0, c0, side, rows - 1, p);
      RowSpanMember(r0 + rows - 1, c0, side, p);
      assert Block(r0, c0, side, rows) == front + last;
      assert p in Block(r0, c0, side, rows) <==> p in front || p in last;
      assert r0 <= p.r < r0 + rows <==> r0 <= p.r < r0 + rows - 1 || p.r == r0 + rows - 1;
    } else {
      assert Block(r0, c0, side, rows) == [];
    }
  }

  lemma BlockMembers(r0: int, c0: int, side: nat, rows: nat)
    ensures forall p :: p in Block(r0, c0, side, rows) <==> r0 <= p.r < r0 + rows && c0 <= p.c < c0 + side
  {
    forall p: Pos {
      BlockMember(r0, c0, side, rows, p);
    }
  }

  /** Two lists in row-major order, the first wholly before the second, join in row-major order. */
  lemma OrderedJoin(front: seq<Pos>, last: seq<Pos>)
    requires RowMajor(front) && RowMajor(last)
    requires forall i, j :: 0 <= i < |front| && 0 <= j < |last| ==> Before(front[i], last[j])
    ensures RowMajor(front + last)
  {
    var ps := front + last;
    forall i, j | 0 <= i < j < |ps|
      ensures Before(ps[i], ps[j])
    {
      if j < |front| {
        assert ps[i] == front[i] && ps[j] == front[j];
      } else if i >= |front| {
        assert ps[i] == last[i - |front|] && ps[j] == last[j - |front|];
      } else {
        assert ps[i] == front[i] && ps[j] == last[j - |front|];
      }
    }
  }

  lemma {:induction false} BlockOrder(r0: int, c0: int, side: nat, rows: nat)
    ensures RowMajor(Block(r0, c0, side, rows))
  {
    if rows > 0 {
      BlockOrder(r0, c0, side, rows - 1);
      BlockMembers(r0, c0, side, rows - 1);
      RowSpanFacts(r0 + rows - 1, c0, side);
      var front := Block(r0, c0, side, rows - 1);
      var last := RowSpan(r0 + rows - 1, c0, side);
      forall i, j | 0 <= i < |front| && 0 <= j < |last|
        ensures Before(front[i], last[j])
      {
        assert front[i] in front && last[j] in last;
      }
      OrderedJoin(front, last);
    }
  }

  /**
   * The area of a present, non-negative size s covers exactly the (2 * floor(s / 2) + 1)^2
   * cells within Chebyshev distance floor(s / 2) of the centre, each once, in row-major order.
   */
  lemma AffectedAreaSquare(center: Pos, s: int)
    requires s >= 0
    ensures |AffectedArea(center, Some(s))| == (2 * (s / 2) + 1) * (2 * (s / 2) + 1)
    ensures forall p :: p in AffectedArea(center, Some(s)) <==>
      Abs(p.r - center.r) <= s / 2 && Abs(p.c - center.c) <= s / 2
    ensures RowMajor(AffectedArea(center, Some(s)))
  {
    var radius := s / 2;
    var side := 2 * radius + 1;
    var r0, c0 := center.r - radius, center.c - radius;
    assert AffectedArea(center, Some(s)) == Block(r0, c0, side, side);
    BlockLength(r0, c0, side, side);
    BlockMembers(r0, c0, side, side);
    BlockOrder(r0, c0, side, side);
    forall p: Pos
      ensures (r0 <= p.r < r0 + side && c0 <= p.c < c0 + side) <==>
        (Abs(p.r - center.r) <= radius && Abs(p.c - center.c) <= radius)
    {
    }
  }

  /** A negative or missing size covers nothing. */
  lemma AffectedAreaEmpty(center: Pos, areaSize: Option<int>)
    requires areaSize.None? || areaSize.value < 0
    ensures AffectedArea(center, areaSize) == []
  {
  }

  /** The part of a list of cells inside the BOARD_HEIGHT x BOARD_WIDTH rectangle, in order. */
  function InBoundsOnly(ps: seq<Pos>): (qs: seq<Pos>)
    ensures forall p :: p in qs <==> p in ps && InBounds(p)
  {
    if |ps| == 0 then []
    else InBoundsOnly(ps[..|ps| - 1]) + (if InBounds(ps[|ps| - 1]) then [ps[|ps| - 1]] else [])
  }
}
