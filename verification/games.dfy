/**
 * The per-tick game engine (class `Game`, main.py:122-189): two snakes on the
 * grid, an optional food cell, a running flag and the winner. The source's
 * `random.choice` is replaced by a `pick` argument: the food goes to
 * `free[pick % |free|]`, so any free cell can be chosen and nothing else can.
 */
module Games {
  import opened Wrappers
  import opened Board
  import opened Snakes

  datatype Game = Game(snakes: Pair<Snake>, food: Option<Cell>, running: bool, winner: Option<Slot>)

  /** Starting cells (main.py:129-130): (5, 10) and (24, 10). */
  const Start1: Cell := Cell(5, Height / 2)
  const Start2: Cell := Cell(Width - 6, Height / 2)

  /** Every cell covered by either snake, dead or alive. */
  function Occupied(g: Game): set<Cell> {
    Cells(g.snakes.one.body) + Cells(g.snakes.two.body)
  }

  /** Food never lies on a snake. */
  predicate FoodFree(g: Game) {
    g.food.Some? ==> InGrid(g.food.value) && g.food.value !in Occupied(g)
  }

  /**
   * `spawn_food` (main.py:137-148): puts the food on a free in-grid cell, or
   * leaves it where it was when there is none.
   */
  function SpawnFood(g: Game, pick: nat): (g': Game)
    ensures g'.(food := g.food) == g
    ensures |FreeCells(Occupied(g))| > 0 ==> g'.food.Some? && InGrid(g'.food.value) && g'.food.value !in Occupied(g)
    ensures |FreeCells(Occupied(g))| == 0 ==> g' == g
  {
    var free := FreeCells(Occupied(g));
    if |free| > 0 then g.(food := Some(free[pick % |free|])) else g
  }

  lemma SmallRemainder(k: nat, n: nat)
    requires k < n
    ensures k % n == k
  {
  }

  /** Whatever free cell `random.choice` would return, some pick returns it too. */
  lemma SpawnFoodReachesEveryFreeCell(g: Game, c: Cell)
    requires InGrid(c) && c !in Occupied(g)
    ensures exists pick: nat :: SpawnFood(g, pick).food == Some(c)
  {
    var free := FreeCells(Occupied(g));
    assert c in free;
    var k :| 0 <= k < |free| && free[k] == c;
    SmallRemainder(k, |free|);
    assert SpawnFood(g, k).food == Some(c);
  }

  /** `Game()` and `reset` (main.py:123-135): fresh snakes, no winner, not running, food spawned. */
  function NewGame(pick: nat): (g: Game)
    ensures g.snakes.one == NewSnake(Cell(5, 10), Right)
    ensures g.snakes.two == NewSnake(Cell(24, 10), Left)
    ensures !g.running && g.winner.None?
    ensures g.food.Some? && FoodFree(g)
  {
    var g0 := Game(Pair(NewSnake(Start1, Right), NewSnake(Start2, Left)), None, false, None);
    RoomForFood(g0);
    SpawnFood(g0, pick)
  }

  lemma RoomForFood(g: Game)
    requires |g.snakes.one.body| + |g.snakes.two.body| < CellCount
    ensures |FreeCells(Occupied(g))| > 0
  {
    FreeCellExists(Occupied(g));
  }

  /** A game that `start_game` has just created (main.py:350-351). */
  function StartedGame(pick: nat): (g: Game)
    ensures g.running && g.winner.None? && FoodFree(g)
    ensures g.snakes.one.alive && g.snakes.two.alive
  {
    NewGame(pick).(running := true)
  }

  /**
   * One pass of the movement loop (main.py:154-163) for the snake in `slot`:
   * a living snake moves, growing iff its peeked head is the food, and the
   * food is respawned at once after it is eaten.
   */
  function MoveStep(g: Game, slot: Slot, pick: nat): (g': Game)
    ensures g'.running == g.running && g'.winner == g.winner
    ensures g'.snakes.Get(Other(slot)) == g.snakes.Get(Other(slot))
    ensures !g.snakes.Get(slot).alive ==> g' == g
    ensures g.snakes.Get(slot).alive ==>
      && g'.snakes.Get(slot).alive
      && g'.snakes.Get(slot).Head() == NextHead(g.snakes.Get(slot))
      && (|g'.snakes.Get(slot).body| == |g.snakes.Get(slot).body| + 1 <==> g.food == Some(NextHead(g.snakes.Get(slot))))
      && (g.food != Some(NextHead(g.snakes.Get(slot))) ==> g'.food == g.food)
  {
    var s := g.snakes.Get(slot);
    if !s.alive then g
    else
      var grow := g.food == Some(NextHead(s));
      var moved := g.(snakes := g.snakes.Set(slot, Move(s, grow)));
      if grow then SpawnFood(moved, pick) else moved
  }

  /** A living snake is moved by `move`, with or without growth; a dead one is left alone. */
  lemma MoveStepMoves(g: Game, slot: Slot, pick: nat)
    ensures var s, s' := g.snakes.Get(slot), MoveStep(g, slot, pick).snakes.Get(slot);
            s.alive ==> s' == Move(s, true) || s' == Move(s, false)
  {
  }

  /**
   * The movement phase (main.py:154-163): snake 1, then snake 2, each seeing
   * the food the other left. Living snakes move onto their peeked heads;
   * nobody dies here.
   */
  function MovePhase(g: Game, pick1: nat, pick2: nat): (g': Game)
    ensures forall t: Slot :: g'.snakes.Get(t).alive == g.snakes.Get(t).alive
    ensures forall t: Slot :: !g.snakes.Get(t).alive ==> g'.snakes.Get(t) == g.snakes.Get(t)
    ensures forall t: Slot :: g.snakes.Get(t).alive ==> g'.snakes.Get(t).Head() == NextHead(g.snakes.Get(t))
    ensures g'.running == g.running && g'.winner == g.winner
  {
    MoveStep(MoveStep(g, 1, pick1), 2, pick2)
  }

  /** In the movement phase every living snake makes one `move`; the dead stay put. */
  lemma MovePhaseMoves(g: Game, pick1: nat, pick2: nat, t: Slot)
    ensures var s, s' := g.snakes.Get(t), MovePhase(g, pick1, pick2).snakes.Get(t);
            && (s.alive ==> s' == Move(s, true) || s' == Move(s, false))
            && (!s.alive ==> s' == s)
  {
    var m1 := MoveStep(g, 1, pick1);
    MoveStepMoves(g, 1, pick1);
    MoveStepMoves(m1, 2, pick2);
  }

  /** The three death causes of main.py:170-180, judged on the moved bodies. */
  predicate Crashed(s: Snake, other: Snake) {
    || !InGrid(s.Head())
    || s.Head() in s.body[1..]
    || s.Head() in other.body
  }

  /** A living snake that crashed dies; a dead one stays dead. */
  function Judge(s: Snake, other: Snake): (s': Snake)
    ensures s'.alive <==> s.alive && !Crashed(s, other)
    ensures s'.(alive := s.alive) == s
  {
    if s.alive && Crashed(s, other) then s.(alive := false) else s
  }

  /**
   * The collision phase (main.py:166-180): both snakes are judged against
   * the same moved bodies; a living snake survives exactly when it crashed
   * into nothing, and only the alive flags change.
   */
  function CollidePhase(g: Game): (g': Game)
    ensures forall t: Slot :: g'.snakes.Get(t).alive <==> g.snakes.Get(t).alive && !Crashed(g.snakes.Get(t), g.snakes.Get(Other(t)))
    ensures forall t: Slot :: g'.snakes.Get(t).(alive := g.snakes.Get(t).alive) == g.snakes.Get(t)
    ensures g'.(snakes := g.snakes) == g
  {
    g.(snakes := Pair(Judge(g.snakes.one, g.snakes.two), Judge(g.snakes.two, g.snakes.one)))
  }

  function LiveCount(g: Game): nat {
    (if g.snakes.one.alive then 1 else 0) + (if g.snakes.two.alive then 1 else 0)
  }

  /** The game-over check (main.py:183-189). */
  function Settle(g: Game): (g': Game)
    ensures g'.snakes == g.snakes && g'.food == g.food
    ensures LiveCount(g) <= 1 ==> !g'.running
    ensures LiveCount(g) <= 1 ==> forall t: Slot :: g'.winner == Some(t) <==> g.snakes.Get(t).alive
    ensures LiveCount(g) > 1 ==> g' == g
  {
    if LiveCount(g) <= 1 then
      g.(running := false, winner := if g.snakes.one.alive then Some(1) else if g.snakes.two.alive then Some(2) else None)
    else g
  }

  /**
   * `update` (main.py:150-189): nothing happens unless the game runs; then
   * the living snakes move, the crashed ones die, and the game ends once at
   * most one snake is left, the survivor (if any) being the winner.
   */
  function Update(g: Game, pick1: nat, pick2: nat): (g': Game)
    ensures !g.running ==> g' == g
    ensures forall t: Slot :: g'.snakes.Get(t).alive ==> g.snakes.Get(t).alive
    ensures forall t: Slot :: !g.snakes.Get(t).alive ==> g'.snakes.Get(t) == g.snakes.Get(t)
    ensures g.running ==> (!g'.running <==> LiveCount(g') <= 1)
    ensures g.running && !g'.running ==> forall t: Slot :: g'.winner == Some(t) <==> g'.snakes.Get(t).alive
    ensures g.running && g'.running ==> g'.winner == g.winner
    ensures g.running ==> forall t: Slot :: g.snakes.Get(t).alive ==>
      (g'.snakes.Get(t).alive <==>
         !Crashed(MovePhase(g, pick1, pick2).snakes.Get(t), MovePhase(g, pick1, pick2).snakes.Get(Other(t))))
    ensures g.running ==> forall t: Slot :: g.snakes.Get(t).alive ==>
      && g'.snakes.Get(t).Head() == NextHead(g.snakes.Get(t))
      && |g.snakes.Get(t).body| <= |g'.snakes.Get(t).body| <= |g.snakes.Get(t).body| + 1
  {
    if !g.running then g
    else Settle(CollidePhase(MovePhase(g, pick1, pick2)))
  }

  /**
   * What holds of every game the server builds and updates: both snakes are
   * well formed, and a running game has two living snakes and no winner.
   */
  predicate Consistent(g: Game) {
    && Valid(g.snakes.one) && Valid(g.snakes.two)
    && (g.running ==> g.snakes.one.alive && g.snakes.two.alive && g.winner.None?)
  }

  lemma MoveStepKeepsValid(g: Game, slot: Slot, pick: nat)
    requires Valid(g.snakes.one) && Valid(g.snakes.two)
    ensures Valid(MoveStep(g, slot, pick).snakes.one) && Valid(MoveStep(g, slot, pick).snakes.two)
  {
  }

  /** Fresh and started games are consistent, and `update` keeps them so. */
  lemma UpdateKeepsConsistent(g: Game, pick1: nat, pick2: nat)
    requires Consistent(g)
    ensures Consistent(Update(g, pick1, pick2))
    ensures Consistent(NewGame(pick1)) && Consistent(StartedGame(pick1))
  {
    if g.running {
      MoveStepKeepsValid(g, 1, pick1);
      MoveStepKeepsValid(MoveStep(g, 1, pick1), 2, pick2);
    }
  }

  /** The moved body of the snake in `slot` still covers its old body minus the tail cell. */
  lemma MovePhaseKeepsBodyPrefix(g: Game, pick1: nat, pick2: nat, t: Slot, c: Cell)
    requires c in g.snakes.Get(t).body[..|g.snakes.Get(t).body| - 1]
    ensures c in MovePhase(g, pick1, pick2).snakes.Get(t).body
    ensures g.snakes.Get(t).alive ==> c in MovePhase(g, pick1, pick2).snakes.Get(t).body[1..]
  {
    var s := g.snakes.Get(t);
    var s' := MovePhase(g, pick1, pick2).snakes.Get(t);
    MovePhaseMoves(g, pick1, pick2, t);
    assert c in s.body;
    if s.alive {
      MovedBodyKeepsPrefix(s, s', c);
    }
  }

  lemma MovedBodyKeepsPrefix(s: Snake, s': Snake, c: Cell)
    requires s' == Move(s, true) || s' == Move(s, false)
    requires c in s.body[..|s.body| - 1]
    ensures c in s'.body[1..] && c in s'.body
  {
    if s' == Move(s, true) {
      assert c in s.body;
    }
    assert s'.body == [s'.body[0]] + s'.body[1..];
  }

  lemma MovePhaseHeads(g: Game, pick1: nat, pick2: nat, t: Slot)
    requires g.snakes.Get(t).alive
    ensures MovePhase(g, pick1, pick2).snakes.Get(t).Head() == NextHead(g.snakes.Get(t))
    ensures MovePhase(g, pick1, pick2).snakes.Get(t).alive
  {
  }

  /**
   * Two living snakes whose peeked heads meet both die in that tick, and the
   * game ends in a draw (main.py:179-180, 186-189).
   */
  lemma HeadOnCollisionIsDraw(g: Game, pick1: nat, pick2: nat)
    requires g.running && g.snakes.one.alive && g.snakes.two.alive
    requires NextHead(g.snakes.one) == NextHead(g.snakes.two)
    ensures var g' := Update(g, pick1, pick2);
            !g'.snakes.one.alive && !g'.snakes.two.alive && !g'.running && g'.winner.None?
  {
    var m := MovePhase(g, pick1, pick2);
    MovePhaseHeads(g, pick1, pick2, 1);
    MovePhaseHeads(g, pick1, pick2, 2);
    assert m.snakes.one.Head() in m.snakes.two.body;
    assert m.snakes.two.Head() in m.snakes.one.body;
  }

  /** A living snake whose peeked head is off the grid dies in that tick (main.py:171-172). */
  lemma WallKills(g: Game, pick1: nat, pick2: nat, t: Slot)
    requires g.running && g.snakes.Get(t).alive
    requires !InGrid(NextHead(g.snakes.Get(t)))
    ensures !Update(g, pick1, pick2).snakes.Get(t).alive
  {
    MovePhaseHeads(g, pick1, pick2, t);
  }

  /**
   * A living snake whose peeked head lands on a cell of a body other than
   * its tail, its own or the opponent's, dies in that tick (main.py:174-180).
   * A dead snake does not move, so every cell of its body blocks, tail included.
   */
  lemma BodyKills(g: Game, pick1: nat, pick2: nat, t: Slot, u: Slot)
    requires g.running && g.snakes.Get(t).alive
    requires || NextHead(g.snakes.Get(t)) in g.snakes.Get(u).body[..|g.snakes.Get(u).body| - 1]
             || (!g.snakes.Get(u).alive && NextHead(g.snakes.Get(t)) in g.snakes.Get(u).body)
    ensures !Update(g, pick1, pick2).snakes.Get(t).alive
  {
    var m := MovePhase(g, pick1, pick2);
    MovePhaseHeads(g, pick1, pick2, t);
    var h := m.snakes.Get(t).Head();
    if !g.snakes.Get(u).alive {
      assert u != t && m.snakes.Get(u) == g.snakes.Get(u);
    } else {
      MovePhaseKeepsBodyPrefix(g, pick1, pick2, u, NextHead(g.snakes.Get(t)));
      if u == t {
        assert h in m.snakes.Get(t).body[1..];
      } else {
        assert h in m.snakes.Get(u).body;
      }
    }
    assert Crashed(m.snakes.Get(t), m.snakes.Get(Other(t)));
  }

  /**
   * The tail of an opponent that eats in this tick stays where it was, so a
   * snake heading onto it dies (main.py:157-163, 178-180).
   */
  lemma GrownTailKills(g: Game, pick1: nat, pick2: nat, t: Slot)
    requires g.running && g.snakes.Get(t).alive && g.snakes.Get(Other(t)).alive
    requires g.food == Some(NextHead(g.snakes.Get(Other(t))))
    requires NextHead(g.snakes.Get(t)) == g.snakes.Get(Other(t)).body[|g.snakes.Get(Other(t)).body| - 1]
    ensures !Update(g, pick1, pick2).snakes.Get(t).alive
  {
    var u := Other(t);
    var m := MovePhase(g, pick1, pick2);
    var h := NextHead(g.snakes.Get(t));
    var mu := m.snakes.Get(u);
    assert mu.body == [mu.Head()] + mu.body[1..];
    if h != NextHead(g.snakes.Get(u)) {
      EaterGrows(g, pick1, pick2, u);
      assert h in g.snakes.Get(u).body;
      assert h in mu.body[1..];
    }
    assert h in mu.body;
    assert Crashed(m.snakes.Get(t), m.snakes.Get(Other(t)));
  }

  /**
   * A living snake whose peeked head holds the food grows in the movement
   * phase, unless the other snake eats that food first.
   */
  lemma EaterGrows(g: Game, pick1: nat, pick2: nat, u: Slot)
    requires g.snakes.Get(u).alive && g.food == Some(NextHead(g.snakes.Get(u)))
    requires g.snakes.Get(Other(u)).alive ==> NextHead(g.snakes.Get(Other(u))) != NextHead(g.snakes.Get(u))
    ensures MovePhase(g, pick1, pick2).snakes.Get(u).body[1..] == g.snakes.Get(u).body
  {
    var first := MoveStep(g, 1, pick1);
    if u == 1 {
      assert first.snakes.Get(u) == Move(g.snakes.Get(u), true);
    } else {
      assert first.food == g.food;
      assert first.snakes.Get(u) == g.snakes.Get(u);
      assert MovePhase(g, pick1, pick2).snakes.Get(u) == Move(g.snakes.Get(u), true);
    }
  }

  /**
   * The survival half of the collision rule, stated before the tick: a
   * living snake whose peeked head is on the grid, off every body, and not
   * where a living opponent's head is going, stays alive.
   */
  lemma ClearPathSurvives(g: Game, pick1: nat, pick2: nat, t: Slot)
    requires g.running && g.snakes.Get(t).alive
    requires InGrid(NextHead(g.snakes.Get(t)))
    requires NextHead(g.snakes.Get(t)) !in g.snakes.Get(t).body
    requires NextHead(g.snakes.Get(t)) !in g.snakes.Get(Other(t)).body
    requires g.snakes.Get(Other(t)).alive ==> NextHead(g.snakes.Get(t)) != NextHead(g.snakes.Get(Other(t)))
    ensures Update(g, pick1, pick2).snakes.Get(t).alive
  {
    var u := Other(t);
    var m := MovePhase(g, pick1, pick2);
    var h := NextHead(g.snakes.Get(t));
    MovePhaseMoves(g, pick1, pick2, t);
    MovePhaseMoves(g, pick1, pick2, u);
    var mt, mu := m.snakes.Get(t), m.snakes.Get(u);
    assert forall c :: c in mt.body[1..] ==> c in g.snakes.Get(t).body;
    if g.snakes.Get(u).alive {
      assert mu.body == [NextHead(g.snakes.Get(u))] + mu.body[1..];
      assert forall c :: c in mu.body[1..] ==> c in g.snakes.Get(u).body;
    }
    assert h !in mu.body;
    assert !Crashed(mt, mu);
  }

  /**
   * From the starting position with no input, one tick puts the heads on
   * (6, 10) and (23, 10); both snakes live and the game goes on, wherever
   * the food was.
   */
  lemma FirstTickFromStart(pick0: nat, pick1: nat, pick2: nat)
    ensures var g' := Update(StartedGame(pick0), pick1, pick2);
            && g'.snakes.one.Head() == Cell(6, 10) && g'.snakes.two.Head() == Cell(23, 10)
            && g'.snakes.one.alive && g'.snakes.two.alive && g'.running
  {
    FirstTickFromStartingSnakes(StartedGame(pick0), pick1, pick2);
  }

  lemma FirstTickFromStartingSnakes(g: Game, pick1: nat, pick2: nat)
    requires g.running
    requires g.snakes == Pair(NewSnake(Cell(5, 10), Right), NewSnake(Cell(24, 10), Left))
    ensures var g' := Update(g, pick1, pick2);
            && g'.snakes.one.Head() == Cell(6, 10) && g'.snakes.two.Head() == Cell(23, 10)
            && g'.snakes.one.alive && g'.snakes.two.alive && g'.running
  {
    var m := MovePhase(g, pick1, pick2);
    MovePhaseMoves(g, pick1, pick2, 1);
    MovePhaseMoves(g, pick1, pick2, 2);
    FirstMoveSurvives(g.snakes.one, g.snakes.two, m.snakes.one, m.snakes.two);
  }

  lemma FirstMoveSurvives(s1: Snake, s2: Snake, t1: Snake, t2: Snake)
    requires s1 == NewSnake(Cell(5, 10), Right) && s2 == NewSnake(Cell(24, 10), Left)
    requires t1 == Move(s1, true) || t1 == Move(s1, false)
    requires t2 == Move(s2, true) || t2 == Move(s2, false)
    ensures t1.Head() == Cell(6, 10) && t2.Head() == Cell(23, 10)
    ensures !Crashed(t1, t2) && !Crashed(t2, t1) && t1.alive && t2.alive
  {
    assert t1.body == [t1.Head()] + t1.body[1..];
    assert t2.body == [t2.Head()] + t2.body[1..];
  }

  /** Both bodies together have fewer than 600 cells, even after one of them grows. */
  predicate RoomToGrow(g: Game) {
    |g.snakes.one.body| + |g.snakes.two.body| + 2 < CellCount
  }

  lemma OccupiedSize(g: Game)
    ensures |Occupied(g)| <= |g.snakes.one.body| + |g.snakes.two.body|
  {
  }

  lemma MoveStepKeepsFoodFree(g: Game, slot: Slot, pick: nat)
    requires FoodFree(g)
    requires |g.snakes.one.body| + |g.snakes.two.body| + 1 < CellCount
    ensures FoodFree(MoveStep(g, slot, pick))
  {
    var s := g.snakes.Get(slot);
    if s.alive {
      var grow := g.food == Some(NextHead(s));
      var s' := Move(s, grow);
      var moved := g.(snakes := g.snakes.Set(slot, s'));
      if grow {
        OccupiedSize(moved);
        FreeCellExists(Occupied(moved));
      } else if g.food.Some? {
        var f := g.food.value;
        assert f != s'.Head();
        assert s'.body == [s'.Head()] + s'.body[1..];
        assert f !in s.body;
        assert f !in s'.body[1..];
        assert f !in Occupied(moved);
      }
    }
  }

  /**
   * While the snakes leave room on the board, food never lies on a snake:
   * an eaten food is respawned on a free cell, and a head that does not land
   * on the food leaves it uncovered. (On a full board `spawn_food` leaves the
   * eaten food where it was, under the snake's head.)
   */
  lemma UpdateKeepsFoodFree(g: Game, pick1: nat, pick2: nat)
    requires FoodFree(g) && RoomToGrow(g)
    ensures FoodFree(Update(g, pick1, pick2))
  {
    if g.running {
      MoveStepKeepsFoodFree(g, 1, pick1);
      var m1 := MoveStep(g, 1, pick1);
      assert |m1.snakes.one.body| <= |g.snakes.one.body| + 1;
      MoveStepKeepsFoodFree(m1, 2, pick2);
      var m := MoveStep(m1, 2, pick2);
      assert Occupied(Update(g, pick1, pick2)) == Occupied(m);
    }
  }
}
