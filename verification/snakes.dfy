/**
 * One snake (class `Snake`, main.py:56-111): its body, the committed and the
 * next direction, the bounded queue of pending turns, and whether it lives.
 * The source's `player_id` is not a field here: snakes are kept in a
 * `Pair` indexed by slot.
 */
module Snakes {
  import opened Board

  /** At most this many turns wait in the queue (main.py:76). */
  const MaxQueue: int := 3

  /** A body always has a head: it starts with one cell and never shrinks. */
  type Body = b: seq<Cell> | |b| > 0 witness [Cell(0, 0)]

  datatype Snake = Snake(body: Body, direction: Dir, nextDirection: Dir, queue: seq<Dir>, alive: bool) {
    function Head(): Cell {
      body[0]
    }
  }

  /** A snake as the constructor builds it: one cell, facing `d`, nothing queued, alive. */
  function NewSnake(start: Cell, d: Dir): (s: Snake)
    ensures Valid(s) && s.alive
    ensures s.Head() == start && |s.body| == 1 && s.direction == d
    ensures s.nextDirection == d && s.queue == []
  {
    Snake([start], d, d, [], true)
  }

  /** A turn that is neither straight on nor a reversal of `a`. */
  predicate Perpendicular(a: Dir, b: Dir) {
    b != a && b != Opposite(a)
  }

  /** Each queued turn is perpendicular to the one queued before it. */
  predicate Chained(q: seq<Dir>) {
    forall i :: 0 < i < |q| ==> Perpendicular(q[i - 1], q[i])
  }

  /**
   * What holds of every snake between ticks: the queue is within its cap,
   * consecutive queued turns are perpendicular, and the next direction is
   * the committed one.
   */
  predicate Valid(s: Snake) {
    |s.queue| <= MaxQueue && Chained(s.queue) && s.nextDirection == s.direction
  }

  /** The direction a new turn is compared with: the newest queued one, else `next_direction`. */
  function LastQueued(s: Snake): Dir {
    if |s.queue| > 0 then s.queue[|s.queue| - 1] else s.nextDirection
  }

  /**
   * `queue_direction` (main.py:68-77): a turn is queued only when it is
   * perpendicular to the last queued direction; the queue then keeps its
   * three newest entries.
   */
  function QueueDirection(s: Snake, d: Dir): (s': Snake)
    ensures !Perpendicular(LastQueued(s), d) ==> s' == s
    ensures Perpendicular(LastQueued(s), d) && |s.queue| < MaxQueue ==> s'.queue == s.queue + [d]
    ensures Perpendicular(LastQueued(s), d) && |s.queue| == MaxQueue ==> s'.queue == s.queue[1..] + [d]
    ensures s'.(queue := s.queue) == s
    ensures Valid(s) ==> Valid(s')
  {
    var last := LastQueued(s);
    if Opposite(d) != last && d != last then
      var q := s.queue + [d];
      s.(queue := if |q| > MaxQueue then q[1..] else q)
    else
      s
  }

  /** Feeds a run of `move` messages to the snake, oldest first. */
  function QueueAll(s: Snake, ds: seq<Dir>): Snake
    decreases |ds|
  {
    if |ds| == 0 then s else QueueAll(QueueDirection(s, ds[0]), ds[1..])
  }

  /** However many turns arrive, the queue never holds more than three. */
  lemma {:induction false} QueueAllStaysValid(s: Snake, ds: seq<Dir>)
    requires Valid(s)
    ensures Valid(QueueAll(s, ds))
    ensures |QueueAll(s, ds).queue| <= MaxQueue
    ensures QueueAll(s, ds).direction == s.direction && QueueAll(s, ds).body == s.body
    decreases |ds|
  {
    if |ds| > 0 {
      QueueAllStaysValid(QueueDirection(s, ds[0]), ds[1..]);
    }
  }

  /**
   * `process_input` (main.py:79-85): consumes the oldest queued turn and
   * adopts it as the next direction unless it reverses the committed one.
   */
  function ProcessInput(s: Snake): (s': Snake)
    ensures |s.queue| > 0 ==> s'.queue == s.queue[1..]
    ensures |s.queue| == 0 ==> s' == s
    ensures |s.queue| > 0 && Opposite(s.queue[0]) != s.direction ==> s'.nextDirection == s.queue[0]
    ensures |s.queue| > 0 && Opposite(s.queue[0]) == s.direction ==> s'.nextDirection == s.nextDirection
    ensures s'.nextDirection != Opposite(s.direction) || s'.nextDirection == s.nextDirection
    ensures s'.(queue := s.queue, nextDirection := s.nextDirection) == s
  {
    if |s.queue| > 0 then
      var d := s.queue[0];
      s.(queue := s.queue[1..], nextDirection := if Opposite(d) != s.direction then d else s.nextDirection)
    else
      s
  }

  /**
   * `get_next_head` (main.py:87-100): where the head goes next, peeking at
   * the oldest queued turn without consuming it.
   */
  function NextHead(s: Snake): (c: Cell)
    ensures Valid(s) ==> c != Step(s.Head(), Opposite(s.direction))
  {
    var d :=
      if |s.queue| > 0 && Opposite(s.queue[0]) != s.direction then s.queue[0]
      else s.nextDirection;
    StepInjective(s.Head(), d, Opposite(s.direction));
    Step(s.Head(), d)
  }

  /**
   * `move` (main.py:102-111): processes one input, commits the direction,
   * pushes the new head and drops the tail unless the snake grows.
   */
  function Move(s: Snake, grow: bool): (s': Snake)
    ensures s'.Head() == NextHead(s)
    ensures grow ==> s'.body[1..] == s.body
    ensures !grow ==> s'.body[1..] == s.body[..|s.body| - 1]
    ensures |s'.body| == |s.body| + (if grow then 1 else 0)
    ensures s'.queue == if |s.queue| > 0 then s.queue[1..] else s.queue
    ensures s'.alive == s.alive
    ensures Valid(s) ==> Valid(s') && s'.direction != Opposite(s.direction)
  {
    var t := ProcessInput(s);
    var t' := t.(direction := t.nextDirection);
    var head := Step(t'.Head(), t'.direction);
    var body := [head] + t'.body;
    assert t'.body == s.body && body[1..] == s.body;
    assert |s.body| > 0 ==> body[..|body| - 1][1..] == s.body[..|s.body| - 1];
    t'.(body := if grow then body else body[..|body| - 1])
  }

  /**
   * Turn overflow can leave a reversal at the front of the queue: a snake
   * facing right that is sent up, left, down, right keeps [left, down, right].
   * The consume-time guard then refuses the reversal and the snake goes on
   * to the right.
   */
  lemma OverflowReversalIsRefused()
    ensures var s := QueueAll(NewSnake(Cell(5, 10), Right), [Up, Left, Down, Right]);
            && s.queue == [Left, Down, Right]
            && s.queue[0] == Opposite(s.direction)
            && Move(s, false).direction == Right
            && Move(s, false).Head() == Cell(6, 10)
  {
  }
}
