/**
  The snake simulation: the game state, one tick, one frame (key handling
  followed by a tick when one is due and the snake is alive), a run of
  frames, and the `Game` object whose methods update that state in place.
 */
module Snake {
  import opened Grid

  /**
    The game state. `snake` is the deque, head first; `leaks` is the list of
    per-food allocations, each holding the snake's length at the moment that
    food was eaten, so its length is the number of foods eaten (the score).
   */
  datatype State = State(snake: seq<Cell>, dir: Cell, food: Cell, alive: bool, leaks: seq<int>)

  /** One frame's inputs: the keys, whether a tick is due, and the cell the RNG would draw for food. */
  datatype Frame = Frame(keys: Keys, due: bool, next: Cell)

  /** No cell occurs twice: each cell is absent from the cells after it. */
  predicate NoRepeats(s: seq<Cell>) {
    s == [] || (s[0] !in s[1..] && NoRepeats(s[1..]))
  }

  /** Dropping the tail keeps the cells distinct. */
  lemma {:induction false} NoRepeatsDropLast(s: seq<Cell>)
    requires NoRepeats(s) && |s| > 0
    ensures NoRepeats(s[..|s| - 1])
  {
    if |s| > 1 {
      var t := s[..|s| - 1];
      assert t[0] == s[0] && t[1..] == s[1..][..|s| - 2];
      NoRepeatsDropLast(s[1..]);
    }
  }

  predicate AllInGrid(s: seq<Cell>) {
    forall i :: 0 <= i < |s| ==> InGrid(s[i])
  }

  /**
    What holds of every reachable state: the snake is non-empty and on the
    grid, one cell longer than the number of foods eaten, the i-th food was
    eaten when the snake grew to i + 2 cells, the direction is a unit vector,
    the food is on the grid, and a living snake never overlaps itself.
   */
  predicate Inv(s: State) {
    && |s.snake| >= 1
    && AllInGrid(s.snake)
    && IsUnit(s.dir)
    && InGrid(s.food)
    && |s.snake| == |s.leaks| + 1
    && Receipts(s.leaks)
    && (s.alive ==> NoRepeats(s.snake))
  }

  /** The i-th per-food allocation recorded a snake of i + 2 cells. */
  predicate Receipts(leaks: seq<int>) {
    forall i :: 0 <= i < |leaks| ==> leaks[i] == i + 2
  }

  predicate FramesInGrid(fs: seq<Frame>) {
    forall i :: 0 <= i < |fs| ==> InGrid(fs[i].next)
  }

  /** The state at start-up: one cell in the middle of the grid, moving right. */
  function Initial(food: Cell): (s: State)
    requires InGrid(food)
    ensures Inv(s) && s.alive && |s.snake| == 1 && s.leaks == []
  {
    State([Cell(W / 2, H / 2)], Right, food, true, [])
  }

  /**
    One tick of a living snake: compute the wrapped new head, detect a
    self-collision against the old body, push the head unconditionally,
    then grow and relocate the food if still alive and on the food, or drop
    the tail otherwise.
   */
  function TickSpec(s: State, next: Cell): (t: State)
    requires Inv(s) && s.alive && InGrid(next)
    ensures Inv(t)
    ensures t.dir == s.dir
    ensures var head := NextHead(s.snake[0], s.dir);
      && InGrid(head)
      && (!t.alive <==> head in s.snake)
      && (var ate := t.alive && head == s.food;
          && |t.snake| == |s.snake| + (if ate then 1 else 0)
          && t.snake == [head] + (if ate then s.snake else s.snake[..|s.snake| - 1])
          && t.food == (if ate then next else s.food)
          && t.leaks == (if ate then s.leaks + [|t.snake|] else s.leaks))
  {
    var head := NextHead(s.snake[0], s.dir);
    var alive := head !in s.snake;
    var pushed := [head] + s.snake;
    if alive && head == s.food then
      State(pushed, s.dir, next, alive, s.leaks + [|pushed|])
    else
      var t := State(pushed[..|pushed| - 1], s.dir, s.food, alive, s.leaks);
      assert t.snake == [head] + s.snake[..|s.snake| - 1];
      if alive then
        assert pushed[1..] == s.snake;
        NoRepeatsDropLast(pushed);
        t
      else t
  }

  /** One frame: the keys turn the snake, then a due tick runs only while alive. */
  function FrameSpec(s: State, f: Frame): (t: State)
    requires Inv(s) && InGrid(f.next)
    ensures Inv(t)
    ensures t.dir == ApplyKeys(s.dir, f.keys)
    ensures t.alive ==> s.alive
    ensures !s.alive || !f.due ==>
              t.snake == s.snake && t.food == s.food && t.alive == s.alive && t.leaks == s.leaks
    ensures s.leaks <= t.leaks && |t.leaks| <= |s.leaks| + 1
    ensures s.alive && f.due ==> t == TickSpec(s.(dir := ApplyKeys(s.dir, f.keys)), f.next)
  {
    var turned := s.(dir := ApplyKeys(s.dir, f.keys));
    assert Inv(turned);
    if turned.alive && f.due then
      var t := TickSpec(turned, f.next);
      assert Inv(t);
      assert turned.leaks <= t.leaks;
      t
    else turned
  }

  /** A sequence of frames applied in order: the state after the last frame. */
  function Run(s: State, fs: seq<Frame>): (t: State)
    requires Inv(s) && FramesInGrid(fs)
    ensures Inv(t)
    ensures t.alive ==> s.alive
    ensures !s.alive ==> !t.alive && t.snake == s.snake && t.food == s.food && t.leaks == s.leaks
    ensures s.leaks <= t.leaks
    decreases |fs|
  {
    if fs == [] then s
    else
      var k := |fs| - 1;
      assert FramesInGrid(fs[..k]);
      FrameSpec(Run(s, fs[..k]), fs[k])
  }

  /** The state after the first `i + 1` frames is one frame after the state after the first `i`. */
  lemma RunStep(s: State, fs: seq<Frame>, i: nat)
    requires Inv(s) && FramesInGrid(fs) && i < |fs|
    ensures FramesInGrid(fs[..i]) && FramesInGrid(fs[..i + 1])
    ensures Run(s, fs[..i + 1]) == FrameSpec(Run(s, fs[..i]), fs[i])
  {
    assert fs[..i + 1][..i] == fs[..i];
  }

  /**
    How many times the growth branch has run its scratch write after `eaten`
    foods: it fires when the grown snake's length is a multiple of 5, that is
    when the count of foods eaten leaves remainder 4 on division by 5.
   */
  function ScratchWrites(eaten: nat): nat {
    if eaten == 0 then 0
    else ScratchWrites(eaten - 1) + (if eaten % 5 == 4 then 1 else 0)
  }

  /** Eating one more food adds one scratch write exactly when the new count is 4 modulo 5. */
  lemma ScratchStep(eaten: nat, ate: bool)
    ensures ScratchWrites(eaten + (if ate then 1 else 0))
         == ScratchWrites(eaten) + (if ate && (eaten + 1) % 5 == 4 then 1 else 0)
  {
  }

  /** The scratch write has fired once for every five foods, counting from the fourth. */
  lemma {:induction false} ScratchWritesCount(eaten: nat)
    ensures ScratchWrites(eaten) == (eaten + 1) / 5
  {
    if eaten > 0 {
      ScratchWritesCount(eaten - 1);
    }
  }

  /** Start-up, then three due frames with no keys and no food on the way: a one-cell snake three cells to the right. */
  lemma ThreeTicksRight(food: Cell)
    requires InGrid(food)
    requires food != Cell(17, 12) && food != Cell(18, 12) && food != Cell(19, 12)
    ensures var f := Frame(Keys(false, false, false, false), true, food);
      var t := Run(Initial(food), [f, f, f]);
      t.alive && t.snake == [Cell(19, 12)] && t.food == food
  {
    var f := Frame(Keys(false, false, false, false), true, food);
    var s0 := Initial(food);
    var s1 := FrameSpec(s0, f);
    assert s1.snake == [Cell(17, 12)];
    var s2 := FrameSpec(s1, f);
    assert s2.snake == [Cell(18, 12)];
    var s3 := FrameSpec(s2, f);
    assert s3.snake == [Cell(19, 12)] && s3.alive && s3.food == food;
    assert [f, f, f][..2] == [f, f] && [f, f][..1] == [f] && [f][..0] == [];
    assert Run(s0, [f]) == s1;
    assert Run(s0, [f, f]) == s2;
    assert Run(s0, [f, f, f]) == s3;
  }

  /**
    A frame whose keys reverse the snake, when the neck lies directly behind
    the head, runs the head back onto the neck: the tick ends the game.
   */
  lemma ReversalKills(s: State, f: Frame)
    requires Inv(s) && s.alive && |s.snake| >= 2 && InGrid(f.next) && f.due
    requires s.snake[0] == NextHead(s.snake[1], s.dir)
    requires ApplyKeys(s.dir, f.keys) == Neg(s.dir)
    ensures !FrameSpec(s, f).alive
    ensures FrameSpec(s, f).snake[0] == s.snake[1]
  {
    NextHeadUndo(s.snake[1], s.dir);
    assert s.snake[1] in s.snake;
  }

  /**
    The same reversal spread over two frames, one key each: the first frame
    turns the snake onto the other axis without a tick, the second turns it
    back against its last move and ticks, so the head again lands on the neck.
   */
  lemma SplitReversalKills(s: State, f1: Frame, f2: Frame)
    requires Inv(s) && s.alive && |s.snake| >= 2 && InGrid(f1.next) && InGrid(f2.next)
    requires s.snake[0] == NextHead(s.snake[1], s.dir)
    requires !f1.due && f2.due
    requires ApplyKeys(ApplyKeys(s.dir, f1.keys), f2.keys) == Neg(s.dir)
    ensures FramesInGrid([f1, f2])
    ensures var t := Run(s, [f1, f2]);
      !t.alive && t.dir == Neg(s.dir) && t.snake[0] == s.snake[1]
  {
    var s1 := FrameSpec(s, f1);
    assert s1.snake == s.snake && s1.alive;
    NextHeadUndo(s.snake[1], s.dir);
    assert s.snake[1] in s.snake;
    assert [f1, f2][..1] == [f1] && [f1][..0] == [];
    assert Run(s, [f1]) == s1;
  }

  /**
    The self-collision scan: walk the body from head to tail and stop at the
    first cell equal to the new head.
   */
  method HitsBody(body: seq<Cell>, head: Cell) returns (hit: bool)
    ensures hit <==> head in body
  {
    var i := 0;
    while i < |body|
      invariant 0 <= i <= |body|
      invariant head !in body[..i]
    {
      if body[i] == head {
        return true;
      }
      i := i + 1;
    }
    assert body[..i] == body;
    return false;
  }

  /** The game's mutable state, updated in place frame by frame. */
  class Game {
    var snake: seq<Cell>
    var dir: Cell
    var food: Cell
    var alive: bool
    var leaks: seq<int>

    function Model(): State
      reads this
    {
      State(snake, dir, food, alive, leaks)
    }

    predicate Valid()
      reads this
    {
      Inv(Model())
    }

    /** Start-up: the snake is pushed as a single middle cell; the first food is drawn by the caller. */
    constructor (firstFood: Cell)
      requires InGrid(firstFood)
      ensures Valid() && Model() == Initial(firstFood)
    {
      snake := [Cell(W / 2, H / 2)];
      dir := Right;
      food := firstFood;
      alive := true;
      leaks := [];
    }

    /** The four guarded direction assignments of one frame. */
    method Input(keys: Keys)
      requires Valid()
      modifies this
      ensures Valid()
      ensures Model() == old(Model()).(dir := ApplyKeys(old(dir), keys))
    {
      if keys.up && dir.y == 0 { dir := Up; }
      if keys.down && dir.y == 0 { dir := Down; }
      if keys.left && dir.x == 0 { dir := Left; }
      if keys.right && dir.x == 0 { dir := Right; }
    }

    /** One tick; `next` is the food cell the RNG yields if this tick eats. */
    method Tick(next: Cell) returns (ate: bool)
      requires Valid() && alive && InGrid(next)
      modifies this
      ensures Model() == TickSpec(old(Model()), next)
      ensures Valid()
      ensures ate <==> |snake| == |old(snake)| + 1
    {
      var head := NextHead(snake[0], dir);
      var hit := HitsBody(snake, head);
      if hit {
        alive := false;
      }
      snake := [head] + snake;
      if alive && head == food {
        food := next;
        leaks := leaks + [|snake|];
        ate := true;
      } else {
        snake := snake[..|snake| - 1];
        ate := false;
      }
    }

    /** One pass of the main loop's game logic: keys, then a due tick while alive. */
    method Step(f: Frame) returns (ate: bool)
      requires Valid() && InGrid(f.next)
      modifies this
      ensures Valid()
      ensures Model() == FrameSpec(old(Model()), f)
      ensures ate <==> |snake| == |old(snake)| + 1
    {
      Input(f.keys);
      if alive && f.due {
        ate := Tick(f.next);
      } else {
        ate := false;
      }
    }

    /** The score shown on the game-over screen: the number of foods eaten. */
    method Score() returns (score: int)
      requires Valid()
      ensures score == |leaks| && score + 1 == |snake|
    {
      score := |leaks|;
    }
  }
}
