/**
  The playing field of the snake game: a W x H torus of integer cells, the
  C++ remainder used to wrap coordinates around its edges, and the direction
  vector together with the per-frame key handling that turns it.
 */
module Grid {

  /** Grid width and height in cells. */
  const W: int := 32
  const H: int := 24

  /** A grid coordinate; also used, as in the game, for the direction vector. */
  datatype Cell = Cell(x: int, y: int)

  predicate InGrid(c: Cell) {
    0 <= c.x < W && 0 <= c.y < H
  }

  /** The four directions the game assigns. */
  const Up: Cell := Cell(0, -1)
  const Down: Cell := Cell(0, 1)
  const Left: Cell := Cell(-1, 0)
  const Right: Cell := Cell(1, 0)

  predicate IsUnit(d: Cell) {
    d == Up || d == Down || d == Left || d == Right
  }

  /** A vector whose components are each -1, 0 or 1. */
  predicate IsStep(d: Cell) {
    -1 <= d.x <= 1 && -1 <= d.y <= 1
  }

  function Neg(d: Cell): Cell {
    Cell(-d.x, -d.y)
  }

  /** The axis a direction moves along: a vector with no vertical component moves horizontally. */
  datatype Axis = Horizontal | Vertical

  function AxisOf(d: Cell): Axis {
    if d.y == 0 then Horizontal else Vertical
  }

  /** Two directions are perpendicular when they move along different axes. */
  predicate Perpendicular(a: Cell, b: Cell) {
    AxisOf(a) != AxisOf(b)
  }

  /** C++'s integer division: the quotient is truncated toward zero. */
  function CDiv(a: int, n: int): int
    requires n > 0
  {
    if a >= 0 then a / n else -((-a) / n)
  }

  /**
    C++'s `a % n`: what is left after the truncated quotient, so the remainder
    takes the sign of `a` (Dafny's own `%` is Euclidean).
   */
  function CRem(a: int, n: int): (r: int)
    requires n > 0
    ensures a == CDiv(a, n) * n + r
    ensures -n < r < n
    ensures a >= 0 ==> r >= 0
    ensures a <= 0 ==> r <= 0
  {
    if a >= 0 then a % n
    else
      assert -a == ((-a) / n) * n + (-a) % n;
      assert -(((-a) / n) * n) == (-((-a) / n)) * n;
      -((-a) % n)
  }

  /**
    One coordinate of the new head, `(v + d + n) % n` with C++'s `%`: a step
    off one edge of the torus re-enters at the opposite edge.
   */
  function Wrap(v: int, d: int, n: int): (r: int)
    requires n > 0
    ensures 0 <= v < n && -1 <= d <= 1 ==>
              0 <= r < n &&
              r == (if v + d < 0 then n - 1 else if v + d >= n then 0 else v + d)
  {
    var a := v + d + n;
    if 0 <= a < 2 * n then SmallMod(a, n); CRem(a, n) else CRem(a, n)
  }

  /** `%` on a value below twice the modulus subtracts the modulus at most once. */
  lemma SmallMod(a: int, n: int)
    requires n > 0 && 0 <= a < 2 * n
    ensures a % n == if a < n then a else a - n
  {
    if a < n {
      assert a == 0 * n + a;
    } else {
      assert a == 1 * n + (a - n);
    }
  }

  /** The cell the head moves to: `head + dir`, each coordinate wrapped. */
  function NextHead(head: Cell, dir: Cell): (r: Cell)
    ensures InGrid(head) && IsStep(dir) ==> InGrid(r)
    ensures InGrid(head) && IsUnit(dir) ==> r != head
  {
    Cell(Wrap(head.x, dir.x, W), Wrap(head.y, dir.y, H))
  }

  /** Stepping back along the opposite direction returns to the cell the step left. */
  lemma NextHeadUndo(c: Cell, d: Cell)
    requires InGrid(c) && IsUnit(d)
    ensures NextHead(NextHead(c, d), Neg(d)) == c
  {
  }

  /** The four arrow keys as read in one frame. */
  datatype Keys = Keys(up: bool, down: bool, left: bool, right: bool)

  function Pressed(k: Keys): nat {
    (if k.up then 1 else 0) + (if k.down then 1 else 0) +
    (if k.left then 1 else 0) + (if k.right then 1 else 0)
  }

  /**
    One guarded key assignment: `target` replaces `d` when the key is pressed
    and `d` is not already on `target`'s axis (Up and Down test `d.y == 0`,
    Left and Right test `d.x == 0`).
   */
  function Turn(d: Cell, pressed: bool, target: Cell): (r: Cell)
    requires IsUnit(target)
    ensures IsUnit(d) ==> IsUnit(r)
    ensures IsUnit(d) ==> r == d || (r == target && Perpendicular(d, target))
    ensures IsUnit(d) && pressed && Perpendicular(d, target) ==> r == target
    ensures !pressed ==> r == d
  {
    var free := if target.x == 0 then d.y == 0 else d.x == 0;
    if pressed && free then target else d
  }

  /** The four key tests of one frame, applied in order; the last accepted one wins. */
  function ApplyKeys(d: Cell, k: Keys): (r: Cell)
    ensures IsUnit(d) ==> IsUnit(r)
    ensures Pressed(k) == 0 ==> r == d
    ensures IsUnit(d) && Pressed(k) <= 1 ==> r != Neg(d)
  {
    var d1 := Turn(d, k.up, Up);
    var d2 := Turn(d1, k.down, Down);
    var d3 := Turn(d2, k.left, Left);
    Turn(d3, k.right, Right)
  }

  /**
    Two keys in one frame can reverse the snake: moving right, UP turns it
    up and LEFT then turns it left.
   */
  lemma TwoKeysReverse()
    ensures ApplyKeys(Right, Keys(true, false, true, false)) == Neg(Right)
  {
  }

  /**
    One key per frame still reverses the snake over two frames: moving right,
    UP alone in one frame and LEFT alone in the next turn it to face left.
   */
  lemma TwoFramesReverse()
    ensures var k1 := Keys(true, false, false, false);
      var k2 := Keys(false, false, true, false);
      Pressed(k1) == 1 && Pressed(k2) == 1 && ApplyKeys(ApplyKeys(Right, k1), k2) == Neg(Right)
  {
  }
}
