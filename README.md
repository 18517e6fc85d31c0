# Snake game step, modelled in Dafny

This project models the game logic of a small Snake game. The game is a
teaching aid for memory-safety tools. It comes in two near-identical
programs: `fixed.cpp` is the corrected version and `main.cpp` keeps
deliberate memory bugs. Both run the same simulation on a 32 x 24 torus:

- The arrow keys are read once per frame; each pressed key may turn the snake.
- A tick moves the head one cell, wrapping at the edges, and scans the body
  for a self-collision.
- The tick pushes the new head, then grows and relocates the food when the
  snake is alive and on the food. Otherwise it drops the tail.

Ticks run only while the snake is alive.

Files and modules:

- `grid.dfy`, module `Grid`: cells, C++'s truncating `%`, the toroidal
  wrap, direction vectors and the four guarded key assignments.
- `snake.dfy`, module `Snake`:
  - the game state and its invariant `Inv`;
  - `TickSpec`, `FrameSpec` and `Run`, which specify one tick, one frame
    and a run of frames;
  - the collision scan `HitsBody`;
  - the class `Game`, which updates the state in place as `main()` does.
- `buffers.dfy`, module `Buffers`: the `LeakBuffer` object allocated at
  start-up.
- `fixed_lab.dfy`, module `FixedLab`: the parts specific to `fixed.cpp`. Its
  `buggyWrite` stores to the last slot of the buffer.
- `main_lab.dfy`, module `MainLab`: the parts specific to `main.cpp`. Its
  `buggyWrite` stores one slot past the end. Dafny arrays are bounds-checked,
  so `MainLab.RunFrame` cannot perform that store. It reports each attempt
  as an `overflow` instead.

The tick code at main.cpp:70-113 is the same as fixed.cpp:73-112, apart
from the scratch buffer's length: 1 in `main.cpp` at lines 106-107 and 4 in
`fixed.cpp` at lines 106-107. `MainLab.ScratchLen` and `FixedLab.ScratchLen` carry that
length. Both programs share `Snake.Game`, and the table below cites the
`fixed.cpp` lines for it.

In `State`, `leaks` is the list `g_foodLeaks`. Each element is the
`chunk[0]` value stored for one eaten food, which is the snake's length
after growing. `|leaks|` is the number of foods eaten. It is also the score
that `main.cpp` displays.

Four behaviours of the code that a reader may not expect; the model
follows the code:

- The scratch write fires when `snake.size() % 5 == 0` after growing. That
  is when the number of foods eaten is 4 modulo 5, not a multiple of 5
  (`ScratchWrites`, `FixedLab.RunFrame`, `MainLab.RunFrame`).
- Each key assignment only turns onto the perpendicular axis. Two keys in
  one frame can still reverse the snake (`Grid.TwoKeysReverse`). The reversal
  then runs the head into the neck (`Snake.ReversalKills`).
- One key per frame can reverse the snake too. One key turns it in a frame
  with no tick due, and the opposite of its last move is pressed in the next
  frame, which ticks (`Grid.TwoFramesReverse`). The head again lands on the
  neck (`Snake.SplitReversalKills`).
- On a collision the tick still pushes the new head and drops the tail. The
  length stays the same. The head overlaps the body cell it hit, unless that
  cell was the tail, which the same tick removes.

## Model

| member | source | states |
|---|---|---|
| Grid.CRem | fixed.cpp:84-85 | C++ `%` truncates: the result equals `a` minus the truncated quotient times `n`, lies strictly between `-n` and `n`, and has the sign of `a` |
| Grid.Wrap | fixed.cpp:84-85 | for an in-range coordinate and a step in {-1,0,1}, the result is in `[0,n)` and equals the plain sum, except that stepping off an edge re-enters at the opposite edge |
| Grid.NextHead | fixed.cpp:83-85 | from an in-grid head and a direction with components in {-1,0,1}, the new head is in the grid; for a unit direction it differs from the old head |
| Grid.NextHeadUndo | fixed.cpp:83-85 | on the torus, stepping back along the opposite unit direction returns to the starting cell |
| Grid.Turn | fixed.cpp:73-76 | one guarded assignment keeps `dir` a unit vector; it changes `dir` only to the key's direction and only when that direction is on the other axis; a pressed key whose direction is on the other axis is always taken |
| Grid.ApplyKeys | fixed.cpp:73-76 | the frame's four assignments keep `dir` a unit vector; with no key pressed `dir` is unchanged; with at most one key pressed `dir` is never reversed within that frame |
| Grid.TwoKeysReverse | fixed.cpp:73-76 | moving right, UP then LEFT in one frame turns the snake to face left, a 180-degree reversal |
| Grid.TwoFramesReverse | fixed.cpp:73-76 | moving right, UP alone in one frame and LEFT alone in the next turn the snake to face left |
| Snake.Initial | fixed.cpp:56-63 | the start state is alive, has a one-cell snake and no foods eaten, and satisfies the invariant |
| Snake.TickSpec | fixed.cpp:82-112 | the tick preserves the invariant and leaves `dir` unchanged; the new head is in the grid; the snake dies exactly when the new head equals a pre-tick cell; the new head is always at the front; the rest is the old snake, minus its last cell unless food was eaten; the length grows by one exactly when alive on the food; the food moves to the drawn cell and one receipt is recorded exactly then |
| Snake.FrameSpec | fixed.cpp:72-113 | a frame preserves the invariant; it sets `dir` from the keys; `alive` never becomes true again; when alive and a tick is due, the result is `TickSpec` of the turned state; when dead or when no tick is due, the snake, food, `alive` and receipts are unchanged; the receipts only grow, by at most one |
| Snake.Run | fixed.cpp:68-113 | over any run of frames: the invariant holds (non-empty snake on the grid, length = foods eaten + 1, unit `dir`, food in the grid, no self-overlap while alive); once dead, the snake stays dead and its snake, food and score are frozen; the receipts only grow |
| Snake.RunStep | fixed.cpp:68-113 | the state after the first `i + 1` frames is one frame after the state after the first `i` |
| Snake.ScratchStep | fixed.cpp:95-109 | eating one more food adds one scratch write exactly when the new count of foods eaten is 4 modulo 5 |
| Snake.ScratchWritesCount | fixed.cpp:105 | after `n` foods the scratch write has fired `(n + 1) / 5` times, once per food whose count is 4 modulo 5 |
| Snake.ThreeTicksRight | fixed.cpp:56-112 | from start-up, three due frames with no keys and no food in the way leave a live one-cell snake at (19,12) and the food where it was |
| Snake.ReversalKills | fixed.cpp:73-93 | when the neck lies directly behind the head, a frame whose keys reverse `dir` moves the head onto the neck, and the snake dies |
| Snake.SplitReversalKills | fixed.cpp:72-93 | when the neck lies directly behind the head, a frame with no tick followed by a ticking frame whose combined keys reverse `dir` moves the head onto the neck, and the snake dies |
| Snake.HitsBody | fixed.cpp:88-93 | the scan reports a hit exactly when the new head equals some cell of the body |
| Snake.Game.constructor | fixed.cpp:56-63 | the object starts in the initial state with the caller's first food cell |
| Snake.Game.Input | fixed.cpp:73-76 | the in-place key handling sets `dir` to `ApplyKeys` of the old `dir` and changes nothing else |
| Snake.Game.Tick | fixed.cpp:82-112 | the in-place tick, with `push_front`, the collision scan and `pop_back`, yields exactly `TickSpec` of the old state; `ate` is true exactly when the snake grew |
| Snake.Game.Step | fixed.cpp:72-113 | key handling, then a tick only when one is due and the snake is alive, yields exactly `FrameSpec` of the old state |
| Snake.Game.Score | main.cpp:131 | the displayed score is the number of foods eaten, which is one less than the snake's length |
| Buffers.LeakBuffer.constructor | fixed.cpp:23-26 | the buffer holds a fresh array of `n` ints |
| Buffers.LeakBuffer.Touch | fixed.cpp:32-34 | 7 is stored in slot 0 when `n > 0`, and nothing changes otherwise |
| FixedLab.WriteSlot | fixed.cpp:39-43 | `buggyWrite` stores exactly when `len > 0`, to a slot inside a `len`-int array |
| FixedLab.BuggyWrite | fixed.cpp:39-43 | on an array of at least `len` ints, the array afterwards is the old one with 123 in slot `len - 1` when `len > 0`, and unchanged otherwise |
| FixedLab.Start | fixed.cpp:56-66 | start-up gives the initial game and a 16-int `LeakBuffer` whose slot 0 holds 7 |
| FixedLab.RunFrame | fixed.cpp:68-113 | the frame yields `FrameSpec`; the in-bounds scratch write runs exactly when the tick ate and the foods eaten are 4 modulo 5 |
| FixedLab.Play | fixed.cpp:68-113 | the loop yields `Run` over the frames; the number of scratch writes is the increase in `ScratchWrites` of the foods eaten |
| MainLab.WriteSlot | main.cpp:42-46 | `buggyWrite` stores exactly when `len > 0`, to a slot outside a `len`-int array |
| MainLab.BuggyWrite | main.cpp:42-46 | the store succeeds only on an array longer than `len`; the array afterwards has 123 in slot `len` |
| MainLab.ScratchCallOutOfBounds | main.cpp:106-107 | the scratch call stores to slot 1 of a one-int buffer, so it cannot meet `BuggyWrite`'s precondition |
| MainLab.Start | main.cpp:55-66 | start-up gives the initial game and the global 16-int `LeakBuffer`, whose slot 0 holds 7 |
| MainLab.RunFrame | main.cpp:70-113 | the frame yields `FrameSpec`; an out-of-bounds store into the one-int buffer is attempted exactly when the tick ate and the foods eaten are 4 modulo 5; the slot it targets lies outside that buffer |
| MainLab.Play | main.cpp:68-114 | the loop yields `Run` over the frames; the number of out-of-bounds stores is the increase in `ScratchWrites` of the foods eaten |

## Left out

- Window, input polling, drawing and text (`InitWindow`, `WindowShouldClose`, `IsKeyPressed`, `DrawRectangle`, `DrawText`): these are calls into the graphics library. Key presses are a `Keys` value of four booleans. The close request is the end of the frame sequence given to `Play`.
- Audio stream handling in `fixed.cpp`: it is foreign I/O with no effect on the game.
- The float time accumulator `acc`/`stepTime`/`GetFrameTime`: it is floating-point frame timing. Whether a tick is due is the boolean `Frame.due`.
- `std::mt19937` and `uniform_int_distribution`: the generator is not modelled. The cell it would draw is the parameter `Frame.next`, required to be in the grid, which is the range the distributions give. Food may land on the snake, as in the code.
- Heap lifetimes: each leaked `chunk` is modelled only by the value it stores, and `delete[]` and the cleanup loop at exit are not modelled. Neither are the empty `LeakBuffer` destructor, `g_leaky`, or freeing the scratch buffers. Dafny's memory model has no deallocation.
- FixedLab.RunFrame: the scratch write runs after the whole tick, not inside the growth branch. It changes no game state, so the order cannot be observed.
- MainLab.RunFrame: the one-slot-past-the-end store is reported as `overflow` and not performed, because a bounds-checked array cannot hold it.
- MainLab.BuggyWrite: it requires an array longer than `len`, which the C++ function does not check. That is the condition under which its store is in bounds.
- 32-bit `int` overflow: it is not modelled, because every coordinate stays in the grid and every length stays far below 2^31 in any reachable state.
- `slides.cpp`: it only demonstrates allocation and release with no game behaviour.
