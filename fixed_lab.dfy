/**
  The corrected variant of the lab: its scratch write stays inside the
  four-int buffer it is given, and the start-up buffer is touched in bounds.
 */
module FixedLab {
  import opened Grid
  import opened Snake
  import opened Buffers

  /** Length of the scratch buffer allocated when the grown snake's length is a multiple of 5. */
  const ScratchLen: nat := 4

  /** The slot `buggyWrite(arr, len)` stores to: the last of `len` slots, none when `len <= 0`. */
  function WriteSlot(len: int): (r: Option<int>)
    ensures r.Some? <==> len > 0
    ensures r.Some? ==> 0 <= r.value < len
  {
    if len > 0 then Some(len - 1) else None
  }

  /** Stores 123 in the slot `WriteSlot(len)` of an array holding at least `len` ints. */
  method BuggyWrite(arr: array<int>, len: int)
    requires len <= arr.Length
    modifies arr
    ensures WriteSlot(len).None? ==> arr[..] == old(arr[..])
    ensures WriteSlot(len).Some? ==> arr[..] == old(arr[..])[WriteSlot(len).value := 123]
  {
    if len > 0 {
      arr[len - 1] := 123;
    }
  }

  /** Start-up: the game's initial state and a touched 16-int `LeakBuffer`. */
  method Start(firstFood: Cell) returns (g: Game, leaky: LeakBuffer)
    requires InGrid(firstFood)
    ensures fresh(g) && g.Valid() && g.Model() == Initial(firstFood)
    ensures fresh(leaky) && fresh(leaky.data) && leaky.Valid() && leaky.n == 16
    ensures leaky.data[0] == 7
  {
    g := new Game(firstFood);
    leaky := new LeakBuffer(16);
    leaky.Touch();
  }

  /**
    One frame of the game loop, followed by the scratch write when this
    frame's tick ate and left the snake's length a multiple of 5.
   */
  method RunFrame(g: Game, f: Frame) returns (ate: bool, scratch: bool)
    requires g.Valid() && InGrid(f.next)
    modifies g
    ensures g.Valid() && g.Model() == FrameSpec(old(g.Model()), f)
    ensures |g.leaks| == |old(g.leaks)| + (if ate then 1 else 0)
    ensures scratch <==> ate && |g.leaks| % 5 == 4
  {
    ate := g.Step(f);
    scratch := ate && |g.snake| % 5 == 0;
    if scratch {
      var small := new int[ScratchLen];
      BuggyWrite(small, ScratchLen);
      assert small[ScratchLen - 1] == 123;
    }
  }

  /** The game loop over a sequence of frames, counting the scratch writes it performs. */
  method Play(g: Game, frames: seq<Frame>) returns (writes: nat)
    requires g.Valid() && FramesInGrid(frames)
    modifies g
    ensures g.Valid() && g.Model() == Run(old(g.Model()), frames)
    ensures ScratchWrites(|old(g.leaks)|) + writes == ScratchWrites(|g.leaks|)
  {
    ghost var s0 := g.Model();
    writes := 0;
    var i := 0;
    while i < |frames|
      invariant 0 <= i <= |frames|
      invariant g.Model() == Run(s0, frames[..i])
      invariant ScratchWrites(|s0.leaks|) + writes == ScratchWrites(|g.leaks|)
    {
      RunStep(s0, frames, i);
      ghost var pre := g.Model();
      var ate, scratch := RunFrame(g, frames[i]);
      ScratchStep(|pre.leaks|, ate);
      if scratch {
        writes := writes + 1;
      }
      i := i + 1;
    }
    assert frames[..i] == frames;
  }
}
