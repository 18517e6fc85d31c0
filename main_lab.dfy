/**
  The variant of the lab with the deliberate memory bug: its scratch write
  stores one slot past the end of the buffer it is given. With Dafny's
  bounds-checked arrays that store cannot be performed, so this model
  records each attempted store as an overflow event instead.
 */
module MainLab {
  import opened Grid
  import opened Snake
  import opened Buffers

  /** Length of the scratch buffer allocated when the grown snake's length is a multiple of 5. */
  const ScratchLen: nat := 1

  /**
    The slot `buggyWrite(arr, len)` stores to: slot `len`, which is past the
    last slot of a `len`-int array, or none when `len <= 0`.
   */
  function WriteSlot(len: int): (r: Option<int>)
    ensures r.Some? <==> len > 0
    ensures r.Some? ==> !(0 <= r.value < len)
  {
    if len > 0 then Some(len) else None
  }

  /**
    The same store on an array long enough to hold slot `len`; a caller that
    passes an array of exactly `len` ints cannot meet this precondition.
   */
  method BuggyWrite(arr: array<int>, len: int)
    requires len > 0 ==> len < arr.Length
    modifies arr
    ensures WriteSlot(len).None? ==> arr[..] == old(arr[..])
    ensures WriteSlot(len).Some? ==> arr[..] == old(arr[..])[WriteSlot(len).value := 123]
  {
    if len > 0 {
      arr[len] := 123;
    }
  }

  /**
    The scratch call passes a one-int buffer and `len` 1: its store goes to
    slot 1, past the buffer's end, so that call cannot meet `BuggyWrite`'s
    precondition.
   */
  lemma ScratchCallOutOfBounds()
    ensures WriteSlot(ScratchLen) == Some(ScratchLen)
    ensures forall a: array<int> :: a.Length == ScratchLen ==> !(ScratchLen > 0 ==> ScratchLen < a.Length)
  {
  }

  /** Start-up: the game's initial state and the global `LeakBuffer` of 16 ints, touched. */
  method Start(firstFood: Cell) returns (g: Game, leaky: LeakBuffer)
    requires InGrid(firstFood)
    ensures fresh(g) && g.Valid() && g.Model() == Initial(firstFood)
    ensures fresh(leaky) && fresh(leaky.data) && leaky.Valid() && leaky.n == 16
    ensures leaky.data[0] == 7
  {
    g := new Game(firstFood);
    leaky := new LeakBuffer(16);
    leaky.Touch();
  }

  /**
    One frame of the game loop. When the tick ate and left the snake's
    length a multiple of 5, the code allocates a one-int buffer and calls
    `buggyWrite(small, 1)`; `overflow` reports that the store it makes falls
    outside that buffer.
   */
  method RunFrame(g: Game, f: Frame) returns (ate: bool, overflow: bool)
    requires g.Valid() && InGrid(f.next)
    modifies g
    ensures g.Valid() && g.Model() == FrameSpec(old(g.Model()), f)
    ensures |g.leaks| == |old(g.leaks)| + (if ate then 1 else 0)
    ensures overflow <==> ate && |g.leaks| % 5 == 4
    ensures overflow ==> WriteSlot(ScratchLen).Some? && !(0 <= WriteSlot(ScratchLen).value < ScratchLen)
  {
    ate := g.Step(f);
    overflow := false;
    if ate && |g.snake| % 5 == 0 {
      var small := new int[ScratchLen];
      var slot := WriteSlot(ScratchLen);
      overflow := slot.Some? && !(0 <= slot.value < small.Length);
    }
  }

  /** The game loop over a sequence of frames, counting the out-of-bounds stores it attempts. */
  method Play(g: Game, frames: seq<Frame>) returns (overflows: nat)
    requires g.Valid() && FramesInGrid(frames)
    modifies g
    ensures g.Valid() && g.Model() == Run(old(g.Model()), frames)
    ensures ScratchWrites(|old(g.leaks)|) + overflows == ScratchWrites(|g.leaks|)
  {
    ghost var s0 := g.Model();
    overflows := 0;
    var i := 0;
    while i < |frames|
      invariant 0 <= i <= |frames|
      invariant g.Model() == Run(s0, frames[..i])
      invariant ScratchWrites(|s0.leaks|) + overflows == ScratchWrites(|g.leaks|)
    {
      RunStep(s0, frames, i);
      ghost var pre := g.Model();
      var ate, overflow := RunFrame(g, frames[i]);
      ScratchStep(|pre.leaks|, ate);
      if overflow {
        overflows := overflows + 1;
      }
      i := i + 1;
    }
    assert frames[..i] == frames;
  }
}
