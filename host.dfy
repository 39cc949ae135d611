/**
 * The hooking library's side of the render loop: it creates the default
 * instance and calls its render method once per presented frame, in order,
 * on one thread.
 */
module Host {
  import opened RenderLoop
  import opened InputHistory

  /**
   * Presents the frames in order through one render loop object and
   * collects, per frame, whether the menu was drawn.
   */
  method PresentFrames(loop: D3D9RenderLoop, frames: seq<KeysDown>) returns (drawn: seq<bool>)
    modifies loop
    ensures loop.State() == Run(old(loop.State()), InsertSamples(frames))
    ensures |drawn| == |frames|
    ensures forall i :: 0 <= i < |frames| ==>
      drawn[i] == Run(old(loop.State()), InsertSamples(frames)[..i + 1]).displayMenu
    ensures forall i :: 0 <= i < |frames| ==>
      drawn[i] == (old(loop.displayMenu) != Odd(|Toggles(old(loop.lastInsertState), InsertSamples(frames)[..i + 1])|))
  {
    ghost var s0 := loop.State();
    ghost var samples := InsertSamples(frames);
    drawn := [];
    var k := 0;
    while k < |frames|
      invariant 0 <= k <= |frames|
      invariant loop.State() == Run(s0, samples[..k])
      invariant |drawn| == k
      invariant forall i :: 0 <= i < k ==> drawn[i] == Run(s0, samples[..i + 1]).displayMenu
    {
      assert samples[..k + 1] == samples[..k] + [samples[k]];
      RunSnoc(s0, samples[..k], samples[k]);
      var shown := loop.Render(frames[k]);
      drawn := drawn + [shown];
      k := k + 1;
    }
    assert samples[..k] == samples;
    forall i | 0 <= i < |frames|
      ensures drawn[i] == (s0.displayMenu != Odd(|Toggles(s0.lastInsertState, samples[..i + 1])|))
    {
      RunParity(s0, samples[..i + 1]);
    }
  }

  /**
   * A hook session: the default render loop, driven through the frames.
   * The menu is drawn on a frame exactly when an even number of INSERT
   * presses happened up to and including it.
   */
  method Session(frames: seq<KeysDown>) returns (drawn: seq<bool>)
    ensures |drawn| == |frames|
    ensures forall i :: 0 <= i < |frames| ==>
      drawn[i] == !Odd(|Toggles(false, InsertSamples(frames)[..i + 1])|)
  {
    var loop := new D3D9RenderLoop();
    drawn := PresentFrames(loop, frames);
  }
}
