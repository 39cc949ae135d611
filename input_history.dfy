/**
 * The render loop over a whole history of INSERT samples: a fold of Step,
 * and the frames at which the menu toggles, defined independently as the
 * rising edges of the history.
 */
module InputHistory {
  import opened RenderLoop

  /** The state after the samples have been fed to Step, first to last. */
  function Run(s: LoopState, samples: seq<bool>): LoopState
    decreases |samples|
  {
    if samples == [] then s else Run(Step(s, samples[0]), samples[1..])
  }

  /** The INSERT state on the frame before frame i; for frame 0, the stored flag. */
  function Previous(prev: bool, samples: seq<bool>, i: nat): bool
    requires i < |samples|
  {
    if i == 0 then prev else samples[i - 1]
  }

  /** The last sample of the history, or the stored flag when it is empty. */
  function LastSample(prev: bool, samples: seq<bool>): bool
  {
    if samples == [] then prev else samples[|samples| - 1]
  }

  /** The frames of the history on which INSERT goes from up to down. */
  function Toggles(prev: bool, samples: seq<bool>): (r: set<nat>)
    ensures forall i :: i in r ==> i < |samples| && samples[i]
  {
    set i: nat | i < |samples| && RisingEdge(Previous(prev, samples, i), samples[i])
  }

  predicate Odd(n: nat)
  {
    n % 2 == 1
  }

  /** The INSERT column of a history of key tables. */
  function InsertSamples(frames: seq<KeysDown>): seq<bool>
  {
    seq(|frames|, i requires 0 <= i < |frames| => frames[i][VkInsert])
  }

  /** Feeding one more sample is one more Step. */
  lemma {:induction false} RunSnoc(s: LoopState, samples: seq<bool>, b: bool)
    ensures Run(s, samples + [b]) == Step(Run(s, samples), b)
    decreases |samples|
  {
    if samples == [] {
      assert samples + [b] == [b];
    } else {
      assert (samples + [b])[1..] == samples[1..] + [b];
      RunSnoc(Step(s, samples[0]), samples[1..], b);
    }
  }

  /** After any history, the stored flag is the last sample read. */
  lemma {:induction false} RunRemembersLastSample(s: LoopState, samples: seq<bool>)
    ensures Run(s, samples).lastInsertState == LastSample(s.lastInsertState, samples)
  {
    if samples != [] {
      var n := |samples| - 1;
      assert samples == samples[..n] + [samples[n]];
      RunSnoc(s, samples[..n], samples[n]);
    }
  }

  /** Appending a sample does not change whether an earlier frame is a press. */
  lemma {:induction false} ToggleKeptBySnoc(prev: bool, samples: seq<bool>, b: bool, i: nat)
    requires i < |samples|
    ensures i in Toggles(prev, samples + [b]) <==> i in Toggles(prev, samples)
  {
    var t := samples + [b];
    assert Previous(prev, t, i) == Previous(prev, samples, i) && t[i] == samples[i];
  }

  /** A new sample adds its frame to the toggles exactly when it is a press. */
  lemma {:induction false} TogglesSnoc(prev: bool, samples: seq<bool>, b: bool)
    ensures Toggles(prev, samples + [b]) ==
      Toggles(prev, samples) + (if RisingEdge(LastSample(prev, samples), b) then {|samples|} else {})
  {
    var t := samples + [b];
    var after, before := Toggles(prev, t), Toggles(prev, samples);
    var extra: set<nat> := if RisingEdge(LastSample(prev, samples), b) then {|samples|} else {};
    forall i: nat
      ensures i in after <==> i in before + extra
    {
      if i < |samples| {
        ToggleKeptBySnoc(prev, samples, b, i);
      } else if i == |samples| {
        assert Previous(prev, t, i) == LastSample(prev, samples) && t[i] == b;
      }
    }
  }

  /** A new sample adds one press exactly when it is a rising edge. */
  lemma {:induction false} TogglesSnocCount(prev: bool, samples: seq<bool>, b: bool)
    ensures |Toggles(prev, samples + [b])| ==
      |Toggles(prev, samples)| + (if RisingEdge(LastSample(prev, samples), b) then 1 else 0)
  {
    TogglesSnoc(prev, samples, b);
    assert |samples| !in Toggles(prev, samples);
  }

  /**
   * The menu's visibility after any history is the starting visibility,
   * flipped once per press: it changed exactly when the number of presses
   * is odd.
   */
  lemma {:induction false} RunParity(s: LoopState, samples: seq<bool>)
    ensures Run(s, samples).displayMenu == (s.displayMenu != Odd(|Toggles(s.lastInsertState, samples)|))
    decreases |samples|
  {
    if samples == [] {
      assert Toggles(s.lastInsertState, samples) == {};
    } else {
      var n := |samples| - 1;
      var init, b := samples[..n], samples[n];
      assert samples == init + [b];
      RunParity(s, init);
      RunSnoc(s, init, b);
      RunRemembersLastSample(s, init);
      TogglesSnocCount(s.lastInsertState, init, b);
    }
  }

  /** From the default state the menu is visible exactly after an even number of presses. */
  lemma DefaultRunParity(samples: seq<bool>)
    ensures Run(Initial, samples).displayMenu == !Odd(|Toggles(false, samples)|)
    ensures Run(Initial, samples).lastInsertState == LastSample(false, samples)
  {
    RunParity(Initial, samples);
    RunRemembersLastSample(Initial, samples);
  }

  /**
   * A key held down from before the history began, or kept up throughout,
   * never toggles the menu, however many frames pass.
   */
  lemma {:induction false} HeldOrReleasedNeverToggles(s: LoopState, samples: seq<bool>, b: bool)
    requires forall i :: 0 <= i < |samples| ==> samples[i] == b
    requires b ==> s.lastInsertState
    ensures Toggles(s.lastInsertState, samples) == {}
    ensures Run(s, samples) == LoopState(s.displayMenu, LastSample(s.lastInsertState, samples))
  {
    RunParity(s, samples);
    RunRemembersLastSample(s, samples);
  }

  /** The state after a history of whole key tables, each fed to Step through its INSERT entry. */
  function RunFrames(s: LoopState, frames: seq<KeysDown>): LoopState
    decreases |frames|
  {
    if frames == [] then s else RunFrames(Step(s, frames[0][VkInsert]), frames[1..])
  }

  /** Running key tables is running their INSERT column. */
  lemma {:induction false} RunFramesIsRun(s: LoopState, frames: seq<KeysDown>)
    ensures RunFrames(s, frames) == Run(s, InsertSamples(frames))
    decreases |frames|
  {
    if frames != [] {
      var samples := InsertSamples(frames);
      assert samples[0] == frames[0][VkInsert];
      assert samples[1..] == InsertSamples(frames[1..]);
      RunFramesIsRun(Step(s, frames[0][VkInsert]), frames[1..]);
    }
  }

  /**
   * Only the INSERT entry of each frame's key table matters: two histories
   * of key tables that agree on INSERT leave the render loop in the same
   * state, whatever the other keys do.
   */
  lemma {:induction false} OnlyInsertKeyMatters(s: LoopState, frames1: seq<KeysDown>, frames2: seq<KeysDown>)
    requires |frames1| == |frames2|
    requires forall i :: 0 <= i < |frames1| ==> frames1[i][VkInsert] == frames2[i][VkInsert]
    ensures RunFrames(s, frames1) == RunFrames(s, frames2)
    decreases |frames1|
  {
    if frames1 != [] {
      var next := Step(s, frames1[0][VkInsert]);
      assert next == Step(s, frames2[0][VkInsert]);
      OnlyInsertKeyMatters(next, frames1[1..], frames2[1..]);
    }
  }

  /**
   * Frame by frame: the newest frame flips the menu exactly when that frame
   * is one of the presses of the history.
   */
  lemma {:induction false} ToggleExactlyOnPress(s: LoopState, samples: seq<bool>, b: bool)
    ensures Run(s, samples + [b]).displayMenu != Run(s, samples).displayMenu
      <==> |samples| in Toggles(s.lastInsertState, samples + [b])
  {
    RunSnoc(s, samples, b);
    RunRemembersLastSample(s, samples);
    TogglesSnoc(s.lastInsertState, samples, b);
    assert |samples| !in Toggles(s.lastInsertState, samples);
  }

  /** Down, down: one press, the stored flag is down and the menu is hidden. */
  lemma ExampleHeldTwoFrames()
    ensures Toggles(false, [true, true]) == {0}
    ensures Run(Initial, [true, true]) == LoopState(false, true)
  {
    assert !Previous(false, [true, true], 0) && Previous(false, [true, true], 1);
  }

  /** Down, down, up, down: presses on the first and fourth frames, menu visible again. */
  lemma ExampleTwoPresses()
    ensures Toggles(false, [true, true, false, true]) == {0, 3}
    ensures Run(Initial, [true, true, false, true]) == LoopState(true, true)
  {
    var h := [true, true, false, true];
    assert !Previous(false, h, 0) && Previous(false, h, 1) && !Previous(false, h, 3);
  }
}
