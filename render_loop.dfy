/**
 * The overlay's per-frame render loop: a two-field state machine that
 * toggles the menu's visibility on each press of the INSERT key and draws
 * the menu on the frames where it is visible.
 */
module RenderLoop {

  /** Windows virtual-key code of the INSERT key, the menu's toggle key. */
  const VkInsert: nat := 0x2D

  /**
   * One frame's key-down table, indexed by virtual-key code. The UI
   * library's table is a fixed-size array longer than VkInsert, so reading
   * the INSERT entry never goes out of bounds.
   */
  type KeysDown = k: seq<bool> | VkInsert < |k| witness seq(VkInsert + 1, _ => false)

  /** The render loop's persistent state, as a value. */
  datatype LoopState = LoopState(displayMenu: bool, lastInsertState: bool)

  /** The state the hook starts from: menu shown, INSERT taken as up. */
  const Initial: LoopState := LoopState(true, false)

  /** A press: the key is down now and was up on the previous frame. */
  predicate RisingEdge(wasDown: bool, isDown: bool)
  {
    isDown && !wasDown
  }

  /**
   * One input step given this frame's INSERT sample: the menu flips on a
   * press and only then, and the sample is remembered for the next frame.
   */
  function Step(s: LoopState, insertPressed: bool): (r: LoopState)
    // the sample just read is always recorded
    ensures r.lastInsertState == insertPressed
    // a press flips visibility once
    ensures RisingEdge(s.lastInsertState, insertPressed) ==> r.displayMenu == !s.displayMenu
    // a held key does not flip it
    ensures insertPressed && s.lastInsertState ==> r.displayMenu == s.displayMenu
    // a released or idle key does not flip it
    ensures !insertPressed ==> r.displayMenu == s.displayMenu
  {
    LoopState(
      if RisingEdge(s.lastInsertState, insertPressed) then !s.displayMenu else s.displayMenu,
      insertPressed)
  }

  /** The render loop object that the hooking library calls once per frame. */
  class D3D9RenderLoop {
    var displayMenu: bool
    var lastInsertState: bool

    /** The object's fields as a value. */
    function State(): LoopState
      reads this
    {
      LoopState(displayMenu, lastInsertState)
    }

    /** The default instance: menu visible, INSERT not seen down. */
    constructor ()
      ensures displayMenu && !lastInsertState
      ensures State() == Initial
    {
      displayMenu := true;
      lastInsertState := false;
    }

    /**
     * Reads INSERT from this frame's key table, flips the menu on a press,
     * and records the sample whether or not the menu flipped. No other key
     * of the table is read.
     */
    method HandleInput(keysDown: KeysDown)
      modifies this
      ensures lastInsertState == keysDown[VkInsert]
      ensures displayMenu == (old(displayMenu) != RisingEdge(old(lastInsertState), keysDown[VkInsert]))
      ensures State() == Step(old(State()), keysDown[VkInsert])
    {
      var insertPressed := keysDown[VkInsert];
      if insertPressed && !lastInsertState {
        displayMenu := !displayMenu;
      }
      lastInsertState := insertPressed;
    }

    /**
     * One frame: the input step, then the menu is drawn exactly when it is
     * visible after that step. The drawing itself is reduced to the
     * returned flag.
     */
    method Render(keysDown: KeysDown) returns (menuDrawn: bool)
      modifies this
      ensures State() == Step(old(State()), keysDown[VkInsert])
      ensures menuDrawn == displayMenu
      ensures menuDrawn == Step(old(State()), keysDown[VkInsert]).displayMenu
    {
      HandleInput(keysDown);
      menuDrawn := displayMenu;
    }
  }
}
