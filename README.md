# D3D9 overlay render loop: INSERT-key edge detector

This project models the per-frame input logic of the overlay that the
`d3d9-hook-imgui-rs` library runs inside a DirectX 9 game. The hooking
library calls the render loop's `render` once per presented frame. Each call
first runs `handle_input`, which reads the INSERT key (virtual-key code
0x2D) from the UI library's key-down table. The menu's visibility
(`display_menu`) flips only on a press, meaning the key is down now and was
up on the previous frame. The current key state is then stored in
`last_insert_state` on every call. The menu is drawn on a frame exactly when
`display_menu` holds after that step. The default instance starts with the
menu visible and INSERT taken as up.

Layout:

- `render_loop.dfy`, module `RenderLoop`: the state as a value
  (`LoopState`), the one-frame transition `Step`, and the class
  `D3D9RenderLoop` with the two fields, the default constructor and the
  methods `HandleInput` and `Render`, each updating the fields in place.
- `input_history.dfy`, module `InputHistory`: the fold `Run` of `Step`
  over a history of INSERT samples. `Toggles` independently defines the
  frames of a history where a press happens. Lemmas connect the two: the
  final visibility is the initial one flipped once per press; the stored
  flag is the last sample; the newest frame flips the menu exactly when it
  is a press; a held or released key never toggles. `RunFrames` folds whole
  key tables, and a lemma shows that only their INSERT entry matters.
- `host.dfy`, module `Host`: the hooking library's side, calling `Render`
  frame by frame on one object. `PresentFrames` ties the imperative run to
  `Run` and to the parity of the number of presses.

src/lib.rs:66-67 notes that unloading with the END key is not implemented;
the model has no unload key.

## Model

| member | source | states |
|---|---|---|
| `RenderLoop.Step` | src/lib.rs:60-64 | the sample just read is always recorded; a press flips visibility; a held key and a released or idle key leave it unchanged |
| `RenderLoop.D3D9RenderLoop.constructor` | src/lib.rs:17-24 | the default instance has the menu visible and INSERT recorded as up |
| `RenderLoop.D3D9RenderLoop.HandleInput` | src/lib.rs:55-65 | only entry 0x2D of the key table is read; visibility flips exactly on a rising edge; the stored flag becomes the sample just read |
| `RenderLoop.D3D9RenderLoop.Render` | src/lib.rs:27-32 | the input step runs first, then the menu is drawn exactly when it is visible after that step |
| `InputHistory.Toggles` | src/lib.rs:61 | the frames where a toggle fires are frames where INSERT is down |
| `InputHistory.RunSnoc` | src/lib.rs:55-64 | running one more frame after a history is one more input step on the state the history left |
| `InputHistory.RunRemembersLastSample` | src/lib.rs:64 | after any history the stored flag equals the last sample, or the starting flag for an empty history |
| `InputHistory.ToggleKeptBySnoc` | src/lib.rs:61 | a later frame never changes whether an earlier frame was a press |
| `InputHistory.TogglesSnoc` | src/lib.rs:61 | a new frame adds itself to the presses exactly when it is a rising edge against the previous sample |
| `InputHistory.TogglesSnocCount` | src/lib.rs:61-63 | a new frame adds one to the number of presses exactly when it is a rising edge, and nothing otherwise |
| `InputHistory.RunParity` | src/lib.rs:55-64 | after any history the visibility is the starting visibility flipped once per press, i.e. changed exactly when the number of presses is odd |
| `InputHistory.DefaultRunParity` | src/lib.rs:17-64 | from the default state the menu is visible exactly when the number of presses is even, and the stored flag is the last sample |
| `InputHistory.HeldOrReleasedNeverToggles` | src/lib.rs:61-64 | a key held from before the history, or kept up throughout, yields no presses and leaves visibility unchanged for any number of frames |
| `InputHistory.RunFramesIsRun` | src/lib.rs:60-64 | feeding whole key tables frame by frame reaches the same state as feeding only their entry-0x2D column |
| `InputHistory.OnlyInsertKeyMatters` | src/lib.rs:60 | two histories of key tables that agree on entry 0x2D on every frame leave the same state, whatever the other keys do |
| `InputHistory.ToggleExactlyOnPress` | src/lib.rs:61-63 | the newest frame flips the menu exactly when it is a press of the history, and leaves it unchanged otherwise |
| `InputHistory.ExampleHeldTwoFrames` | src/lib.rs:60-64 | down, down from the default state: one press at the first frame, the stored flag is down and the menu is hidden |
| `InputHistory.ExampleTwoPresses` | src/lib.rs:60-64 | down, down, up, down from the default state: presses at the first and fourth frames only, and the menu ends visible |
| `Host.PresentFrames` | src/lib.rs:27-32 | calling render once per frame on one object leaves it in the state of the fold, and the menu is drawn on frame i exactly when the starting visibility differs from the parity of the presses up to frame i |
| `Host.Session` | src/lib.rs:17-32 | a default instance driven through any frames draws the menu on a frame exactly when an even number of presses happened up to and including it |

Definitions the lemmas above are about (no contract of their own):

- `RenderLoop.RisingEdge` (src/lib.rs:61): the key is down now and was up on the previous frame.
- `InputHistory.Run` (src/lib.rs:55-64): the fold of `Step`, first sample first, i.e. `handle_input` called once per frame.
- `InputHistory.RunFrames` (src/lib.rs:60-64): the same fold over whole key tables, each read only at entry 0x2D.
- `InputHistory.InsertSamples` (src/lib.rs:60): the entry-0x2D column of a history of key tables.

## Left out

- The ImGui drawing calls inside `render` (window, text, button, separator, checkbox; src/lib.rs:33-48): foreign UI calls. The model keeps only the flag "menu drawn this frame". The checkbox's `enabled` value is reset every frame and carries no state.
- The `hudhook!` registration macro (src/lib.rs:73) and the DirectX 9 presentation-call interception it installs: a foreign hooking library. `Host` stands in for it only as a sequential caller of `render`.
- The injector (src/bin/injector.rs): command-line arguments, the executable's own path, file-existence checks, process lookup and remote injection are all I/O and operating-system calls. Its only local computation is a fixed build-layout path tweak.
- Self-unload, the unload key, module-handle marshalling, worker threads and console set-up: none of these exist in the code (src/lib.rs:66-67).
- Concurrency: calls to `render` are modelled as one sequential series, as the hooking library is assumed never to call it from two threads at once.
- The size of the UI library's key-down table: the model only requires it to be longer than 0x2D, which the fixed-size table guarantees.
