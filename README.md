# hojidigene: the interaction core, modelled in Dafny

hojidigene is a small terminal viewer. It shows a fixed DNA sequence below
an empty three-row header and exits when the user presses Escape. Its only logic lives
in `src/main.rs`:

- a two-valued interaction mode (`Quit`, `SequenceViewer`);
- an application record `App` with one mutable field, `mode`;
- the sequence viewer's key handler, `action_sequence_viewer`;
- the event loop `run_app`. It draws once at start, then reads terminal
  events, ignores all but key events, and dispatches each key on the
  current mode. It stores the new mode and returns `Ok(())` on `Quit`
  without drawing; otherwise it redraws. Read and draw I/O errors are
  propagated.

`hojidigene.dfy` (module `Hojidigene`) models this core:

- `Mode`, `KeyCode`, `Event` and `IoError` are datatypes. `App` is a class
  with the one field `mode`.
- The blocking `event::read()` is replaced by a finite sequence of
  `ReadResult`s (`Received(event)` or `ReadFailed`). When the sequence
  runs out, the run's outcome is `Waiting`: the loop is still blocked in
  the read.
- `terminal.draw` is replaced by `Terminal.Draw`. The `Terminal` object
  logs, for each frame drawn, the mode whose renderer drew it, and counts
  draw calls. Draw call `n` fails with an I/O error exactly when `n` is in
  the terminal's fixed set `failing`.
- `ActionSequenceViewer` and `Dispatch` are functions. `RunApp` is a method
  with a `while` loop that assigns `app.mode` in place and draws through
  the terminal object. Its contract equates the outcome, the number of
  reads, the final mode and the terminal's new frames and draw count with
  `Behaviour`, a recursive definition of the loop.
- `RunSpec` says what a run started in the sequence viewer may produce,
  without following the loop step by step:
  - how it ended, and on which read;
  - that no earlier read stopped it;
  - that there is one draw at start and one per key handled;
  - that every frame is the sequence viewer's;
  - which draw calls succeeded.

  `BehaviourMeetsSpec` and `SpecDeterminesRun` prove that `Behaviour`
  satisfies `RunSpec` and that `RunSpec` admits only one run. So `RunSpec`
  is an independent definition of `run_app`. The properties of the loop
  (`EscEndsRun`, `ReadErrorEndsRun`, `DrawErrorEndsRun`, `InputExhausted`)
  are derived from it.

`action_sequence_viewer` takes `&mut App` but only reads `app.mode`, in its
assertion. The model passes that mode, and the assertion becomes the
function's `requires`.

## Model

| member | source | states |
|---|---|---|
| `Hojidigene.App.constructor` | src/main.rs:25-31 | a fresh application is in `SequenceViewer` |
| `Hojidigene.ActionSequenceViewer` | src/main.rs:51-57 | may be called only in `SequenceViewer`; `Esc` yields `Quit`; every other key leaves the mode unchanged (a self-loop) |
| `Hojidigene.Dispatch` | src/main.rs:67-70 | the next mode is `Quit` exactly when the mode was `Quit` or the key is `Esc`; otherwise the mode is unchanged |
| `Hojidigene.Terminal.constructor` | src/main.rs:86-87 | a new terminal has drawn no frame and made no draw call |
| `Hojidigene.Terminal.Draw` | src/main.rs:76 | a draw call succeeds exactly when its number is not scripted to fail; it counts the call and logs the frame only on success |
| `Hojidigene.Loop` | src/main.rs:63-78 | the loop reads one result at a time: it returns on a read error, skips a non-key event, and on a key either returns in `Quit` or draws and goes on; it reads at least one more result while any remain, only appends to the frames and draw calls, and waits only once every result is read |
| `Hojidigene.Behaviour` | src/main.rs:59-79 | the initial draw, where a failing draw returns `DrawError` having read nothing and made one draw call; otherwise `Loop` from the first read, with the initial frame logged |
| `Hojidigene.RunApp` | src/main.rs:59-79 | the loop's outcome, number of reads, final mode, logged frames and draw calls are those of `Behaviour`; started in `SequenceViewer`, the run meets `RunSpec` |
| `Hojidigene.LoopMeetsSpec` | src/main.rs:63-78 | from any point reached without stopping, the loop's run meets `RunSpec` |
| `Hojidigene.BehaviourMeetsSpec` | src/main.rs:59-79 | a run of `run_app` started in `SequenceViewer` meets `RunSpec` |
| `Hojidigene.ConsumedNotLess` | src/main.rs:59-79 | of two runs meeting `RunSpec`, neither reads past where the other stops |
| `Hojidigene.OutcomesAgree` | src/main.rs:59-79 | two runs meeting `RunSpec` that read equally far end the same way |
| `Hojidigene.SpecDeterminesRun` | src/main.rs:59-79 | `RunSpec` admits at most one run for given input, draw script and start (with `BehaviourMeetsSpec`, exactly one) |
| `Hojidigene.EscEndsRun` | src/main.rs:67-73 | at the first `Esc`, with no earlier read or draw error, the run returns `Ok` in `Quit` after reading through the `Esc`; its draws are 1 plus the number of earlier key presses, with none after `Esc` |
| `Hojidigene.InitialDrawErrorEndsRun` | src/main.rs:61 | a failing initial draw ends the run with `DrawError` before any event is read, with no frame drawn and one draw call made |
| `Hojidigene.ReadErrorEndsRun` | src/main.rs:64 | a read error ends the run with that error; no later event is read and nothing is drawn for it |
| `Hojidigene.DrawErrorEndsRun` | src/main.rs:76 | a failing redraw after a non-`Esc` key ends the run with a draw error; no later event is read |
| `Hojidigene.InputExhausted` | src/main.rs:63-78 | with no `Esc` and no errors, every event is read and the run keeps waiting in `SequenceViewer` with 1 plus the number of key presses draws |
| `Hojidigene.LoopSkipsInserted` | src/main.rs:64 | past an inserted non-key event, the loop behaves as without it, one read later |
| `Hojidigene.LoopIgnoresInserted` | src/main.rs:64 | up to and across an inserted non-key event, the loop's mode, frames, draw calls and outcome are unchanged; it makes exactly one more read when the run gets past the insertion point or waits |
| `Hojidigene.NonKeyEventsIgnored` | src/main.rs:64 | a non-key event read anywhere changes neither the mode, nor the frames drawn, nor how the run ends; the loop just reads again, so there is exactly one more read when the run gets past the insertion point or waits, and none otherwise |

## Left out

- Terminal setup and teardown in `main` (src/main.rs:81-100). These are
  raw mode, the alternate screen, mouse capture and the cursor. They are
  calls into the terminal library with no logic of their own. Each
  teardown step uses `?`, so a failing step skips the later ones.
- Rendering (`render_sequence_viewer`, src/main.rs:33-49). The layout,
  colours, wrapping and the hardcoded sequence belong to the widget
  library. A frame is modelled only as the mode whose renderer drew it.
- Printing a run error and the process exit status (src/main.rs:102-108).
  When every teardown step succeeds, `main` prints a run error and returns
  `Ok(())`, so the exit status is 0. A failing teardown step makes `main`
  return that step's error instead, before the run error is printed.
- The blocking nature of `event::read` and mouse capture. Events are a
  finite input sequence, and running out of it is the outcome `Waiting`.
- The kinds of I/O error. Each failure is one `ReadError` or `DrawError`,
  with no payload.
- The detail of crossterm's key events: modifiers, and press/release
  kinds. The loop dispatches on `key.code` alone, so a key event is
  modelled by its code, which is `Esc`, a character or a named key.
