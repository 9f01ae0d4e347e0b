/** A model of the interaction core of the hojidigene terminal viewer
    (src/main.rs): the two-mode application state, the key handler of the
    sequence viewer, and the event loop that reads terminal events,
    dispatches them on the current mode and redraws the screen.

    The blocking event source is replaced by a finite sequence of read
    results, and the terminal by an object that logs every frame it draws
    and fails on a scripted set of draw calls. */
module Hojidigene {

  // ---------------------------------------------------------------------
  // Data model
  // ---------------------------------------------------------------------

  /** The interaction mode (src/main.rs:16-19). */
  datatype Mode = Quit | SequenceViewer

  /** A key code as the event source reports it. Only `Esc` is singled out
      by the program; every other key is either a character or a named key
      (Enter, Backspace, F1, ...). */
  datatype KeyCode = Esc | Char(ch: char) | Named(name: string)

  /** A terminal event. Only `Key` events are acted upon. */
  datatype Event =
    | Key(code: KeyCode)
    | Mouse
    | Resize(columns: nat, rows: nat)
    | FocusGained
    | FocusLost
    | Paste(text: string)

  /** The result of one blocking read of the event source. */
  datatype ReadResult = Received(event: Event) | ReadFailed

  /** The terminal I/O failures the loop propagates. */
  datatype IoError = ReadError | DrawError

  /** How a run of the event loop ended: it returned `Ok(())`, it returned
      an error, or it is still blocked waiting for the next event because
      the modelled input ran out. */
  datatype Outcome = Finished | Failed(error: IoError) | Waiting

  /** The application state: one mutable field (src/main.rs:21-31). */
  class App {
    var mode: Mode

    /** `App::new` always starts in the sequence viewer. */
    constructor ()
      ensures mode == SequenceViewer
    {
      mode := SequenceViewer;
    }
  }

  /** The drawing surface. `frames` logs, in order, the mode whose renderer
      produced each frame successfully drawn; `draws` counts draw calls;
      draw call number `n` (counting from 0 over the terminal's lifetime)
      fails with an I/O error exactly when `n in failing`. */
  class Terminal {
    var frames: seq<Mode>
    var draws: nat
    const failing: set<nat>

    constructor (failing: set<nat>)
      ensures this.failing == failing
      ensures frames == [] && draws == 0
    {
      this.failing := failing;
      frames := [];
      draws := 0;
    }

    /** One call of `terminal.draw` with the renderer bound to `mode`. */
    method Draw(mode: Mode) returns (ok: bool)
      modifies this
      ensures ok <==> old(draws) !in failing
      ensures draws == old(draws) + 1
      ensures frames == if ok then old(frames) + [mode] else old(frames)
    {
      ok := draws !in failing;
      if ok {
        frames := frames + [mode];
      }
      draws := draws + 1;
    }
  }

  // ---------------------------------------------------------------------
  // Transitions
  // ---------------------------------------------------------------------

  /** The key handler of the sequence viewer (src/main.rs:51-57). It may
      only be invoked in `SequenceViewer`; `mode` is the `app.mode` it
      asserts on, the only part of the application state it reads. */
  function ActionSequenceViewer(mode: Mode, key: KeyCode): (next: Mode)
    requires mode == SequenceViewer
    ensures key == Esc ==> next == Quit
    ensures key != Esc ==> next == mode
  {
    match key
    case Esc => Quit
    case _ => SequenceViewer
  }

  /** The handler lookup on the current mode (src/main.rs:67-70): the
      sequence viewer's handler, and no way out of `Quit`. */
  function Dispatch(mode: Mode, key: KeyCode): (next: Mode)
    ensures next == Quit <==> (mode == Quit || key == Esc)
    ensures next != Quit ==> next == mode
  {
    match mode
    case SequenceViewer => ActionSequenceViewer(mode, key)
    case Quit => Quit
  }

  // ---------------------------------------------------------------------
  // Reference definition of the event loop
  // ---------------------------------------------------------------------

  /** What a run of the loop produced: how it ended, the final mode, the
      frames drawn successfully, the number of draw calls made and the
      number of read results consumed. */
  datatype Run = Run(outcome: Outcome, mode: Mode, frames: seq<Mode>, draws: nat, consumed: nat)

  /** The loop of `run_app` from its `i`-th read on, in mode `mode`, with
      `frames` and `draws` the frames and draw calls so far; `start` is
      the terminal's draw count when `run_app` was entered. */
  function Loop(mode: Mode, input: seq<ReadResult>, i: nat, failing: set<nat>, start: nat,
                frames: seq<Mode>, draws: nat): (r: Run)
    requires i <= |input|
    ensures i <= r.consumed <= |input|
    ensures i < |input| ==> i < r.consumed
    ensures r.outcome == Waiting ==> r.consumed == |input|
    ensures draws <= r.draws && |frames| <= |r.frames| && r.frames[..|frames|] == frames
    decreases |input| - i
  {
    if i == |input| then Run(Waiting, mode, frames, draws, i)
    else
      match input[i]
      case ReadFailed => Run(Failed(ReadError), mode, frames, draws, i + 1)
      case Received(event) =>
        if !event.Key? then Loop(mode, input, i + 1, failing, start, frames, draws)
        else
          var next := Dispatch(mode, event.code);
          if next == Quit then Run(Finished, next, frames, draws, i + 1)
          else if start + draws in failing then Run(Failed(DrawError), next, frames, draws + 1, i + 1)
          else Loop(next, input, i + 1, failing, start, frames + [next], draws + 1)
  }

  /** `run_app` entered in mode `mode` on a terminal that has made `start`
      draw calls: the initial draw of the sequence viewer, then the loop. */
  function Behaviour(mode: Mode, input: seq<ReadResult>, failing: set<nat>, start: nat): (r: Run)
    ensures r.consumed <= |input| && 1 <= r.draws
    ensures r.consumed == 0 <==> start in failing || input == []
    ensures start in failing ==> r.outcome == Failed(DrawError) && r.frames == [] && r.draws == 1
    ensures start !in failing ==> 1 <= |r.frames| && r.frames[0] == SequenceViewer
  {
    if start in failing then Run(Failed(DrawError), mode, [], 1, 0)
    else Loop(mode, input, 0, failing, start, [SequenceViewer], 1)
  }

  // ---------------------------------------------------------------------
  // The event loop itself
  // ---------------------------------------------------------------------

  /** `run_app` (src/main.rs:59-79), with `event::read` replaced by the
      read results `input` and `terminal.draw` by `Terminal.Draw`.
      `consumed` is the number of reads the loop made. */
  method RunApp(terminal: Terminal, app: App, input: seq<ReadResult>) returns (outcome: Outcome, consumed: nat)
    modifies terminal, app
    ensures var r := Behaviour(old(app.mode), input, terminal.failing, old(terminal.draws));
      && outcome == r.outcome
      && consumed == r.consumed
      && app.mode == r.mode
      && terminal.frames == old(terminal.frames) + r.frames
      && terminal.draws == old(terminal.draws) + r.draws
    ensures old(app.mode) == SequenceViewer ==>
      RunSpec(input, terminal.failing, old(terminal.draws),
              Run(outcome, app.mode, terminal.frames[|old(terminal.frames)|..],
                  terminal.draws - old(terminal.draws), consumed))
  {
    ghost var mode0, frames0, start := app.mode, terminal.frames, terminal.draws;
    ghost var r := Behaviour(mode0, input, terminal.failing, start);
    BehaviourMeetsSpec(input, terminal.failing, start);

    var ok := terminal.Draw(SequenceViewer);
    if !ok {
      assert terminal.frames[|frames0|..] == [];
      return Failed(DrawError), 0;
    }
    ghost var frames, draws := [SequenceViewer], 1;
    var i := 0;
    while i < |input|
      invariant 0 <= i <= |input|
      invariant terminal.frames == frames0 + frames && terminal.draws == start + draws
      invariant Loop(app.mode, input, i, terminal.failing, start, frames, draws) == r
      decreases |input| - i
    {
      var read := input[i];
      i := i + 1;
      match read
      case ReadFailed =>
        assert terminal.frames[|frames0|..] == frames;
        return Failed(ReadError), i;
      case Received(event) =>
        if event.Key? {
          app.mode := Dispatch(app.mode, event.code);
          if app.mode == Quit {
            assert terminal.frames[|frames0|..] == frames;
            return Finished, i;
          }
          ok := terminal.Draw(app.mode);
          if !ok {
            assert terminal.frames[|frames0|..] == frames;
            return Failed(DrawError), i;
          }
          frames, draws := frames + [app.mode], draws + 1;
        }
    }
    assert terminal.frames[|frames0|..] == frames;
    return Waiting, i;
  }

  // ---------------------------------------------------------------------
  // A declarative specification of a run
  // ---------------------------------------------------------------------

  /** The read result of an `Esc` key press. */
  predicate IsEsc(r: ReadResult) {
    r == Received(Key(Esc))
  }

  /** A read result on which the loop returns whatever the draw script:
      a read error or `Esc` (in the sequence viewer). */
  predicate Stops(r: ReadResult) {
    r.ReadFailed? || IsEsc(r)
  }

  /** A read result that the loop dispatches. */
  predicate IsKey(r: ReadResult) {
    r.Received? && r.event.Key?
  }

  /** The number of key events among the read results `s`. */
  function KeyCount(s: seq<ReadResult>): nat
  {
    if s == [] then 0 else KeyCount(s[..|s| - 1]) + (if IsKey(s[|s| - 1]) then 1 else 0)
  }

  /** `n` copies of the sequence viewer's frame. */
  function Frames(n: nat): (fs: seq<Mode>)
    ensures |fs| == n && forall k :: 0 <= k < n ==> fs[k] == SequenceViewer
  {
    seq(n, _ => SequenceViewer)
  }

  /** The outcomes on which `run_app` returns on the read result it just
      consumed, before any draw. */
  predicate Returned(o: Outcome) {
    o == Finished || o == Failed(ReadError)
  }

  /** The read results fully handled by a run: all it consumed, except the
      read error or `Esc` it returned on. */
  function Handled(r: Run): int {
    if Returned(r.outcome) then r.consumed - 1 else r.consumed
  }

  /** What a run of `run_app` started in the sequence viewer may produce,
      stated without following the loop step by step:
      - it returns `Ok` exactly when the last read was `Esc`, and then (and
        only then) ends in `Quit`;
      - a read error is returned when the last read failed;
      - a draw error is returned when a draw call on the script's failing
        list was made, the initial one or the one after the last key;
      - it waits only when every read result was consumed;
      - no read result before the last one stops the loop;
      - there is one draw call at start and one per key handled without
        returning, every frame is the sequence viewer's, and every draw
        call but a failing last one succeeded. */
  ghost predicate RunSpec(input: seq<ReadResult>, failing: set<nat>, start: nat, r: Run)
  {
    && r.consumed <= |input|
    && (r.outcome == Finished ==> 0 < r.consumed && IsEsc(input[r.consumed - 1]))
    && (r.outcome == Failed(ReadError) ==> 0 < r.consumed && input[r.consumed - 1] == ReadFailed)
    && (r.outcome == Failed(DrawError) ==> r.consumed == 0 || IsKey(input[r.consumed - 1]))
    && (r.outcome == Waiting ==> r.consumed == |input|)
    && ((r.mode == Quit) <==> (r.outcome == Finished))
    && (forall j :: 0 <= j < Handled(r) ==> !Stops(input[j]))
    && r.draws == 1 + KeyCount(input[..Handled(r)])
    && |r.frames| == (if r.outcome == Failed(DrawError) then r.draws - 1 else r.draws)
    && (forall k :: 0 <= k < |r.frames| ==> r.frames[k] == SequenceViewer)
    && (forall n :: start <= n < start + |r.frames| ==> n !in failing)
    && (r.outcome == Failed(DrawError) ==> start + |r.frames| in failing)
  }

  // ---------------------------------------------------------------------
  // Lemmas
  // ---------------------------------------------------------------------

  /** The key count of one more read result. */
  lemma KeyCountSnoc(s: seq<ReadResult>, i: int)
    ensures 0 <= i < |s| ==>
      KeyCount(s[..i + 1]) == KeyCount(s[..i]) + (if IsKey(s[i]) then 1 else 0)
  {
    if 0 <= i < |s| {
      assert s[..i + 1][..i] == s[..i];
    }
  }

  /** More read results never hold fewer key events. */
  lemma {:induction false} KeyCountMonotone(s: seq<ReadResult>, a: int, b: int)
    ensures 0 <= a <= b <= |s| ==> KeyCount(s[..a]) <= KeyCount(s[..b])
    decreases b - a
  {
    if 0 <= a < b <= |s| {
      KeyCountMonotone(s, a, b - 1);
      KeyCountSnoc(s, b - 1);
    }
  }

  /** The loop, entered in the sequence viewer after handling `input[..i]`
      without stopping, meets the specification. */
  lemma {:induction false} LoopMeetsSpec(input: seq<ReadResult>, i: nat, failing: set<nat>, start: nat,
                                         frames: seq<Mode>, draws: nat)
    requires i <= |input|
    requires forall j :: 0 <= j < i ==> !Stops(input[j])
    requires draws == 1 + KeyCount(input[..i]) && |frames| == draws
    requires forall k :: 0 <= k < |frames| ==> frames[k] == SequenceViewer
    requires forall n :: start <= n < start + draws ==> n !in failing
    ensures RunSpec(input, failing, start, Loop(SequenceViewer, input, i, failing, start, frames, draws))
    decreases |input| - i
  {
    if i < |input| {
      KeyCountSnoc(input, i);
      match input[i]
      case ReadFailed =>
      case Received(event) =>
        if !event.Key? {
          LoopMeetsSpec(input, i + 1, failing, start, frames, draws);
        } else if event.code != Esc && start + draws !in failing {
          LoopMeetsSpec(input, i + 1, failing, start, frames + [SequenceViewer], draws + 1);
        }
    }
  }

  /** `run_app` started in the sequence viewer (as `main` starts it, with a
      fresh `App`) meets the specification. */
  lemma BehaviourMeetsSpec(input: seq<ReadResult>, failing: set<nat>, start: nat)
    ensures RunSpec(input, failing, start, Behaviour(SequenceViewer, input, failing, start))
  {
    if start !in failing {
      assert input[..0] == [];
      LoopMeetsSpec(input, 0, failing, start, [SequenceViewer], 1);
    }
  }

  /** No run meeting the specification stops before another one does: a
      run that returned on a read result cannot be outrun past it, and a
      run that failed to draw cannot be outrun past that draw call. */
  lemma ConsumedNotLess(input: seq<ReadResult>, failing: set<nat>, start: nat, r1: Run, r2: Run)
    requires RunSpec(input, failing, start, r1) && RunSpec(input, failing, start, r2)
    ensures r1.consumed >= r2.consumed
  {
    var c1, c2: int := r1.consumed, r2.consumed;
    // A run that returned on its last read result stopped there ...
    assert Returned(r1.outcome) ==> 0 < c1 && Stops(input[c1 - 1]);
    // ... and a run handling that read result did not.
    assert 0 < c1 <= Handled(r2) ==> !Stops(input[c1 - 1]);
    // A run that failed to draw made a failing draw call ...
    assert r1.outcome == Failed(DrawError) ==> start + KeyCount(input[..c1]) in failing;
    // ... which a longer run made successfully.
    KeyCountMonotone(input, c1, c2 - 1);
    KeyCountMonotone(input, c2 - 1, Handled(r2));
    KeyCountSnoc(input, c2 - 1);
    assert 0 < c2 ==> |r2.frames| >= 1 + KeyCount(input[..c2 - 1]);
    assert KeyCount(input[..c1]) < |r2.frames| ==> start + KeyCount(input[..c1]) !in failing;
    assert r1.outcome.Failed? ==> r1.outcome.error.ReadError? || r1.outcome.error.DrawError?;
  }

  /** Two runs meeting the specification and consuming the same read
      results ended the same way. */
  lemma OutcomesAgree(input: seq<ReadResult>, failing: set<nat>, start: nat, r1: Run, r2: Run)
    requires RunSpec(input, failing, start, r1) && RunSpec(input, failing, start, r2)
    requires r1.consumed == r2.consumed
    ensures r1.outcome == r2.outcome
  {
    var c := r1.consumed;
    assert Returned(r1.outcome) ==> 0 < c && Stops(input[c - 1]);
    assert Returned(r2.outcome) ==> 0 < c && Stops(input[c - 1]);
    assert 0 < c && !Returned(r1.outcome) ==> !Stops(input[c - 1]);
    assert 0 < c && !Returned(r2.outcome) ==> !Stops(input[c - 1]);
    assert r1.outcome == Finished ==> IsEsc(input[c - 1]);
    assert r2.outcome == Finished ==> IsEsc(input[c - 1]);
    assert r1.outcome == Failed(DrawError) ==> start + KeyCount(input[..c]) in failing;
    assert r2.outcome == Failed(DrawError) ==> start + KeyCount(input[..c]) in failing;
    assert r1.outcome == Waiting ==> start + KeyCount(input[..c]) !in failing;
    assert r2.outcome == Waiting ==> start + KeyCount(input[..c]) !in failing;
    assert r1.outcome.Failed? ==> r1.outcome.error.ReadError? || r1.outcome.error.DrawError?;
    assert r2.outcome.Failed? ==> r2.outcome.error.ReadError? || r2.outcome.error.DrawError?;
  }

  /** The specification determines the run: together with
      `BehaviourMeetsSpec`, `RunSpec` is an independent definition of what
      `run_app` does. */
  lemma SpecDeterminesRun(input: seq<ReadResult>, failing: set<nat>, start: nat, r1: Run, r2: Run)
    requires RunSpec(input, failing, start, r1) && RunSpec(input, failing, start, r2)
    ensures r1 == r2
  {
    ConsumedNotLess(input, failing, start, r1, r2);
    ConsumedNotLess(input, failing, start, r2, r1);
    OutcomesAgree(input, failing, start, r1, r2);
    assert r1.frames == r2.frames;
  }

  // ---------------------------------------------------------------------
  // The properties of run_app, as consequences of the specification
  // ---------------------------------------------------------------------

  /** A run started in the sequence viewer returns `Ok` on the first `Esc`
      key press, in `Quit`, having drawn once at start and once for every
      earlier key press (none of them `Esc`) and nothing after `Esc`. */
  lemma EscEndsRun(input: seq<ReadResult>, failing: set<nat>, start: nat, k: nat)
    requires k < |input| && IsEsc(input[k])
    requires forall j :: 0 <= j < k ==> !Stops(input[j])
    requires forall n :: start <= n <= start + KeyCount(input[..k]) ==> n !in failing
    ensures var draws := 1 + KeyCount(input[..k]);
      Behaviour(SequenceViewer, input, failing, start) == Run(Finished, Quit, Frames(draws), draws, k + 1)
  {
    var draws := 1 + KeyCount(input[..k]);
    var r := Run(Finished, Quit, Frames(draws), draws, k + 1);
    assert RunSpec(input, failing, start, r);
    BehaviourMeetsSpec(input, failing, start);
    SpecDeterminesRun(input, failing, start, r, Behaviour(SequenceViewer, input, failing, start));
  }

  /** A failing initial draw ends the run with a draw error before any
      event is read. */
  lemma InitialDrawErrorEndsRun(input: seq<ReadResult>, failing: set<nat>, start: nat)
    requires start in failing
    ensures Behaviour(SequenceViewer, input, failing, start) == Run(Failed(DrawError), SequenceViewer, [], 1, 0)
  {
  }

  /** A read error ends the run with that error: nothing after it is read,
      and nothing is drawn for it. */
  lemma ReadErrorEndsRun(input: seq<ReadResult>, failing: set<nat>, start: nat, k: nat)
    requires k < |input| && input[k] == ReadFailed
    requires forall j :: 0 <= j < k ==> !Stops(input[j])
    requires forall n :: start <= n <= start + KeyCount(input[..k]) ==> n !in failing
    ensures var draws := 1 + KeyCount(input[..k]);
      Behaviour(SequenceViewer, input, failing, start)
        == Run(Failed(ReadError), SequenceViewer, Frames(draws), draws, k + 1)
  {
    var draws := 1 + KeyCount(input[..k]);
    var r := Run(Failed(ReadError), SequenceViewer, Frames(draws), draws, k + 1);
    assert RunSpec(input, failing, start, r);
    BehaviourMeetsSpec(input, failing, start);
    SpecDeterminesRun(input, failing, start, r, Behaviour(SequenceViewer, input, failing, start));
  }

  /** A failing redraw after a key press ends the run with a draw error
      right after that key: nothing after it is read. */
  lemma DrawErrorEndsRun(input: seq<ReadResult>, failing: set<nat>, start: nat, k: nat)
    requires k < |input| && IsKey(input[k]) && !IsEsc(input[k])
    requires forall j :: 0 <= j < k ==> !Stops(input[j])
    requires forall n :: start <= n <= start + KeyCount(input[..k]) ==> n !in failing
    requires start + 1 + KeyCount(input[..k]) in failing
    ensures var frames := 1 + KeyCount(input[..k]);
      Behaviour(SequenceViewer, input, failing, start)
        == Run(Failed(DrawError), SequenceViewer, Frames(frames), frames + 1, k + 1)
  {
    var frames := 1 + KeyCount(input[..k]);
    var r := Run(Failed(DrawError), SequenceViewer, Frames(frames), frames + 1, k + 1);
    KeyCountSnoc(input, k);
    assert RunSpec(input, failing, start, r);
    BehaviourMeetsSpec(input, failing, start);
    SpecDeterminesRun(input, failing, start, r, Behaviour(SequenceViewer, input, failing, start));
  }

  /** Without `Esc`, read errors or draw errors, the run reads every event
      and is still in the sequence viewer, waiting for the next one. */
  lemma InputExhausted(input: seq<ReadResult>, failing: set<nat>, start: nat)
    requires forall j :: 0 <= j < |input| ==> !Stops(input[j])
    requires forall n :: start <= n <= start + KeyCount(input) ==> n !in failing
    ensures var draws := 1 + KeyCount(input);
      Behaviour(SequenceViewer, input, failing, start)
        == Run(Waiting, SequenceViewer, Frames(draws), draws, |input|)
  {
    var draws := 1 + KeyCount(input);
    var r := Run(Waiting, SequenceViewer, Frames(draws), draws, |input|);
    assert input[..Handled(r)] == input;
    assert RunSpec(input, failing, start, r);
    BehaviourMeetsSpec(input, failing, start);
    SpecDeterminesRun(input, failing, start, r, Behaviour(SequenceViewer, input, failing, start));
  }

  /** `s` with an event `event` read at position `p`. */
  function Insert(s: seq<ReadResult>, p: nat, event: Event): (t: seq<ReadResult>)
    requires p <= |s|
    ensures |t| == |s| + 1 && t[p] == Received(event)
    ensures forall j :: 0 <= j < p ==> t[j] == s[j]
    ensures forall j :: p <= j < |s| ==> t[j + 1] == s[j]
  {
    s[..p] + [Received(event)] + s[p..]
  }

  /** Past an inserted event, the loop does what it did without it, one
      read later. */
  lemma {:induction false} LoopSkipsInserted(mode: Mode, input: seq<ReadResult>, p: nat, event: Event, i: nat,
                                             failing: set<nat>, start: nat, frames: seq<Mode>, draws: nat)
    requires p <= i <= |input| && !event.Key?
    ensures var r := Loop(mode, input, i, failing, start, frames, draws);
      Loop(mode, Insert(input, p, event), i + 1, failing, start, frames, draws) == r.(consumed := r.consumed + 1)
    decreases |input| - i
  {
    if i < |input| {
      match input[i]
      case ReadFailed =>
      case Received(e) =>
        if !e.Key? {
          LoopSkipsInserted(mode, input, p, event, i + 1, failing, start, frames, draws);
        } else {
          var next := Dispatch(mode, e.code);
          if next != Quit && start + draws !in failing {
            LoopSkipsInserted(next, input, p, event, i + 1, failing, start, frames + [next], draws + 1);
          }
        }
    }
  }

  /** Up to an inserted non-key event, the loop reads the same events; at
      it, it reads again without a change of mode or a draw. */
  lemma {:induction false} LoopIgnoresInserted(mode: Mode, input: seq<ReadResult>, p: nat, event: Event, i: nat,
                                               failing: set<nat>, start: nat, frames: seq<Mode>, draws: nat)
    requires i <= p <= |input| && !event.Key?
    ensures var r := Loop(mode, input, i, failing, start, frames, draws);
      var r' := Loop(mode, Insert(input, p, event), i, failing, start, frames, draws);
      r'.(consumed := r.consumed) == r
      && r'.consumed == r.consumed + (if p < r.consumed || r.outcome == Waiting then 1 else 0)
    decreases |input| - i
  {
    var t := Insert(input, p, event);
    if i == p {
      assert Loop(mode, t, p, failing, start, frames, draws) == Loop(mode, t, p + 1, failing, start, frames, draws);
      LoopSkipsInserted(mode, input, p, event, p, failing, start, frames, draws);
    } else {
      assert t[i] == input[i];
      match input[i]
      case ReadFailed =>
      case Received(e) =>
        if !e.Key? {
          LoopIgnoresInserted(mode, input, p, event, i + 1, failing, start, frames, draws);
        } else {
          var next := Dispatch(mode, e.code);
          if next != Quit && start + draws !in failing {
            LoopIgnoresInserted(next, input, p, event, i + 1, failing, start, frames + [next], draws + 1);
          }
        }
    }
  }

  /** A non-key event (mouse, resize, focus, paste) read anywhere changes
      neither the mode, nor the frames drawn, nor the way the run ends; the
      loop just reads it and reads again, so a run that gets past it (or
      waits) makes exactly one more read, and any other run none. */
  lemma NonKeyEventsIgnored(mode: Mode, input: seq<ReadResult>, p: nat, event: Event, failing: set<nat>, start: nat)
    requires p <= |input| && !event.Key?
    ensures var r := Behaviour(mode, input, failing, start);
      var r' := Behaviour(mode, Insert(input, p, event), failing, start);
      r'.(consumed := r.consumed) == r
      && r'.consumed == r.consumed + (if p < r.consumed || r.outcome == Waiting then 1 else 0)
  {
    if start !in failing {
      LoopIgnoresInserted(mode, input, p, event, 0, failing, start, [SequenceViewer], 1);
    }
  }
}
