/**
 * The Linux platform layer of App_linux.go: the decoders of X11 button and modifier state,
 * the quit state machine kept in the package globals, and the event loop that routes X11
 * events to the toolkit.
 *
 * What the loop hands to the rest of the toolkit (the mouse and wheel handlers, the
 * application delegate's will/did notifications, window drawing and resizing, window close
 * requests, the final exit) is appended to an action log. The answers the application
 * delegate gives while an event is processed (whether to quit, whether a window may close)
 * are inputs.
 */
module X11Platform {
  import opened Wrappers

  type WindowId = nat

  // ---------------------------------------------------------------------------------------
  // Decoders

  /** The X11 modifier bits of a button, motion or crossing event's `state` (X.h). */
  const ShiftMask: bv32 := 0x01
  const LockMask: bv32 := 0x02
  const ControlMask: bv32 := 0x04
  const Mod1Mask: bv32 := 0x08
  const Mod4Mask: bv32 := 0x40

  /** The X11 bits that convertKeyMask looks at. */
  const KnownMasks: bv32 := ShiftMask | LockMask | ControlMask | Mod1Mask | Mod4Mask

  /** The toolkit's modifier keys (the bits of event.KeyMask). */
  datatype Modifier = CapsLock | Shift | Control | Option | Command

  /** The X11 bit each toolkit modifier is read from. */
  function XMask(m: Modifier): bv32
  {
    match m
    case CapsLock => LockMask
    case Shift => ShiftMask
    case Control => ControlMask
    case Option => Mod1Mask
    case Command => Mod4Mask
  }

  /** isScrollWheelButton: X11 reports wheel motion as presses of buttons 4 to 7. */
  function IsScrollWheelButton(button: nat): (r: bool)
    ensures r <==> button in {4, 5, 6, 7}
  {
    button > 3 && button < 8
  }

  /** getButton: the toolkit numbers the right button 1 and the middle button 2; every other
      button, the left one included, is 0. */
  function GetButton(button: nat): (r: int)
    ensures 0 <= r <= 2
    ensures r == 1 <==> button == 3
    ensures r == 2 <==> button == 2
  {
    if button == 2 then 2
    else if button == 3 then 1
    else 0
  }

  /** The scroll deltas of a wheel button: up, down, left, right. */
  function WheelDelta(button: nat): (d: (int, int))
    requires IsScrollWheelButton(button)
    ensures (d.0 == 0) != (d.1 == 0)
    ensures -1 <= d.0 <= 1 && -1 <= d.1 <= 1
    ensures d.1 == -1 <==> button == 4
    ensures d.1 == 1 <==> button == 5
    ensures d.0 == -1 <==> button == 6
    ensures d.0 == 1 <==> button == 7
  {
    match button
    case 4 => (0, -1)
    case 5 => (0, 1)
    case 6 => (-1, 0)
    case 7 => (1, 0)
  }

  /** convertKeyMask: each toolkit modifier whose X11 bit is set in `state`. */
  function ConvertKeyMask(state: bv32): (r: set<Modifier>)
    ensures forall m: Modifier :: m in r <==> state & XMask(m) == XMask(m)
  {
    (if state & LockMask == LockMask then {CapsLock} else {})
    + (if state & ShiftMask == ShiftMask then {Shift} else {})
    + (if state & ControlMask == ControlMask then {Control} else {})
    + (if state & Mod1Mask == Mod1Mask then {Option} else {})
    + (if state & Mod4Mask == Mod4Mask then {Command} else {})
  }

  /** Bits other than Lock, Shift, Control, Mod1 and Mod4 do not change the result. */
  lemma ConvertKeyMaskIgnoresOtherBits(state: bv32, other: bv32)
    requires other & KnownMasks == 0
    ensures ConvertKeyMask(state | other) == ConvertKeyMask(state)
  {
    forall m: Modifier ensures (state | other) & XMask(m) == state & XMask(m) {
      assert other & XMask(m) == 0;
    }
  }

  // ---------------------------------------------------------------------------------------
  // Events, actions and the platform state

  /** The application delegate's answer to appShouldQuit. */
  datatype QuitAnswer = QuitCancel | QuitNow | QuitLater

  datatype MouseKind = MouseDown | MouseUp | MouseDragged | MouseMoved | MouseEntered | MouseExited

  /** The X11 events the loop distinguishes; event coordinates are the server's integers. */
  datatype XEvent =
    | KeyPress(window: WindowId)
    | KeyRelease(window: WindowId)
    | ButtonPress(window: WindowId, button: nat, state: bv32, x: int, y: int)
    | ButtonRelease(window: WindowId, button: nat, state: bv32, x: int, y: int)
    | Motion(window: WindowId, state: bv32, x: int, y: int)
    | Enter(window: WindowId, state: bv32, x: int, y: int)
    | Leave(window: WindowId, state: bv32, x: int, y: int)
    | FocusIn(window: WindowId)
    | FocusOut(window: WindowId)
    | Expose(window: WindowId, x: int, y: int, width: int, height: int)
    | DestroyNotify(window: WindowId)
    | ConfigureNotify(window: WindowId)
    | ClientMessage(window: WindowId, deleteWindow: bool)
    | OtherEvent(window: WindowId)

  /** What the delegate answers while one event is processed. */
  datatype Replies = Replies(shouldQuit: QuitAnswer, shouldClose: bool)

  /** One turn of the loop: the next X11 event and the delegate's answers during it. */
  datatype Input = Input(event: XEvent, replies: Replies)

  /** What the loop asks of the rest of the toolkit, in order. */
  datatype Action =
    | WillFinishStartup
    | DidFinishStartup
    | Mouse(kind: MouseKind, window: WindowId, modifiers: set<Modifier>, button: int,
            clickCount: int, x: int, y: int)
    | Wheel(window: WindowId, modifiers: set<Modifier>, x: int, y: int, dx: int, dy: int)
    | WillBecomeActive
    | DidBecomeActive
    | WillResignActive
    | DidResignActive
    | Draw(window: WindowId, x: int, y: int, width: int, height: int)
    | WindowDidClose(window: WindowId)
    /** windowResized, the root's ValidateLayout and the surface resize, made while the
        window ignores repaint requests. */
    | Resized(window: WindowId)
    | CloseRequested(window: WindowId)
    | WillQuit
    | Exit

  /**
   * The package globals and the loop-local drag state. `windows` is the window registry
   * (windowMap and Windows()); its length is taken as xWindowCount. `exited` records that
   * syscall.Exit ran, after which nothing happens.
   */
  datatype Platform = Platform(
    running: bool,
    awaitingQuit: bool,
    quitting: bool,
    exited: bool,
    windows: seq<WindowId>,
    mouseDownButton: int,
    lastMouseDownWindow: WindowId,
    ignoreRepaint: set<WindowId>)

  datatype Outcome = Outcome(state: Platform, actions: seq<Action>)

  /** The platform before platformStartUserInterface. */
  function Initial(windows: seq<WindowId>): Platform
  {
    Platform(false, false, false, false, windows, -1, 0, {})
  }

  /** An exited platform no longer runs. */
  ghost predicate Settled(s: Platform)
  {
    s.exited ==> !s.running
  }

  // ---------------------------------------------------------------------------------------
  // The quit state machine

  /** One close request per window, in registry order. */
  function CloseAll(ws: seq<WindowId>): (r: seq<Action>)
    ensures |r| == |ws|
    ensures forall i | 0 <= i < |ws| :: r[i] == CloseRequested(ws[i])
  {
    if ws == [] then [] else CloseAll(ws[..|ws| - 1]) + [CloseRequested(ws[|ws| - 1])]
  }

  /** finishQuit: stop the loop, close the display and exit the process. */
  function AfterFinishQuit(s: Platform): Outcome
  {
    Outcome(s.(running := false, exited := true), [Exit])
  }

  /** initiateQuit: mark the quit, then close every window, or finish at once when none is open. */
  function AfterInitiateQuit(s: Platform): Outcome
  {
    var q := s.(quitting := true);
    if |s.windows| > 0 then Outcome(q, [WillQuit] + CloseAll(s.windows))
    else
      var f := AfterFinishQuit(q);
      Outcome(f.state, [WillQuit] + f.actions)
  }

  /** platformAttemptQuit. */
  function AfterAttemptQuit(s: Platform, answer: QuitAnswer): Outcome
  {
    match answer
    case QuitCancel => Outcome(s, [])
    case QuitLater => Outcome(s.(awaitingQuit := true), [])
    case QuitNow => AfterInitiateQuit(s)
  }

  /** platformAppMayQuitNow: answers a deferred quit. */
  function AfterMayQuitNow(s: Platform, quit: bool): Outcome
  {
    if !s.awaitingQuit then Outcome(s, [])
    else
      var a := s.(awaitingQuit := false);
      if quit then AfterInitiateQuit(a) else Outcome(a, [])
  }

  /** A cancelled quit changes nothing and asks for nothing. */
  lemma AttemptQuitCancelled(s: Platform)
    ensures AfterAttemptQuit(s, QuitCancel) == Outcome(s, [])
  {
  }

  /** A deferred quit only raises awaitingQuit. */
  lemma AttemptQuitDeferred(s: Platform)
    ensures AfterAttemptQuit(s, QuitLater) == Outcome(s.(awaitingQuit := true), [])
  {
  }

  /** A deferred quit answered with false drops the request and nothing else; answered with true
      it behaves as a quit attempt that was not deferred. */
  lemma DeferredQuitAnswered(s: Platform, quit: bool)
    ensures AfterMayQuitNow(AfterAttemptQuit(s, QuitLater).state, quit)
            == if quit then AfterAttemptQuit(s.(awaitingQuit := false), QuitNow)
               else Outcome(s.(awaitingQuit := false), [])
  {
  }

  /** Without a pending deferred quit, platformAppMayQuitNow does nothing. */
  lemma MayQuitNowIdle(s: Platform, quit: bool)
    requires !s.awaitingQuit
    ensures AfterMayQuitNow(s, quit) == Outcome(s, [])
  {
  }

  /** initiateQuit always sets quitting; it exits at once exactly when no window is open, and
      otherwise asks every window to close and keeps running. */
  lemma InitiateQuitOutcome(s: Platform)
    ensures var o := AfterInitiateQuit(s);
      && o.state.quitting
      && o.actions[0] == WillQuit
      && (o.state.exited <==> s.exited || |s.windows| == 0)
      && (|s.windows| == 0 ==> !o.state.running && o.actions == [WillQuit, Exit])
      && (|s.windows| > 0 ==> o.state == s.(quitting := true)
                              && o.actions[1..] == CloseAll(s.windows))
  {
    var o := AfterInitiateQuit(s);
    if |s.windows| > 0 {
      assert o.actions[1..] == CloseAll(s.windows);
    }
  }

  // ---------------------------------------------------------------------------------------
  // The event loop

  /** The DestroyNotify branch: forget the window, and when it was the last one finish a quit in
      progress or, if the application quits after its last window, attempt a quit. */
  function AfterDestroy(s: Platform, w: WindowId, answer: QuitAnswer, quitAfterLast: bool): Outcome
  {
    var d := s.(windows := Without(s.windows, w));
    if |d.windows| == 0 && d.quitting then
      var f := AfterFinishQuit(d);
      Outcome(f.state, [WindowDidClose(w)] + f.actions)
    else if |d.windows| == 0 && quitAfterLast then
      var a := AfterAttemptQuit(d, answer);
      Outcome(a.state, [WindowDidClose(w)] + a.actions)
    else Outcome(d, [WindowDidClose(w)])
  }

  /** How the loop's handlers of each kind of event change the state and what they ask for. */
  function AfterButtonPress(s: Platform, w: WindowId, b: nat, mods: set<Modifier>, x: int, y: int): Outcome
  {
    if IsScrollWheelButton(b) then
      var d := WheelDelta(b);
      Outcome(s, [Wheel(w, mods, x, y, d.0, d.1)])
    else
      Outcome(s.(mouseDownButton := GetButton(b), lastMouseDownWindow := w),
              [Mouse(MouseDown, w, mods, GetButton(b), 0, x, y)])
  }

  function AfterButtonRelease(s: Platform, w: WindowId, b: nat, mods: set<Modifier>, x: int, y: int): Outcome
  {
    if IsScrollWheelButton(b) then Outcome(s, [])
    else Outcome(s.(mouseDownButton := -1), [Mouse(MouseUp, w, mods, GetButton(b), 0, x, y)])
  }

  function AfterMotion(s: Platform, w: WindowId, mods: set<Modifier>, x: int, y: int): Outcome
  {
    if s.mouseDownButton != -1 then
      Outcome(s, [Mouse(MouseDragged, s.lastMouseDownWindow, mods, s.mouseDownButton, 0, x, y)])
    else Outcome(s, [Mouse(MouseMoved, w, mods, 0, 0, x, y)])
  }

  /** The `state` field of the events that carry one. */
  function EventState(e: XEvent): bv32
  {
    match e
    case ButtonPress(_, _, st, _, _) => st
    case ButtonRelease(_, _, st, _, _) => st
    case Motion(_, st, _, _) => st
    case Enter(_, st, _, _) => st
    case Leave(_, st, _, _) => st
    case _ => 0
  }

  /** One turn of the loop of platformStartUserInterface. */
  function AfterEvent(s: Platform, input: Input, quitAfterLast: bool): Outcome
  {
    var r := input.replies;
    var mods := ConvertKeyMask(EventState(input.event));
    match input.event
    case KeyPress(_) => Outcome(s, [])
    case KeyRelease(_) => Outcome(s, [])
    case ButtonPress(w, b, _, x, y) => AfterButtonPress(s, w, b, mods, x, y)
    case ButtonRelease(w, b, _, x, y) => AfterButtonRelease(s, w, b, mods, x, y)
    case Motion(w, _, x, y) => AfterMotion(s, w, mods, x, y)
    case Enter(w, _, x, y) => Outcome(s, [Mouse(MouseEntered, w, mods, 0, 0, x, y)])
    case Leave(w, _, x, y) => Outcome(s, [Mouse(MouseExited, w, mods, 0, 0, x, y)])
    case FocusIn(_) => Outcome(s, [WillBecomeActive, DidBecomeActive])
    case FocusOut(_) => Outcome(s, [WillResignActive, DidResignActive])
    case Expose(w, x, y, width, height) =>
      if w in s.windows then Outcome(s, [Draw(w, x, y, width, height)]) else Outcome(s, [])
    case DestroyNotify(w) => AfterDestroy(s, w, r.shouldQuit, quitAfterLast)
    case ConfigureNotify(w) =>
      if w in s.windows then Outcome(s.(ignoreRepaint := s.ignoreRepaint - {w}), [Resized(w)])
      else Outcome(s, [])
    case ClientMessage(w, del) =>
      if del && r.shouldClose && w in s.windows then Outcome(s, [CloseRequested(w)]) else Outcome(s, [])
    case OtherEvent(_) => Outcome(s, [])
  }

  /** The loop: process inputs while running and while inputs remain. */
  function AfterLoop(s: Platform, inputs: seq<Input>, quitAfterLast: bool): Outcome
    decreases |inputs|
  {
    if !s.running || inputs == [] then Outcome(s, [])
    else
      var o := AfterEvent(s, inputs[0], quitAfterLast);
      var rest := AfterLoop(o.state, inputs[1..], quitAfterLast);
      Outcome(rest.state, o.actions + rest.actions)
  }

  /** The start of platformStartUserInterface: the startup notifications, then a quit attempt
      when the application starts without a window and quits after its last one. */
  function AfterStartup(s: Platform, answer: QuitAnswer, quitAfterLast: bool): Outcome
  {
    var up := s.(running := true);
    if |s.windows| == 0 && quitAfterLast then
      var a := AfterAttemptQuit(up, answer);
      Outcome(a.state, [WillFinishStartup, DidFinishStartup] + a.actions)
    else Outcome(up, [WillFinishStartup, DidFinishStartup])
  }

  /** In the outcome of a transition from `s`, nothing follows an Exit; an Exit stops the loop,
      and without one the running and exited flags stay as they were. */
  ghost predicate ExitsLast(s: Platform, o: Outcome)
  {
    && (forall i | 0 <= i < |o.actions| - 1 :: o.actions[i] != Exit)
    && (if Exit in o.actions then o.state.exited && !o.state.running
        else o.state.exited == s.exited && o.state.running == s.running)
  }

  /** Exit is the last thing a quit attempt does, and exiting stops the loop. */
  lemma QuitExitsLast(s: Platform, answer: QuitAnswer)
    ensures ExitsLast(s, AfterAttemptQuit(s, answer))
  {
    if answer == QuitNow && |s.windows| > 0 {
      assert AfterAttemptQuit(s, answer).actions == [WillQuit] + CloseAll(s.windows);
    }
  }

  lemma DestroyExitsLast(s: Platform, w: WindowId, answer: QuitAnswer, quitAfterLast: bool)
    ensures ExitsLast(s, AfterDestroy(s, w, answer, quitAfterLast))
  {
    var d := s.(windows := Without(s.windows, w));
    if |d.windows| == 0 && !d.quitting && quitAfterLast {
      QuitExitsLast(d, answer);
      var a := AfterAttemptQuit(d, answer);
      var o := AfterDestroy(s, w, answer, quitAfterLast);
      assert o.actions == [WindowDidClose(w)] + a.actions;
      assert forall i | 0 < i < |o.actions| :: o.actions[i] == a.actions[i - 1];
    }
  }

  /** Every turn of the loop keeps `Settled`, and nothing follows an Exit. */
  lemma StepExitsLast(s: Platform, input: Input, quitAfterLast: bool)
    requires Settled(s)
    ensures ExitsLast(s, AfterEvent(s, input, quitAfterLast))
    ensures Settled(AfterEvent(s, input, quitAfterLast).state)
  {
    if input.event.DestroyNotify? {
      DestroyExitsLast(s, input.event.window, input.replies.shouldQuit, quitAfterLast);
    }
  }

  /** A run exits at most once, and nothing follows the exit. */
  lemma {:induction false} LoopExitsLast(s: Platform, inputs: seq<Input>, quitAfterLast: bool)
    requires Settled(s)
    ensures var o := AfterLoop(s, inputs, quitAfterLast);
      Settled(o.state) && forall i | 0 <= i < |o.actions| - 1 :: o.actions[i] != Exit
    decreases |inputs|
  {
    if s.running && inputs != [] {
      var o := AfterEvent(s, inputs[0], quitAfterLast);
      StepExitsLast(s, inputs[0], quitAfterLast);
      LoopExitsLast(o.state, inputs[1..], quitAfterLast);
      var rest := AfterLoop(o.state, inputs[1..], quitAfterLast);
      if Exit in o.actions {
        assert rest.actions == [];
      }
      var all := o.actions + rest.actions;
      forall i | 0 <= i < |all| - 1 ensures all[i] != Exit {
        if i >= |o.actions| {
          assert all[i] == rest.actions[i - |o.actions|];
        }
      }
    }
  }

  /** After the exit the loop takes no further input. */
  lemma ExitedIsTerminal(s: Platform, inputs: seq<Input>, quitAfterLast: bool)
    requires Settled(s) && s.exited
    ensures AfterLoop(s, inputs, quitAfterLast) == Outcome(s, [])
  {
  }

  /** While a button is down, motion is a drag routed to the window that got the press,
      whichever window reports it; otherwise it is a move in the reporting window. */
  lemma MotionRouting(s: Platform, w: WindowId, st: bv32, x: int, y: int, r: Replies, quitAfterLast: bool)
    ensures var o := AfterEvent(s, Input(Motion(w, st, x, y), r), quitAfterLast);
      && o.state == s
      && |o.actions| == 1
      && (s.mouseDownButton != -1 ==>
            o.actions[0].kind == MouseDragged && o.actions[0].window == s.lastMouseDownWindow
            && o.actions[0].button == s.mouseDownButton)
      && (s.mouseDownButton == -1 ==> o.actions[0].kind == MouseMoved && o.actions[0].window == w)
  {
  }

  /** A press starts a drag in its window unless it is a wheel button, which leaves the drag
      state alone; a non-wheel release ends the drag. */
  lemma ButtonDragState(s: Platform, w: WindowId, b: nat, st: bv32, x: int, y: int, r: Replies, quitAfterLast: bool)
    ensures var press := AfterEvent(s, Input(ButtonPress(w, b, st, x, y), r), quitAfterLast).state;
      var release := AfterEvent(s, Input(ButtonRelease(w, b, st, x, y), r), quitAfterLast).state;
      && (IsScrollWheelButton(b) ==> press == s && release == s)
      && (!IsScrollWheelButton(b) ==> press.mouseDownButton == GetButton(b) != -1
                                      && press.lastMouseDownWindow == w
                                      && release.mouseDownButton == -1)
  {
  }

  /** The DestroyNotify of the last window finishes a quit in progress. */
  lemma LastWindowFinishesQuit(s: Platform, w: WindowId, r: Replies, quitAfterLast: bool)
    requires s.quitting && Without(s.windows, w) == []
    ensures var o := AfterEvent(s, Input(DestroyNotify(w), r), quitAfterLast);
      o.state.exited && !o.state.running && o.actions == [WindowDidClose(w), Exit]
  {
  }

  /** A ConfigureNotify leaves the window accepting repaints again; one for an unknown window
      is ignored. */
  lemma ConfigureOutcome(s: Platform, w: WindowId, r: Replies, quitAfterLast: bool)
    ensures var o := AfterEvent(s, Input(ConfigureNotify(w), r), quitAfterLast);
      && (w in s.windows ==> w !in o.state.ignoreRepaint)
      && (w in s.windows <==> o.actions == [Resized(w)])
      && (w !in s.windows ==> o == Outcome(s, []))
  {
  }

  // ---------------------------------------------------------------------------------------
  // The platform globals as an object

  class App {
    var running: bool
    var awaitingQuit: bool
    var quitting: bool
    var exited: bool
    var windows: seq<WindowId>
    var mouseDownButton: int
    var lastMouseDownWindow: WindowId
    var ignoreRepaint: set<WindowId>
    var log: seq<Action>
    /** appShouldQuitAfterLastWindowClosed. */
    const quitAfterLastWindowClosed: bool

    function State(): Platform
      reads this`running, this`awaitingQuit, this`quitting, this`exited, this`windows,
            this`mouseDownButton, this`lastMouseDownWindow, this`ignoreRepaint
    {
      Platform(running, awaitingQuit, quitting, exited, windows, mouseDownButton,
               lastMouseDownWindow, ignoreRepaint)
    }

    constructor (ws: seq<WindowId>, quitAfterLast: bool)
      ensures State() == Initial(ws) && log == [] && quitAfterLastWindowClosed == quitAfterLast
    {
      running := false;
      awaitingQuit := false;
      quitting := false;
      exited := false;
      windows := ws;
      mouseDownButton := -1;
      lastMouseDownWindow := 0;
      ignoreRepaint := {};
      log := [];
      quitAfterLastWindowClosed := quitAfterLast;
    }

    /** finishQuit. */
    method FinishQuit()
      modifies this`running, this`exited, this`log
      ensures State() == AfterFinishQuit(old(State())).state
      ensures log == old(log) + AfterFinishQuit(old(State())).actions
    {
      running := false;
      exited := true;
      log := log + [Exit];
    }

    /** initiateQuit. */
    method InitiateQuit()
      modifies this`quitting, this`running, this`exited, this`log
      ensures State() == AfterInitiateQuit(old(State())).state
      ensures log == old(log) + AfterInitiateQuit(old(State())).actions
    {
      log := log + [WillQuit];
      quitting := true;
      assert State() == old(State()).(quitting := true);
      if |windows| > 0 {
        CloseWindows();
      } else {
        FinishQuit();
      }
    }

    /** The loop of initiateQuit: asks every window of Windows() to close. */
    method CloseWindows()
      modifies this`log
      ensures log == old(log) + CloseAll(windows)
    {
      var ws := windows;
      var i := 0;
      while i < |ws|
        invariant 0 <= i <= |ws|
        invariant log == old(log) + CloseAll(ws[..i])
      {
        assert ws[..i + 1][..i] == ws[..i];
        log := log + [CloseRequested(ws[i])];
        i := i + 1;
      }
      assert ws[..i] == ws;
    }

    /** platformAttemptQuit. */
    method AttemptQuit(answer: QuitAnswer)
      modifies this
      ensures State() == AfterAttemptQuit(old(State()), answer).state
      ensures log == old(log) + AfterAttemptQuit(old(State()), answer).actions
    {
      match answer
      case QuitCancel =>
      case QuitLater =>
        awaitingQuit := true;
      case QuitNow =>
        InitiateQuit();
    }

    /** platformAppMayQuitNow. */
    method MayQuitNow(quit: bool)
      modifies this
      ensures State() == AfterMayQuitNow(old(State()), quit).state
      ensures log == old(log) + AfterMayQuitNow(old(State()), quit).actions
    {
      if awaitingQuit {
        awaitingQuit := false;
        if quit {
          InitiateQuit();
        }
      }
    }

    /** The DestroyNotify branch. */
    method Destroyed(w: WindowId, answer: QuitAnswer)
      modifies this
      ensures State() == AfterDestroy(old(State()), w, answer, quitAfterLastWindowClosed).state
      ensures log == old(log) + AfterDestroy(old(State()), w, answer, quitAfterLastWindowClosed).actions
    {
      windows := Without(windows, w);
      log := log + [WindowDidClose(w)];
      if |windows| == 0 {
        if quitting {
          FinishQuit();
        } else if quitAfterLastWindowClosed {
          AttemptQuit(answer);
        }
      }
    }

    /** One turn of the event loop. */
    /** The ButtonPress case of the loop: a wheel turn, or a press that becomes the drag button. */
    method ButtonPressed(w: WindowId, b: nat, mods: set<Modifier>, x: int, y: int)
      modifies this`mouseDownButton, this`lastMouseDownWindow, this`log
      ensures State() == AfterButtonPress(old(State()), w, b, mods, x, y).state
      ensures log == old(log) + AfterButtonPress(old(State()), w, b, mods, x, y).actions
    {
      if IsScrollWheelButton(b) {
        var d := WheelDelta(b);
        log := log + [Wheel(w, mods, x, y, d.0, d.1)];
      } else {
        mouseDownButton := GetButton(b);
        lastMouseDownWindow := w;
        log := log + [Mouse(MouseDown, w, mods, mouseDownButton, 0, x, y)];
      }
    }

    /** The ButtonRelease case: wheel releases are ignored, anything else ends the drag. */
    method ButtonReleased(w: WindowId, b: nat, mods: set<Modifier>, x: int, y: int)
      modifies this`mouseDownButton, this`log
      ensures State() == AfterButtonRelease(old(State()), w, b, mods, x, y).state
      ensures log == old(log) + AfterButtonRelease(old(State()), w, b, mods, x, y).actions
    {
      if !IsScrollWheelButton(b) {
        mouseDownButton := -1;
        log := log + [Mouse(MouseUp, w, mods, GetButton(b), 0, x, y)];
      }
    }

    /** The MotionNotify case: a drag goes to the window of the press, a move to the event's. */
    method Moved(w: WindowId, mods: set<Modifier>, x: int, y: int)
      modifies this`log
      ensures log == old(log) + AfterMotion(State(), w, mods, x, y).actions
    {
      if mouseDownButton != -1 {
        log := log + [Mouse(MouseDragged, lastMouseDownWindow, mods, mouseDownButton, 0, x, y)];
      } else {
        log := log + [Mouse(MouseMoved, w, mods, 0, 0, x, y)];
      }
    }

    /** One turn of the loop. */
    method Step(input: Input)
      modifies this
      ensures State() == AfterEvent(old(State()), input, quitAfterLastWindowClosed).state
      ensures log == old(log) + AfterEvent(old(State()), input, quitAfterLastWindowClosed).actions
    {
      var mods := ConvertKeyMask(EventState(input.event));
      match input.event
      case ButtonPress(w, b, _, x, y) =>
        ButtonPressed(w, b, mods, x, y);
      case ButtonRelease(w, b, _, x, y) =>
        ButtonReleased(w, b, mods, x, y);
      case Motion(w, _, x, y) =>
        Moved(w, mods, x, y);
      case Enter(w, _, x, y) =>
        log := log + [Mouse(MouseEntered, w, mods, 0, 0, x, y)];
      case Leave(w, _, x, y) =>
        log := log + [Mouse(MouseExited, w, mods, 0, 0, x, y)];
      case FocusIn(_) =>
        log := log + [WillBecomeActive, DidBecomeActive];
      case FocusOut(_) =>
        log := log + [WillResignActive, DidResignActive];
      case Expose(w, x, y, width, height) =>
        if w in windows {
          log := log + [Draw(w, x, y, width, height)];
        }
      case DestroyNotify(w) =>
        Destroyed(w, input.replies.shouldQuit);
      case ConfigureNotify(w) =>
        if w in windows {
          ignoreRepaint := ignoreRepaint + {w};
          log := log + [Resized(w)];
          ignoreRepaint := ignoreRepaint - {w};
        }
      case ClientMessage(w, del) =>
        if del && input.replies.shouldClose && w in windows {
          log := log + [CloseRequested(w)];
        }
      case KeyPress(_) =>
      case KeyRelease(_) =>
      case OtherEvent(_) =>
    }

    /** The start of platformStartUserInterface, up to the loop. `answer` is the delegate's
        answer if startup attempts a quit. */
    method Start(answer: QuitAnswer)
      modifies this
      ensures State() == AfterStartup(old(State()), answer, quitAfterLastWindowClosed).state
      ensures log == old(log) + AfterStartup(old(State()), answer, quitAfterLastWindowClosed).actions
    {
      log := log + [WillFinishStartup];
      running := true;
      log := log + [DidFinishStartup];
      if |windows| == 0 && quitAfterLastWindowClosed {
        AttemptQuit(answer);
      }
    }

    /** The loop of platformStartUserInterface: one turn per input while `running`; the X11
        queue is the finite sequence `inputs`. */
    method Loop(inputs: seq<Input>)
      modifies this
      ensures State() == AfterLoop(old(State()), inputs, quitAfterLastWindowClosed).state
      ensures log == old(log) + AfterLoop(old(State()), inputs, quitAfterLastWindowClosed).actions
    {
      ghost var s0 := State();
      ghost var done: seq<Action> := [];
      var i := 0;
      while running && i < |inputs|
        invariant 0 <= i <= |inputs|
        invariant log == old(log) + done
        invariant AfterLoop(s0, inputs, quitAfterLastWindowClosed)
                  == (var lp := AfterLoop(State(), inputs[i..], quitAfterLastWindowClosed);
                      Outcome(lp.state, done + lp.actions))
        decreases |inputs| - i
      {
        ghost var before := log;
        ghost var o := AfterEvent(State(), inputs[i], quitAfterLastWindowClosed);
        ghost var rest := AfterLoop(o.state, inputs[i + 1..], quitAfterLastWindowClosed);
        assert inputs[i..][0] == inputs[i] && inputs[i..][1..] == inputs[i + 1..];
        Step(inputs[i]);
        AppendAssoc(done, o.actions, rest.actions);
        AppendAssoc(old(log), done, o.actions);
        done := done + o.actions;
        i := i + 1;
      }
      assert AfterLoop(State(), inputs[i..], quitAfterLastWindowClosed) == Outcome(State(), []);
    }

    /** platformStartUserInterface. */
    method Run(answer: QuitAnswer, inputs: seq<Input>)
      modifies this
      ensures var up := AfterStartup(old(State()), answer, quitAfterLastWindowClosed);
        var lp := AfterLoop(up.state, inputs, quitAfterLastWindowClosed);
        State() == lp.state && log == old(log) + up.actions + lp.actions
    {
      Start(answer);
      Loop(inputs);
    }
  }
}
