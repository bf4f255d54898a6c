/** Dragging a window without desktop: the mouse state machine, and the Start and End messages that tell
    the client when it moves or resizes the window itself. */
module RailDrag {
  import opened RailAreas

  const MOVE: int := 0x0800
  const DOWN: int := 0x8000
  const BUTTON1: int := 0x1000
  const DOUBLE_CLICK_DELAY: int := 400_000_000

  datatype State =
    | Default | WaitRelease | CapturedClick | MoveSizeInitialized
    | DelayedStartMoveSize | DelayedMaximazeVertical | DelayedClose | WaitDoubleClick

  datatype Action =
    | Nothing | Captured | ResizeHostedDesktop | Minimize | Maximaze | MaximazeVertical | CloseWindow
    | StartMoveResize | StopMoveResize | MoveResize | ActiveButton | UnactiveButton

  datatype Mouse = Mouse(state: State, pressed: Area, downAt: int, downX: int, downY: int)

  datatype Maximized = NotMaximized | VerticalScreen | FullScreen

  /** The type in a Move/Size message; zero for what cannot be dragged. */
  function MoveSizeType(a: Area): nat {
    match a
    case W => 1
    case E => 2
    case N => 3
    case NWN | NWW => 4
    case NEN | NEE => 5
    case S => 6
    case SWW | SWS => 7
    case SES | SEE => 8
    case Title => 9
    case _ => 0
  }

  lemma DraggableHasType(a: Area)
    ensures MoveSizeType(a) != 0 <==> Draggable(a)
  {
  }

  /** The type tells which sides move: left, right, top and bottom, or all of the window. */
  lemma MoveSizeTypeTellsSides(a: Area)
    ensures MoveSizeType(a) in {1, 4, 7} <==> LeftSide(a)
    ensures MoveSizeType(a) in {2, 5, 8} <==> RightSide(a)
    ensures MoveSizeType(a) in {3, 4, 5} <==> TopSide(a)
    ensures MoveSizeType(a) in {6, 7, 8} <==> BottomSide(a)
    ensures MoveSizeType(a) == 9 <==> a == Title
  {
  }

  /** Server Move/Size Start and End of sections 2.2.2.7.2 and 2.2.2.7.3 of [MS-RDPERP]. */
  datatype Pdu = Start(kind: nat) | End(kind: nat)

  /** The mouse, whether a drag was started, the window, the one when the drag was started, and the messages.
      `undefined` is where the code says that it cannot be. */
  datatype Drag = Drag(mouse: Mouse, started: bool, maximized: Maximized, window: Rect, saved: Rect,
                       closed: bool, undefined: bool, sent: seq<Pdu>)

  /** A mouse event, the window it finds, and whether the client wants windows to be redrawn while they
      are dragged. */
  datatype Input = Input(flags: int, area: Area, now: int, x: int, y: int, window: Rect, fullDrag: bool)

  predicate Over(d: Drag) { d.closed || d.undefined }

  predicate HasButton1(flags: int) { flags / 0x1000 % 2 == 1 }

  // ---- MouseAction::_next_action ----

  function NextMove(m: Mouse): (Mouse, Action) {
    match m.state
    case MoveSizeInitialized => (m, MoveResize)
    case DelayedStartMoveSize | DelayedMaximazeVertical => (m.(state := MoveSizeInitialized), StartMoveResize)
    case DelayedClose => (m.(state := CapturedClick), Captured)
    case WaitRelease | CapturedClick => (m, Captured)
    case WaitDoubleClick => (m.(state := Default), Nothing)
    case Default => (m, Nothing)
  }

  /** The delayed action of a first click, or the one of a double click. */
  function Delayed(m: Mouse, before: Area, now: int, state: State, action: Action, doubleState: State): (Mouse, Action) {
    if m.state == WaitDoubleClick && before == m.pressed && now - m.downAt <= DOUBLE_CLICK_DELAY
    then (m.(state := doubleState, pressed := Invalid), action)
    else (m.(state := state, downAt := now), Nothing)
  }

  function NextDown(m0: Mouse, i: Input): (Mouse, Action) {
    var before := m0.pressed;
    var m := m0.(pressed := i.area);
    var held := m.(downX := i.x, downY := i.y);
    match i.area
    case Icon => Delayed(m, before, i.now, DelayedClose, CloseWindow, CapturedClick)
    case Title => Delayed(held, before, i.now, DelayedStartMoveSize, Maximaze, Default)
    case S | N => Delayed(held, before, i.now, DelayedMaximazeVertical, MaximazeVertical, Default)
    case NWN | NWW | W | SWW | SWS | SES | SEE | E | NEE | NEN => (held.(state := DelayedStartMoveSize), Nothing)
    case Close | Maxi | Mini | Resize => (m.(state := WaitRelease), ActiveButton)
    case Invalid => (m, Nothing)
  }

  function ButtonAction(m: Mouse, was: Area, area: Area, action: Action, otherwise: Action): (Mouse, Action) {
    (m.(state := Default), if was == area then action else otherwise)
  }

  function NextUp(m0: Mouse, i: Input): (Mouse, Action) {
    var was := m0.pressed;
    var m := m0.(pressed := Invalid);
    if m.state == MoveSizeInitialized then (m.(state := Default), StopMoveResize)
    else
      var ret := if m.state == WaitRelease then UnactiveButton else Nothing;
      match i.area
      case NWN | NWW | W | SWW | SWS | SES | SEE | E | NEE | NEN => (m.(state := Default), ret)
      case Title | S | N | Icon => (m.(state := WaitDoubleClick, pressed := was), ret)
      case Close => ButtonAction(m, was, i.area, CloseWindow, ret)
      case Maxi => ButtonAction(m, was, i.area, Maximaze, ret)
      case Mini => ButtonAction(m, was, i.area, Minimize, ret)
      case Resize => ButtonAction(m, was, i.area, ResizeHostedDesktop, ret)
      case Invalid => (m, Nothing)
  }

  function NextAction(m: Mouse, i: Input): (Mouse, Action) {
    if i.flags == MOVE then NextMove(m)
    else if i.flags == DOWN + BUTTON1 then NextDown(m, i)
    else if i.flags == BUTTON1 then NextUp(m, i)
    else (m, Nothing)
  }

  // ---- ClientExecute::input_mouse ----

  /** update_rects */
  function Padded(r: Rect): Rect { r.(cx := if r.cx >= 2 then r.cx - (r.cx - 2) % 4 else 2) }

  function Moved(r: Rect, ox: int, oy: int): Rect { r.(x := r.x + ox, y := r.y + oy) }

  /** The end of a drag, which moves the window if it was dragged by its title. */
  function Ended(d: Drag, previous: Area, i: Input): Drag {
    var window := if previous == Title then Padded(Moved(d.window, i.x - d.mouse.downX, i.y - d.mouse.downY)) else d.window;
    d.(started := false, maximized := NotMaximized, sent := d.sent + [End(MoveSizeType(previous))], window := window)
  }

  /** A button event other than a drag ends a drag. */
  function Stop(d: Drag, previous: Area, action: Action, i: Input): Drag {
    if d.started && action != MoveResize && HasButton1(i.flags) then Ended(d, previous, i) else d
  }

  function ToggleFull(m: Maximized): Maximized { if m == FullScreen then NotMaximized else FullScreen }

  function ToggleVertical(m: Maximized): Maximized { if m == VerticalScreen then NotMaximized else VerticalScreen }

  /** The window of a drag: from where it was at the start, by how far the mouse has moved. */
  function Dragged(m: Mouse, saved: Rect, x: int, y: int): Rect
    requires Draggable(m.pressed)
  {
    Padded(Resized(m, saved, x, y))
  }

  function Resized(m: Mouse, saved: Rect, x: int, y: int): Rect
    requires Draggable(m.pressed)
  {
    MoveResizeRect(m.pressed, x - m.downX, y - m.downY, saved)
  }

  function React(d: Drag, action: Action, i: Input): Drag {
    match action
    case Maximaze =>
      d.(maximized := if d.maximized == VerticalScreen && i.area == Title then ToggleVertical(d.maximized)
                      else ToggleFull(d.maximized))
    case MaximazeVertical => d.(maximized := ToggleVertical(d.maximized))
    case CloseWindow => d.(closed := true)
    case StartMoveResize =>
      if d.maximized == FullScreen then d.(mouse := d.mouse.(state := CapturedClick))
      else d.(started := true, saved := d.window, sent := d.sent + [Start(MoveSizeType(d.mouse.pressed))])
    case MoveResize =>
      if !i.fullDrag then d
      else if Draggable(d.mouse.pressed) then d.(window := Dragged(d.mouse, d.saved, i.x, i.y))
      else d.(undefined := true)
    case _ => d
  }

  /** One mouse event; after a close there are none. */
  function Step(d: Drag, i: Input): Drag {
    if Over(d) then d
    else
      var (m, action) := NextAction(d.mouse, i);
      React(Stop(d.(mouse := m, window := i.window), d.mouse.pressed, action, i), action, i)
  }

  function Run(d: Drag, inputs: seq<Input>): Drag
    decreases |inputs|
  {
    if inputs == [] then d else Run(Step(d, inputs[0]), inputs[1..])
  }

  function Initial(maximized: Maximized): Drag {
    Drag(Mouse(Default, Invalid, 0, 0, 0), false, maximized, NoWindow(), NoWindow(), false, false, [])
  }

  function NoWindow(): Rect { Rect(0, 0, 0, 0) }

  // ---- safety over every run ----

  /** Start and End strictly alternate, Start first, and every End repeats the type of its Start. */
  predicate Alternates(sent: seq<Pdu>) {
    forall k :: 0 <= k < |sent| ==> InTurn(sent, k)
  }

  predicate InTurn(sent: seq<Pdu>, k: nat)
    requires k < |sent|
  {
    if k % 2 == 0 then sent[k].Start? else sent[k] == End(sent[k - 1].kind)
  }

  /** A drag that was started is still going on, with the same part of the frame, in a window that is not
      maximized. */
  predicate Inv(d: Drag) {
    && Alternates(d.sent)
    && (d.started <==> |d.sent| % 2 == 1)
    && (d.started ==> d.mouse.state == MoveSizeInitialized && d.maximized != FullScreen
                      && d.sent[|d.sent| - 1].kind == MoveSizeType(d.mouse.pressed))
  }

  lemma StepKeepsInv(d: Drag, i: Input)
    requires Inv(d)
    ensures Inv(Step(d, i))
    // initialize_move_size is never entered while a drag is going on
    ensures NextAction(d.mouse, i).1 == StartMoveResize ==> !d.started
  {
    var (m, action) := NextAction(d.mouse, i);
    assert HasButton1(DOWN + BUTTON1) && HasButton1(BUTTON1) && !HasButton1(MOVE);
    if d.started {
      AlternatesPush(d.sent, End(MoveSizeType(d.mouse.pressed)));
    } else {
      AlternatesPush(d.sent, Start(MoveSizeType(m.pressed)));
    }
  }

  lemma AlternatesPush(sent: seq<Pdu>, pdu: Pdu)
    requires Alternates(sent)
    requires if |sent| % 2 == 0 then pdu.Start? else pdu == End(sent[|sent| - 1].kind)
    ensures Alternates(sent + [pdu])
  {
    var more := sent + [pdu];
    forall k | 0 <= k < |more| ensures InTurn(more, k) {
      if k < |sent| {
        assert InTurn(sent, k);
      }
    }
  }

  lemma {:induction false} RunKeepsInv(d: Drag, inputs: seq<Input>)
    requires Inv(d)
    ensures Inv(Run(d, inputs))
    decreases |inputs|
  {
    if inputs != [] {
      StepKeepsInv(d, inputs[0]);
      RunKeepsInv(Step(d, inputs[0]), inputs[1..]);
    }
  }

  /** The protocol over any run from the start. */
  lemma MessagesAlternate(maximized: Maximized, inputs: seq<Input>)
    ensures Alternates(Run(Initial(maximized), inputs).sent)
  {
    RunKeepsInv(Initial(maximized), inputs);
  }

  // ---- what is dragged ----

  predicate Dragging(s: State) {
    s == DelayedStartMoveSize || s == DelayedMaximazeVertical || s == MoveSizeInitialized
  }

  /** While a drag is prepared or going on, the pressed part can be dragged. */
  predicate Held(d: Drag) { Dragging(d.mouse.state) ==> Draggable(d.mouse.pressed) }

  /** A left button event outside of all areas forgets the pressed part but not the drag; only the
      release of a drag that has begun is safe. */
  predicate Slips(d: Drag, i: Input) {
    && !Over(d) && i.area == Invalid && Dragging(d.mouse.state)
    && (i.flags == DOWN + BUTTON1 || (i.flags == BUTTON1 && d.mouse.state != MoveSizeInitialized))
  }

  /** The pressed part stays one that can be dragged exactly as long as there is no such event. */
  lemma HeldUnlessSlips(d: Drag, i: Input)
    requires Held(d)
    ensures Held(Step(d, i)) <==> !Slips(d, i)
  {
    assert HasButton1(DOWN + BUTTON1) && HasButton1(BUTTON1);
  }

  predicate NoSlip(d: Drag, inputs: seq<Input>)
    decreases |inputs|
  {
    inputs != [] ==> !Slips(d, inputs[0]) && NoSlip(Step(d, inputs[0]), inputs[1..])
  }

  predicate Typed(sent: seq<Pdu>) { forall k :: 0 <= k < |sent| ==> sent[k].kind != 0 }

  // ---- messages without a type ----

  /** The first movement after a press whose part was forgotten. */
  predicate StartsUntyped(d: Drag, i: Input) {
    && !Over(d) && i.flags == MOVE && d.mouse.state in {DelayedStartMoveSize, DelayedMaximazeVertical}
    && !Draggable(d.mouse.pressed) && d.maximized != FullScreen
  }

  predicate AlwaysTyped(d: Drag, inputs: seq<Input>)
    decreases |inputs|
  {
    inputs != [] ==> !StartsUntyped(d, inputs[0]) && AlwaysTyped(Step(d, inputs[0]), inputs[1..])
  }

  lemma StepTyped(d: Drag, i: Input)
    requires Inv(d) && Typed(d.sent)
    ensures Typed(Step(d, i).sent) <==> !StartsUntyped(d, i)
    ensures d.sent <= Step(d, i).sent
  {
    var d' := Step(d, i);
    DraggableHasType(NextAction(d.mouse, i).0.pressed);
    assert |d'.sent| > |d.sent| ==> d'.sent[|d.sent|] in d'.sent;
    assert HasButton1(DOWN + BUTTON1) && HasButton1(BUTTON1) && !HasButton1(MOVE);
  }

  lemma StepGrows(d: Drag, i: Input)
    ensures d.sent <= Step(d, i).sent
  {
  }

  lemma {:induction false} RunGrows(d: Drag, inputs: seq<Input>)
    ensures d.sent <= Run(d, inputs).sent
    decreases |inputs|
  {
    if inputs != [] {
      StepGrows(d, inputs[0]);
      RunGrows(Step(d, inputs[0]), inputs[1..]);
    }
  }

  /** Over any run, every message has a type if and only if no drag was started with a forgotten part. */
  lemma {:induction false} RunTyped(d: Drag, inputs: seq<Input>)
    requires Inv(d) && Typed(d.sent)
    ensures Typed(Run(d, inputs).sent) <==> AlwaysTyped(d, inputs)
    decreases |inputs|
  {
    if inputs != [] {
      var d' := Step(d, inputs[0]);
      StepKeepsInv(d, inputs[0]);
      StepTyped(d, inputs[0]);
      if StartsUntyped(d, inputs[0]) {
        RunGrows(d', inputs[1..]);
        var k :| 0 <= k < |d'.sent| && d'.sent[k].kind == 0;
        assert Run(d, inputs).sent[k] == d'.sent[k];
      } else {
        RunTyped(d', inputs[1..]);
      }
    }
  }

  // ---- drags of nothing ----

  /** A movement in the state of a drag, when the pressed part was forgotten: move_resize_rect has no case
      for it. */
  predicate DragsNothing(d: Drag, i: Input) {
    && !Over(d) && i.flags == MOVE && d.mouse.state == MoveSizeInitialized && i.fullDrag
    && !Draggable(d.mouse.pressed)
  }

  predicate AlwaysDragsSomething(d: Drag, inputs: seq<Input>)
    decreases |inputs|
  {
    inputs != [] ==> !DragsNothing(d, inputs[0]) && AlwaysDragsSomething(Step(d, inputs[0]), inputs[1..])
  }

  lemma StepUndefined(d: Drag, i: Input)
    ensures Step(d, i).undefined <==> d.undefined || DragsNothing(d, i)
  {
  }

  /** Over any run, the code gets where it says it cannot be if and only if nothing is dragged once. */
  lemma {:induction false} RunUndefined(d: Drag, inputs: seq<Input>)
    ensures Run(d, inputs).undefined <==> d.undefined || !AlwaysDragsSomething(d, inputs)
    decreases |inputs|
  {
    if inputs != [] {
      StepUndefined(d, inputs[0]);
      RunUndefined(Step(d, inputs[0]), inputs[1..]);
    }
  }

  /** As long as the pressed part is not forgotten, neither happens. */
  lemma {:induction false} HeldIsSafe(d: Drag, inputs: seq<Input>)
    requires Held(d) && NoSlip(d, inputs)
    ensures AlwaysTyped(d, inputs) && AlwaysDragsSomething(d, inputs) && Held(Run(d, inputs))
    decreases |inputs|
  {
    if inputs != [] {
      HeldUnlessSlips(d, inputs[0]);
      HeldIsSafe(Step(d, inputs[0]), inputs[1..]);
    }
  }

  function At(flags: int, area: Area, now: int, x: int, y: int): Input {
    Input(flags, area, now, x, y, Rect(0, 0, 800, 600), true)
  }

  /** A press on the title, one outside of all areas, and a movement: a Start without a type, and then
      nothing to drag. */
  lemma UntypedStart()
    ensures var inputs := [At(DOWN + BUTTON1, Title, 0, 5, 5), At(DOWN + BUTTON1, Invalid, 1, 900, 900),
                           At(MOVE, Invalid, 2, 901, 900)];
            Run(Initial(NotMaximized), inputs).sent == [Start(0)]
  {
    var (a, b, c) := (At(DOWN + BUTTON1, Title, 0, 5, 5), At(DOWN + BUTTON1, Invalid, 1, 900, 900),
                      At(MOVE, Invalid, 2, 901, 900));
    var w := Rect(0, 0, 800, 600);
    var d0 := Initial(NotMaximized);
    var d1 := d0.(mouse := Mouse(DelayedStartMoveSize, Title, 0, 5, 5), window := w);
    var d2 := d1.(mouse := d1.mouse.(pressed := Invalid));
    var d3 := d2.(mouse := d2.mouse.(state := MoveSizeInitialized), started := true, saved := w, sent := [Start(0)]);
    assert Step(d0, a) == d1 && Step(d1, b) == d2 && Step(d2, c) == d3;
    RunOne(d0, a, [b, c]);
    RunOne(d1, b, [c]);
    RunOne(d2, c, []);
    assert [a, b, c] == [a] + [b, c] && [b, c] == [b] + [c] && [c] == [c] + [];
    assert Run(d3, []) == d3;
  }

  /** A press outside of all areas ends any drag, and yet the next movement is taken for one. */
  lemma DragOfNothing(d: Drag, press: Input, move: Input)
    requires !Over(d) && d.started && Inv(d)
    requires press.flags == DOWN + BUTTON1 && press.area == Invalid && move.flags == MOVE && move.fullDrag
    ensures var (d1, d2) := (Step(d, press), Step(Step(d, press), move));
            !d1.started && d1.sent == d.sent + [End(MoveSizeType(d.mouse.pressed))] && DragsNothing(d1, move) && d2.undefined
  {
    assert HasButton1(DOWN + BUTTON1);
    StepUndefined(Step(d, press), move);
  }

  /** A press on the title and a movement begin a drag. */
  lemma TitleDragBegins()
    ensures var d := Run(Initial(NotMaximized), [At(DOWN + BUTTON1, Title, 0, 5, 5), At(MOVE, Title, 1, 6, 5)]);
            !Over(d) && d.started && Inv(d) && d.sent == [Start(9)]
  {
    var (a, b) := (At(DOWN + BUTTON1, Title, 0, 5, 5), At(MOVE, Title, 1, 6, 5));
    var d0 := Initial(NotMaximized);
    var d1 := d0.(mouse := Mouse(DelayedStartMoveSize, Title, 0, 5, 5), window := a.window);
    assert Step(d0, a) == d1;
    assert [a, b] == [a] + [b] && [b] == [b] + [];
    RunOne(d0, a, [b]);
    RunOne(d1, b, []);
    RunKeepsInv(d0, [a, b]);
  }

  lemma RunOne(d: Drag, i: Input, inputs: seq<Input>)
    ensures Run(d, [i] + inputs) == Run(Step(d, i), inputs)
  {
    assert ([i] + inputs)[1..] == inputs;
  }

  /** Over any run, a maximized window is not being dragged. */
  lemma FullScreenIsNotDragged(maximized: Maximized, inputs: seq<Input>)
    ensures var d := Run(Initial(maximized), inputs); d.maximized == FullScreen ==> !d.started
  {
    RunKeepsInv(Initial(maximized), inputs);
  }

  // ---- buttons and double clicks ----

  predicate Presses(i: Input, a: Area) { i.flags == DOWN + BUTTON1 && i.area == a }
  predicate Releases(i: Input, a: Area) { i.flags == BUTTON1 && i.area == a }

  function Then(m: Mouse, i: Input): Mouse { NextAction(m, i).0 }

  /** A button that is pressed lights up, and does what it is for when it is released on it; released on another
      part it only goes out, and outside of all parts it stays lit. */
  lemma ButtonClick(m: Mouse, press: Input, release: Input)
    requires press.flags == DOWN + BUTTON1 && press.area in {Close, Maxi, Mini, Resize} && release.flags == BUTTON1
    ensures NextAction(m, press).1 == ActiveButton
    ensures var action := NextAction(Then(m, press), release).1;
            if release.area == Invalid then action == Nothing
            else if release.area != press.area then action == UnactiveButton
            else (press.area == Close ==> action == CloseWindow) && (press.area == Maxi ==> action == Maximaze)
                 && (press.area == Mini ==> action == Minimize) && (press.area == Resize ==> action == ResizeHostedDesktop)
  {
  }

  /** A double click on the icon closes the window, one on the title maximizes it, and one on the top or bottom
      border does so vertically, if the second press comes within 400 milliseconds of the first one. */
  lemma DoubleClick(m: Mouse, press: Input, release: Input, again: Input)
    requires m.state != WaitDoubleClick && press.area in {Icon, Title, N, S}
    requires Presses(press, press.area) && Releases(release, press.area) && Presses(again, press.area)
    ensures NextAction(m, press).1 == NextAction(Then(m, press), release).1 == Nothing
    ensures var action := NextAction(Then(Then(m, press), release), again).1;
            if again.now - press.now > 400_000_000 then action == Nothing
            else (press.area == Icon ==> action == CloseWindow) && (press.area == Title ==> action == Maximaze)
                 && (press.area in {N, S} ==> action == MaximazeVertical)
  {
  }

  /** A movement between the clicks makes them two single ones. */
  lemma MovementCancels(m: Mouse, press: Input, release: Input, move: Input, again: Input)
    requires m.state != WaitDoubleClick && press.area in {Icon, Title, N, S} && move.flags == MOVE
    requires Presses(press, press.area) && Releases(release, press.area) && Presses(again, press.area)
    ensures NextAction(Then(Then(Then(m, press), release), move), again).1 == Nothing
    ensures NextAction(Then(m, press), move).1 == if press.area == Icon then Captured else StartMoveResize
  {
  }

  /** The second press of a double click. */
  predicate DoubleClicks(d: Drag, i: Input, a: Area) {
    Presses(i, a) && d.mouse.state == WaitDoubleClick && d.mouse.pressed == a && i.now - d.mouse.downAt <= 400_000_000
  }

  /** The release of a click on a button. */
  predicate Clicks(d: Drag, i: Input, a: Area) {
    Releases(i, a) && d.mouse.state != MoveSizeInitialized && d.mouse.pressed == a
  }

  /** The window is closed by its close button and by a double click on its icon, and by nothing else. */
  lemma ClosedBy(d: Drag, i: Input)
    requires !Over(d)
    ensures Step(d, i).closed <==> Clicks(d, i, Close) || DoubleClicks(d, i, Icon)
  {
  }

  /** How the state of the window changes: by the maximize button, by double clicks on the title and on the top and
      bottom border, and by the end of a drag. */
  lemma MaximizedBy(d: Drag, i: Input)
    requires !Over(d) && Inv(d)
    ensures Step(d, i).maximized
            == if Clicks(d, i, Maxi) then if d.maximized == FullScreen then NotMaximized else FullScreen
               else if DoubleClicks(d, i, Title) then if d.maximized == NotMaximized then FullScreen else NotMaximized
               else if DoubleClicks(d, i, N) || DoubleClicks(d, i, S) then
                 if d.maximized == VerticalScreen then NotMaximized else VerticalScreen
               else if d.started && HasButton1(i.flags) then NotMaximized
               else d.maximized
  {
    assert HasButton1(DOWN + BUTTON1) && HasButton1(BUTTON1) && !HasButton1(MOVE);
  }

  // ---- the window of a drag ----

  predicate Moves(inputs: seq<Input>) {
    forall k :: 0 <= k < |inputs| ==> inputs[k].flags == MOVE && inputs[k].fullDrag
  }

  /** However often and far the mouse moves during a drag, and whatever others do to the window: in the end
      the window is where the last movement alone would have brought it, and it has kept its size and
      the sides that are not pressed. */
  lemma {:induction false} MovesDoNotAdd(d: Drag, inputs: seq<Input>)
    requires !Over(d) && d.started && Inv(d) && Draggable(d.mouse.pressed) && inputs != [] && Moves(inputs)
    ensures var last := inputs[|inputs| - 1];
            && Run(d, inputs) == d.(window := Dragged(d.mouse, d.saved, last.x, last.y))
            && KeepsSides(d.mouse.pressed, d.saved, Dragged(d.mouse, d.saved, last.x, last.y))
  {
    var last := inputs[|inputs| - 1];
    MovesEnd(d, inputs, last);
    var r := Resized(d.mouse, d.saved, last.x, last.y);
    if d.saved.cx >= MIN_WIDTH && d.saved.cy >= MIN_HEIGHT {
      ResizedKeepsSides(d.mouse, d.saved, last.x, last.y, r);
    }
    SmallOrKept(d.mouse.pressed, d.saved, r);
  }

  lemma {:induction false} MovesEnd(d: Drag, inputs: seq<Input>, last: Input)
    requires !Over(d) && d.started && Inv(d) && Draggable(d.mouse.pressed) && inputs != [] && Moves(inputs)
    requires last == inputs[|inputs| - 1]
    ensures Run(d, inputs) == d.(window := Dragged(d.mouse, d.saved, last.x, last.y))
    decreases |inputs|
  {
    var (i, tail) := (inputs[0], inputs[1..]);
    var d' := Step(d, i);
    MoveDrags(d, i);
    if tail == [] {
      assert Run(d', tail) == d';
    } else {
      assert tail[|tail| - 1] == last;
      MovesEnd(d', tail, last);
      SameDrag(d, i.x, i.y, last.x, last.y);
    }
  }

  lemma SameDrag(d: Drag, x: int, y: int, x': int, y': int)
    requires Draggable(d.mouse.pressed)
    ensures var e := d.(window := Dragged(d.mouse, d.saved, x, y));
            e.(window := Dragged(e.mouse, e.saved, x', y')) == d.(window := Dragged(d.mouse, d.saved, x', y'))
  {
  }

  lemma MoveDrags(d: Drag, i: Input)
    requires !Over(d) && d.started && Inv(d) && Draggable(d.mouse.pressed) && i.flags == MOVE && i.fullDrag
    ensures Step(d, i) == d.(window := Dragged(d.mouse, d.saved, i.x, i.y)) && Inv(Step(d, i))
  {
    StepKeepsInv(d, i);
    assert NextAction(d.mouse, i) == (d.mouse, MoveResize);
    assert React(d.(window := i.window), MoveResize, i) == Step(d, i);
  }

  /** Before the padding, all sides that are not pressed are in place. */
  lemma ResizedKeepsSides(m: Mouse, saved: Rect, x: int, y: int, r: Rect)
    requires Draggable(m.pressed) && saved.cx >= MIN_WIDTH && saved.cy >= MIN_HEIGHT
    requires r == Resized(m, saved, x, y)
    ensures SidesKept(m.pressed, saved, r)
  {
    OnlyPressedSidesMove(m.pressed, x - m.downX, y - m.downY, saved);
  }

  lemma SmallOrKept(pressed: Area, r: Rect, m: Rect)
    requires r.cx >= MIN_WIDTH && r.cy >= MIN_HEIGHT ==> SidesKept(pressed, r, m)
    ensures KeepsSides(pressed, r, Padded(m))
  {
    if SidesKept(pressed, r, m) {
      PaddedKeepsSides(pressed, r, m);
    }
  }

  /** A window that a drag sets is at most three columns narrower than asked for, and two wider than a multiple of four. */
  lemma WidthIsCut(r: Rect)
    ensures var p := Padded(r);
            && p.x == r.x && p.y == r.y && p.cy == r.cy && p.cx % 4 == 2
            && (if r.cx >= 2 then r.cx - 3 <= p.cx <= r.cx else p.cx == 2)
  {
    var k := (r.cx - 2) / 4;
    assert r.cx - (r.cx - 2) % 4 == 4 * k + 2;
  }

  /** So is every window that a movement sets, and the one that the end of a drag by the title sets. */
  lemma DraggedWidthIsCut(d: Drag, i: Input)
    requires Inv(d) && !Over(d) && d.started
    ensures var d' := Step(d, i);
            !d'.undefined && ((i.flags == MOVE && i.fullDrag) || (i.flags == BUTTON1 && d.mouse.pressed == Title)) ==>
              d'.window.cx % 4 == 2
  {
    WidthIsCut(Moved(i.window, i.x - d.mouse.downX, i.y - d.mouse.downY));
    if Draggable(d.mouse.pressed) {
      WidthIsCut(Resized(d.mouse, d.saved, i.x, i.y));
    }
    assert HasButton1(BUTTON1);
  }

  lemma PaddedKeepsSides(pressed: Area, r: Rect, m: Rect)
    requires SidesKept(pressed, r, m)
    ensures KeepsSides(pressed, r, Padded(m))
  {
    assert m.cx >= MIN_WIDTH ==> m.cx - 3 <= Padded(m).cx <= m.cx && Padded(m).cx >= MIN_WIDTH - 2;
  }

  /** The width is cut to two more than a multiple of four, so the right side may be up to three columns
      to the left of where it was, and the window up to two columns narrower than the minimum. */
  predicate KeepsSides(pressed: Area, r: Rect, m: Rect) {
    r.cx >= MIN_WIDTH && r.cy >= MIN_HEIGHT ==>
    && m.cx >= MIN_WIDTH - 2 && m.cy >= MIN_HEIGHT
    && (pressed != Title && !LeftSide(pressed) ==> m.x == r.x)
    && (pressed != Title && !TopSide(pressed) ==> m.y == r.y)
    && (pressed != Title && !RightSide(pressed) ==> 0 <= r.x + r.cx - (m.x + m.cx) <= 3)
    && (pressed != Title && !BottomSide(pressed) ==> m.y + m.cy == r.y + r.cy)
    && (pressed == Title ==> m.cx == Padded(r).cx && m.cy == r.cy)
  }

  /** A window that is redrawn while it is dragged by its title moves once more by the whole distance when
      the button is released. */
  lemma TitleMovesTwice(d: Drag, move: Input, up: Input)
    requires !Over(d) && d.started && Inv(d) && d.mouse.pressed == Title
    requires move.flags == MOVE && move.fullDrag
    requires up.flags == BUTTON1 && (up.x, up.y) == (move.x, move.y) && up.window == Step(d, move).window
    requires var (ox, oy) := (move.x - d.mouse.downX, move.y - d.mouse.downY);
             ox <= d.saved.cx - MIN_WIDTH && oy <= d.saved.cy - MIN_HEIGHT
    ensures var (ox, oy, w) := (move.x - d.mouse.downX, move.y - d.mouse.downY, Step(Step(d, move), up).window);
            w.x == d.saved.x + 2 * ox && w.y == d.saved.y + 2 * oy
  {
    assert HasButton1(BUTTON1);
    assert Step(d, move) == d.(window := Dragged(d.mouse, d.saved, move.x, move.y));
  }
}
