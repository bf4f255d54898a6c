/** The mouse input of the RAIL client: the objects whose fields the drag state machine updates. */
module ClientExecute {
  import opened RailAreas
  import opened RailDrag
  import opened Bytes

  class MouseAction {
    var state: State
    var pressedArea: Area
    var buttonDownTimepoint: int
    var safeButtonDownX: int
    var safeButtonDownY: int

    function Value(): Mouse
      reads this
    {
      Mouse(state, pressedArea, buttonDownTimepoint, safeButtonDownX, safeButtonDownY)
    }

    constructor ()
      ensures Value() == Mouse(Default, Invalid, 0, 0, 0)
    {
      state, pressedArea, buttonDownTimepoint, safeButtonDownX, safeButtonDownY := Default, Invalid, 0, 0, 0;
    }

    method RemoveMoveResizeState()
      modifies this
      ensures Value() == old(Value()).(state := CapturedClick)
    {
      state := CapturedClick;
    }

    /** The delayed_action lambda. */
    method DelayedAction(oldArea: Area, now: int, newState: State, action: Action, doubleState: State) returns (r: Action)
      modifies this
      ensures Value() == Delayed(old(Value()), oldArea, now, newState, action, doubleState).0
      ensures r == Delayed(old(Value()), oldArea, now, newState, action, doubleState).1
    {
      if state == WaitDoubleClick && oldArea == pressedArea && now - buttonDownTimepoint <= DOUBLE_CLICK_DELAY {
        state := doubleState;
        pressedArea := Invalid;
        return action;
      }
      state := newState;
      buttonDownTimepoint := now;
      r := Nothing;
    }

    method LeftDown(area: Area, now: int, x: int, y: int) returns (r: Action)
      modifies this
      ensures forall i: Input :: i.area == area && i.now == now && i.x == x && i.y == y ==>
                (Value(), r) == NextDown(old(Value()), i)
    {
      var oldArea := pressedArea;
      pressedArea := area;
      match area
      case Icon =>
        r := DelayedAction(oldArea, now, DelayedClose, CloseWindow, CapturedClick);
      case Title =>
        safeButtonDownX, safeButtonDownY := x, y;
        r := DelayedAction(oldArea, now, DelayedStartMoveSize, Maximaze, Default);
      case S | N =>
        safeButtonDownX, safeButtonDownY := x, y;
        r := DelayedAction(oldArea, now, DelayedMaximazeVertical, MaximazeVertical, Default);
      case NWN | NWW | W | SWW | SWS | SES | SEE | E | NEE | NEN =>
        state := DelayedStartMoveSize;
        safeButtonDownX, safeButtonDownY := x, y;
        r := Nothing;
      case Close | Maxi | Mini | Resize =>
        state := WaitRelease;
        r := ActiveButton;
      case Invalid =>
        r := Nothing;
    }

    method LeftUp(area: Area) returns (r: Action)
      modifies this
      ensures forall i: Input :: i.area == area ==> (Value(), r) == NextUp(old(Value()), i)
    {
      var currentPressedArea := pressedArea;
      pressedArea := Invalid;
      if state == MoveSizeInitialized {
        state := Default;
        return StopMoveResize;
      }
      r := if state == WaitRelease then UnactiveButton else Nothing;
      match area
      case NWN | NWW | W | SWW | SWS | SES | SEE | E | NEE | NEN =>
        state := Default;
      case Title | S | N | Icon =>
        state := WaitDoubleClick;
        pressedArea := currentPressedArea;
      case Close =>
        state := Default;
        r := if currentPressedArea == area then CloseWindow else r;
      case Maxi =>
        state := Default;
        r := if currentPressedArea == area then Maximaze else r;
      case Mini =>
        state := Default;
        r := if currentPressedArea == area then Minimize else r;
      case Resize =>
        state := Default;
        r := if currentPressedArea == area then ResizeHostedDesktop else r;
      case Invalid =>
        r := Nothing;
    }

    method NextMouseAction(area: Area, now: int, flags: int, x: int, y: int) returns (r: Action)
      modifies this
      ensures forall i: Input :: i.flags == flags && i.area == area && i.now == now && i.x == x && i.y == y ==>
                (Value(), r) == NextAction(old(Value()), i)
    {
      r := Nothing;
      if flags == MOVE {
        match state
        case MoveSizeInitialized =>
          r := MoveResize;
        case DelayedStartMoveSize | DelayedMaximazeVertical =>
          state := MoveSizeInitialized;
          r := StartMoveResize;
        case DelayedClose =>
          state := CapturedClick;
          r := Captured;
        case WaitRelease | CapturedClick =>
          r := Captured;
        case WaitDoubleClick =>
          state := Default;
        case Default =>
      } else if flags == DOWN + BUTTON1 {
        r := LeftDown(area, now, x, y);
      } else if flags == BUTTON1 {
        r := LeftUp(area);
      }
    }
  }

  class ClientExecute {
    const mouseAction: MouseAction
    const allowResizeHostedDesktop: bool
    var moveSizeInitialized: bool
    var maximizedState: Maximized
    var windowRect: Rect
    var windowRectSaved: Rect
    var fullWindowDragEnabled: bool
    // an error was thrown, or the code came where it says it cannot
    var closed: bool
    var undefined: bool
    // the Move/Size messages sent to the client
    var sent: seq<Pdu>

    ghost function Value(): Drag
      reads this, mouseAction
    {
      Drag(mouseAction.Value(), moveSizeInitialized, maximizedState, windowRect, windowRectSaved, closed, undefined, sent)
    }

    ghost predicate Valid()
      reads this, mouseAction
    {
      Inv(Value())
    }

    constructor (allowResizeHostedDesktop: bool, maximized: Maximized)
      ensures Valid() && Value() == Initial(maximized) && fresh(mouseAction)
      ensures this.allowResizeHostedDesktop == allowResizeHostedDesktop
    {
      mouseAction := new MouseAction();
      this.allowResizeHostedDesktop := allowResizeHostedDesktop;
      moveSizeInitialized, maximizedState, sent := false, maximized, [];
      windowRect, windowRectSaved, fullWindowDragEnabled := NoWindow(), NoWindow(), false;
      closed, undefined := false, false;
    }

    /** Only ever called while no drag is going on. */
    method InitializeMoveSize()
      requires !moveSizeInitialized
      modifies this`moveSizeInitialized, this`sent, this`windowRectSaved
      ensures Value() == old(Value()).(started := true, saved := windowRect,
                                       sent := old(sent) + [Start(MoveSizeType(mouseAction.pressedArea))])
    {
      windowRectSaved := windowRect;
      sent := sent + [Start(MoveSizeType(mouseAction.pressedArea))];
      moveSizeInitialized := true;
    }

    /** What else happens to the client: a window of another size or place, another setting. */
    method Configure(window: Rect, fullDrag: bool)
      requires Valid()
      modifies this`windowRect, this`fullWindowDragEnabled
      ensures Valid() && Value() == old(Value()).(window := window)
      ensures windowRect == window && fullWindowDragEnabled == fullDrag
    {
      windowRect := window;
      fullWindowDragEnabled := fullDrag;
    }

    /** The mouse event as the state machine sees it. */
    function InputOf(now: int, flags: int, x: int, y: int): Input
      reads this
    {
      Input(flags, GetRectArea(windowRect, maximizedState == FullScreen, allowResizeHostedDesktop, x, y), now, x, y,
            windowRect, fullWindowDragEnabled)
    }

    method InputMouse(now: int, flags: int, x: int, y: int)
      requires Valid() && !closed && !undefined
      modifies this, mouseAction
      ensures Value() == Step(old(Value()), old(InputOf(now, flags, x, y)))
      ensures Valid() && fullWindowDragEnabled == old(fullWindowDragEnabled)
    {
      var i := InputOf(now, flags, x, y);
      ghost var d := Value();
      StepKeepsInv(d, i);
      var previousPressedArea := mouseAction.pressedArea;
      var action := mouseAction.NextMouseAction(i.area, now, flags, x, y);
      assert (mouseAction.Value(), action) == NextAction(d.mouse, i);
      if moveSizeInitialized && action != MoveResize && HasButton1(flags) {
        EndDrag(previousPressedArea, i);
      }
      ReactTo(action, i);
    }

    /** The end of a drag, before the action of the event. */
    method EndDrag(previous: Area, i: Input)
      modifies this`moveSizeInitialized, this`sent, this`maximizedState, this`windowRect
      ensures Value() == Ended(old(Value()), previous, i)
    {
      if previous == Title {
        MoveWindow(i.x - mouseAction.safeButtonDownX, i.y - mouseAction.safeButtonDownY);
      }
      moveSizeInitialized := false;
      sent := sent + [End(MoveSizeType(previous))];
      maximizedState := NotMaximized;
    }

    method MoveWindow(ox: int, oy: int)
      modifies this`windowRect
      ensures windowRect == Padded(Moved(old(windowRect), ox, oy))
    {
      windowRect := Moved(windowRect, ox, oy);
      UpdateRects();
    }

    method UpdateRects()
      modifies this`windowRect
      ensures windowRect == Padded(old(windowRect))
    {
      windowRect := Padded(windowRect);
    }

    method ReactTo(action: Action, i: Input)
      requires action == StartMoveResize ==> !moveSizeInitialized
      requires i.fullDrag == fullWindowDragEnabled
      modifies this, mouseAction
      ensures Value() == React(old(Value()), action, i) && fullWindowDragEnabled == old(fullWindowDragEnabled)
    {
      match action
      case Maximaze =>
        if maximizedState == VerticalScreen && i.area == Title {
          MaximizeVerticalRestore();
        } else {
          maximizedState := if maximizedState == FullScreen then NotMaximized else FullScreen;
        }
      case MaximazeVertical =>
        MaximizeVerticalRestore();
      case CloseWindow =>
        closed := true;
      case StartMoveResize =>
        if maximizedState == FullScreen {
          mouseAction.RemoveMoveResizeState();
        } else {
          InitializeMoveSize();
        }
      case MoveResize =>
        DragWindow(i.x, i.y);
      case _ =>
    }

    /** A window that is redrawn while it is dragged. */
    method DragWindow(x: int, y: int)
      modifies this`windowRect, this`undefined
      ensures var d := old(Value());
              Value() == if !fullWindowDragEnabled then d
                         else if Draggable(d.mouse.pressed) then d.(window := Dragged(d.mouse, d.saved, x, y))
                         else d.(undefined := true)
    {
      if fullWindowDragEnabled {
        if Draggable(mouseAction.pressedArea) {
          windowRect := Dragged(mouseAction.Value(), windowRectSaved, x, y);
        } else {
          undefined := true;
        }
      }
    }

    method MaximizeVerticalRestore()
      modifies this`maximizedState
      ensures maximizedState == ToggleVertical(old(maximizedState))
    {
      maximizedState := if maximizedState == VerticalScreen then NotMaximized else VerticalScreen;
    }
  }

  datatype Event = Event(window: Rect, fullDrag: bool, now: int, flags: int, x: int, y: int)

  /** What the state machine is given of an event: the area is that of the window as it is by then. */
  function InputFor(d: Drag, resizable: bool, e: Event): Input {
    Input(e.flags, GetRectArea(e.window, d.maximized == FullScreen, resizable, e.x, e.y), e.now, e.x, e.y,
          e.window, e.fullDrag)
  }

  /** What it is given of all events, until the window is closed. */
  function Inputs(d: Drag, resizable: bool, events: seq<Event>): seq<Input>
    decreases |events|
  {
    if events == [] || Over(d) then []
    else
      var i := InputFor(d, resizable, events[0]);
      [i] + Inputs(Step(d, i), resizable, events[1..])
  }

  /** Any mouse events, in windows of any size and place: the messages alternate, and all of them have a
      type and every movement something to drag, as long as the pressed part is not forgotten. */
  method Session(resizable: bool, maximized: Maximized, events: seq<Event>) returns (sent: seq<Pdu>, undefined: bool)
    ensures var (d, inputs) := (Initial(maximized), Inputs(Initial(maximized), resizable, events));
            && sent == Run(d, inputs).sent && undefined == Run(d, inputs).undefined
            && (Typed(sent) <==> AlwaysTyped(d, inputs))
            && (!undefined <==> AlwaysDragsSomething(d, inputs))
            && (NoSlip(d, inputs) ==> Typed(sent) && !undefined)
    ensures Alternates(sent)
  {
    var client := new ClientExecute(resizable, maximized);
    ghost var (start, inputs: seq<Input>) := (Initial(maximized), []);
    ghost var (d, done) := (start, 0);
    for k := 0 to |events|
      invariant fresh(client) && fresh(client.mouseAction) && client.allowResizeHostedDesktop == resizable
      invariant Follows(client, d) && done == k && SoFar(start, d, resizable, events, k, inputs)
    {
      if client.closed || client.undefined {
        break;
      }
      Handle(client, events[k], d);
      inputs := NextInput(start, d, resizable, events, k, inputs);
      d, done := Step(d, InputFor(d, resizable, events[k])), k + 1;
    }
    sent, undefined := client.sent, client.undefined;
    AllGiven(start, d, resizable, events, done, inputs);
    RunIsSafe(start, inputs);
  }

  /** The client is where the machine is, except that others may have moved its window. */
  ghost predicate Follows(client: ClientExecute, d: Drag)
    reads client, client.mouseAction
  {
    client.Valid() && d.(window := client.windowRect) == client.Value()
  }

  method Handle(client: ClientExecute, e: Event, ghost d: Drag)
    requires Follows(client, d) && !Over(d)
    modifies client, client.mouseAction
    ensures Follows(client, Step(d, InputFor(d, client.allowResizeHostedDesktop, e)))
  {
    client.Configure(e.window, e.fullDrag);
    ghost var i := client.InputOf(e.now, e.flags, e.x, e.y);
    assert i == InputFor(d, client.allowResizeHostedDesktop, e);
    WindowIsGiven(d, i);
    client.InputMouse(e.now, e.flags, e.x, e.y);
  }

  /** What the machine was given of the first events, and where it is. */
  predicate SoFar(start: Drag, d: Drag, resizable: bool, events: seq<Event>, k: nat, inputs: seq<Input>)
    requires k <= |events|
  {
    d == Run(start, inputs) && Inputs(start, resizable, events) == inputs + Inputs(d, resizable, events[k..])
  }

  lemma NextInput(start: Drag, d: Drag, resizable: bool, events: seq<Event>, k: nat, inputs: seq<Input>)
    returns (more: seq<Input>)
    requires k < |events| && !Over(d) && SoFar(start, d, resizable, events, k, inputs)
    ensures SoFar(start, Step(d, InputFor(d, resizable, events[k])), resizable, events, k + 1, more)
  {
    var i := InputFor(d, resizable, events[k]);
    more := inputs + [i];
    FirstInput(d, resizable, events, k);
    Regroup(inputs, [i], Inputs(Step(d, i), resizable, events[k + 1..]));
    RunLast(start, inputs, i);
  }

  lemma FirstInput(d: Drag, resizable: bool, events: seq<Event>, k: nat)
    requires k < |events| && !Over(d)
    ensures var i := InputFor(d, resizable, events[k]);
            Inputs(d, resizable, events[k..]) == [i] + Inputs(Step(d, i), resizable, events[k + 1..])
  {
    assert events[k..][1..] == events[k + 1..];
  }

  lemma AllGiven(start: Drag, d: Drag, resizable: bool, events: seq<Event>, k: nat, inputs: seq<Input>)
    requires k <= |events| && SoFar(start, d, resizable, events, k, inputs) && (k == |events| || Over(d))
    ensures inputs == Inputs(start, resizable, events) && d == Run(start, inputs)
  {
    assert inputs + [] == inputs;
  }

  lemma RunIsSafe(d: Drag, inputs: seq<Input>)
    requires Inv(d) && Typed(d.sent) && Held(d) && !d.undefined
    ensures var r := Run(d, inputs);
            && Alternates(r.sent) && (Typed(r.sent) <==> AlwaysTyped(d, inputs))
            && (!r.undefined <==> AlwaysDragsSomething(d, inputs))
            && (NoSlip(d, inputs) ==> Typed(r.sent) && !r.undefined)
  {
    RunKeepsInv(d, inputs);
    RunTyped(d, inputs);
    RunUndefined(d, inputs);
    if NoSlip(d, inputs) {
      HeldIsSafe(d, inputs);
    }
  }

  /** An event brings the window it finds. */
  lemma WindowIsGiven(d: Drag, i: Input)
    requires !Over(d)
    ensures Step(d, i) == Step(d.(window := i.window), i)
  {
  }

  lemma {:induction false} RunLast(d: Drag, inputs: seq<Input>, i: Input)
    ensures Run(d, inputs + [i]) == Step(Run(d, inputs), i)
    decreases |inputs|
  {
    if inputs == [] {
      assert ([] + [i])[1..] == [];
    } else {
      assert (inputs + [i])[1..] == inputs[1..] + [i];
      RunLast(Step(d, inputs[0]), inputs[1..], i);
    }
  }
}
