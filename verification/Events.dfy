/** The event queue of the proxy: timers and file descriptors, run in rounds, with deferred deletion
    and back links to the references that own the events. */
module Events {
  import opened Bytes
  import opened EventWorld
  import EventRules

  class Event {
    var garbage: bool
    var activeTimer: bool
    var fd: int
    var triggerTime: int
    var graceDelay: int
    const lifespan: nat
    ghost const id: nat
    var eventRef: EventRef?

    constructor (lifespan: nat, fd: int, graceDelay: int, ghost id: nat)
      ensures !garbage && !activeTimer && eventRef == null && this.id == id
      ensures this.lifespan == lifespan && this.fd == fd && this.graceDelay == graceDelay && triggerTime == 0
    {
      garbage, activeTimer := false, false;
      this.fd := fd;
      triggerTime := 0;
      this.graceDelay := graceDelay;
      this.lifespan := lifespan;
      this.id := id;
      eventRef := null;
    }

    method SetTimeout(t: int)
      modifies this`activeTimer, this`triggerTime
      ensures activeTimer && triggerTime == t
    {
      activeTimer := true;
      triggerTime := t;
    }

    /** trigger_event_timer: a due timer fires once. */
    method TriggerTimer(now: int) returns (fired: bool)
      modifies this`activeTimer, this`triggerTime
      ensures fired == (old(activeTimer) && now >= old(triggerTime))
      ensures fired ==> !activeTimer && triggerTime == now
      ensures !fired ==> activeTimer == old(activeTimer) && triggerTime == old(triggerTime)
    {
      if activeTimer && now >= triggerTime {
        triggerTime := now;
        activeTimer := false;
        return true;
      }
      return false;
    }
  }

  /** A reference owns at most one event; letting go of an event makes it garbage. */
  class EventRef {
    var event: Event?

    ghost function Owned(): set<Event>
      reads this
    {
      if event == null then {} else {event}
    }

    constructor Empty()
      ensures event == null
    {
      event := null;
    }

    constructor Of(e: Event)
      modifies e`eventRef
      ensures event == e && e.eventRef == this
    {
      event := e;
      new;
      e.eventRef := this;
    }

    constructor MovedFrom(other: EventRef)
      modifies other`event, other.Owned()`eventRef
      ensures event == old(other.event) && other.event == null
      ensures event != null ==> event.eventRef == this
    {
      event := other.event;
      new;
      other.event := null;
      if event != null {
        event.eventRef := this;
      }
    }

    method Assign(e: Event)
      requires e != event
      modifies this`event, Owned()`garbage, Owned()`eventRef, e`eventRef
      ensures event == e && e.eventRef == this
      ensures old(event) != null ==> old(event).garbage && old(event).eventRef == null
    {
      if event != null {
        event.garbage := true;
        event.eventRef := null;
      }
      event := e;
      event.eventRef := this;
    }

    method MoveAssign(other: EventRef)
      requires other.event != event
      modifies this`event, other`event, Owned()`garbage, Owned()`eventRef, other.Owned()`eventRef
      ensures event == old(other.event) && other.event == null
      ensures event != null ==> event.eventRef == this
      ensures old(event) != null ==> old(event).garbage && old(event).eventRef == null
    {
      if event != null {
        event.garbage := true;
        event.eventRef := null;
      }
      event := other.event;
      other.event := null;
      if event != null {
        event.eventRef := this;
      }
    }

    /** EventRef::garbage, and what the destructor does. */
    method Release()
      modifies this`event, Owned()`garbage, Owned()`eventRef
      ensures event == null
      ensures old(event) != null ==> old(event).garbage && old(event).eventRef == null
    {
      if event != null {
        event.garbage := true;
        event.eventRef := null;
        event := null;
      }
    }
  }

  // ----- Queues as values -----

  /** The elements of q that are not dead, in order. */
  function Live<T(==)>(q: seq<T>, dead: set<T>): seq<T> {
    if q == [] then []
    else (if q[0] in dead then [] else [q[0]]) + Live(q[1..], dead)
  }

  lemma SwapRemoveDistinct<T>(q: seq<T>, i: nat)
    requires i < |q| && Distinct(q)
    ensures Distinct(SwapRemove(q, i)) && q[i] !in SwapRemove(q, i)
    ensures forall e :: e in SwapRemove(q, i) <==> e in q && e != q[i]
  {
    var r, n := SwapRemove(q, i), |q| - 1;
    forall e | e in q && e != q[i] ensures e in r {
      var k :| 0 <= k < |q| && q[k] == e;
      assert r[if k == n then i else k] == e;
    }
  }

  // ----- The queue and its references -----

  class EventManager {
    var queue: seq<Event>
    var now: int
    // the references of the program that are alive
    var refs: seq<EventRef>
    // exec_action and exec_timeout, in order
    ghost var executed: seq<Executed>
    ghost var deleted: set<Event>
    // the events and the references
    ghost var repr: set<object>
    // the number of the next event
    ghost var next: nat

    ghost predicate Links()
      reads this, queue, refs
    {
      && (forall k :: 0 <= k < |refs| && refs[k].event != null ==> refs[k].event in queue && refs[k].event.eventRef == refs[k])
      && (forall i :: 0 <= i < |queue| && queue[i].eventRef != null ==> queue[i].eventRef in refs && queue[i].eventRef.event == queue[i])
    }

    ghost predicate Valid()
      reads this, queue, refs
    {
      && Distinct(refs) && Links() && Numbered(queue, next)
      && (forall i :: 0 <= i < |queue| ==> queue[i] in repr) && (forall k :: 0 <= k < |refs| ==> refs[k] in repr)
      && (forall i :: 0 <= i < |queue| ==> queue[i] !in deleted)
    }

    /** No number is used twice, so that no event is in the queue twice. */
    static ghost predicate Numbered(queue: seq<Event>, next: nat) {
      && (forall i :: 0 <= i < |queue| ==> queue[i].id < next)
      && (forall i, j :: 0 <= i < j < |queue| ==> queue[i].id != queue[j].id)
    }

    /** The queue and its references are those of a world. */
    ghost predicate Is(w: World)
      reads this, queue, refs
    {
      && w.next == next && w.log == executed
      && |w.events| == |queue| && (forall i {:trigger w.events[i]} :: 0 <= i < |queue| ==> Shows(queue[i], w.events[i]))
      && |w.refs| == |refs| && (forall k {:trigger w.refs[k]} :: 0 <= k < |refs| ==> w.refs[k] == Owned(refs[k].event))
    }

    /** Every state is that of a world, in which no two references own the same event and none an event that is gone. */
    ghost function View(): (w: World)
      reads this, queue, refs
      requires Valid()
      ensures Is(w) && EventWorld.Valid(w)
    {
      var w := World(seq(|queue|, i requires 0 <= i < |queue| reads this, queue => Shown(queue[i])),
                     seq(|refs|, k requires 0 <= k < |refs| reads this, refs => Owned(refs[k].event)), next, executed);
      ViewIsValid(w);
      w
    }

    lemma ViewIsValid(w: World)
      requires Valid() && Is(w)
      ensures EventWorld.Valid(w)
    {
      forall k | 0 <= k < |w.refs| && w.refs[k].Some? ensures Known(w.events, w.refs[k].value) {
        assert w.refs[k] == Owned(refs[k].event);
        var i :| 0 <= i < |queue| && queue[i] == refs[k].event;
        assert w.events[i].id == w.refs[k].value;
      }
      forall k, l | 0 <= k < l < |w.refs| && w.refs[k].Some? ensures w.refs[k] != w.refs[l] {
        assert w.refs[k] == Owned(refs[k].event) && w.refs[l] == Owned(refs[l].event);
      }
    }

    static ghost function Shown(e: Event): (v: E)
      reads e
      ensures Shows(e, v)
    {
      E(e.id, e.fd, e.garbage, e.activeTimer, e.triggerTime, e.graceDelay, e.lifespan)
    }

    static ghost function Owned(e: Event?): Option<nat> {
      if e == null then None else Some(e.id)
    }

    static ghost predicate Shows(e: Event, v: E)
      reads e
    {
      v == E(e.id, e.fd, e.garbage, e.activeTimer, e.triggerTime, e.graceDelay, e.lifespan)
    }

    /** What running code keeps: no event leaves the queue, and the events and references that join it are new. */
    twostate predicate Grows()
      reads this, queue, refs
    {
      && old(queue) <= queue && now == old(now) && deleted == old(deleted)
      && (forall i :: |old(queue)| <= i < |queue| ==> fresh(queue[i]))
      && fresh(repr - old(repr))
    }

    constructor (now: int)
      ensures Valid() && queue == [] && refs == [] && executed == [] && this.now == now && deleted == {} && next == 0 && repr == {}
      ensures Is(World([], [], 0, []))
    {
      queue, refs, executed := [], [], [];
      this.now := now;
      deleted, next, repr := {}, 0, {};
    }

    method Create(lifespan: nat, fd: int, grace: int) returns (e: Event)
      requires Valid()
      modifies this`queue, this`next, this`repr
      ensures Valid() && Grows() && fresh(e)
      ensures queue == old(queue) + [e] && refs == old(refs) && e.id == old(next) && next == old(next) + 1
      ensures e.triggerTime == 0 && e.graceDelay == grace
      ensures !e.garbage && !e.activeTimer && e.fd == fd && e.lifespan == lifespan && e.eventRef == null
    {
      e := new Event(lifespan, fd, grace, next);
      queue := queue + [e];
      repr := repr + {e};
      next := next + 1;
    }

    /** Every event of the lifespan becomes garbage; the others do not change. */
    method EndOfLifespan(lifespan: nat)
      requires Valid()
      modifies queue`garbage
      ensures Valid() && Grows()
      ensures forall k :: 0 <= k < |queue| ==> queue[k].garbage == (old(queue[k].garbage) || queue[k].lifespan == lifespan)
    {
      for i := 0 to |queue|
        invariant forall k :: 0 <= k < i ==> queue[k].garbage == (old(queue[k].garbage) || queue[k].lifespan == lifespan)
        invariant forall k :: i <= k < |queue| ==> queue[k].garbage == old(queue[k].garbage)
      {
        if queue[i].lifespan == lifespan {
          queue[i].garbage := true;
        }
      }
    }

    // ----- References -----

    method NewEmptyRef() returns (r: EventRef)
      requires Valid()
      modifies this`refs, this`repr
      ensures Valid() && Grows() && fresh(r) && refs == old(refs) + [r] && queue == old(queue)
    {
      r := new EventRef.Empty();
      refs := refs + [r];
      repr := repr + {r};
    }

    /** Handing an event to a new reference keeps the links exactly when nothing owned the event. */
    method NewRef(e: Event) returns (r: EventRef)
      requires Valid() && e in queue
      modifies this`refs, this`repr, e`eventRef
      ensures fresh(r) && refs == old(refs) + [r] && queue == old(queue) && Distinct(refs)
      ensures r.event == e && e.eventRef == r
      ensures Links() <==> old(e.eventRef) == null
      ensures old(e.eventRef) == null ==> Valid() && Grows()
    {
      ghost var owner := e.eventRef;
      r := new EventRef.Of(e);
      refs := refs + [r];
      repr := repr + {r};
      if owner != null {
        assert owner in refs && owner.event == e && e.eventRef != owner;
      }
    }

    method MoveRef(other: EventRef) returns (r: EventRef)
      requires Valid() && other in refs
      modifies this`refs, this`repr, other`event, other.Owned()`eventRef
      ensures Valid() && Grows() && fresh(r) && refs == old(refs) + [r] && queue == old(queue)
      ensures r.event == old(other.event) && other.event == null
    {
      r := new EventRef.MovedFrom(other);
      refs := refs + [r];
      repr := repr + {r};
    }

    /** EventRef::operator=(Event&): the event the reference owned becomes garbage. The links are kept
        exactly when nothing owned the new event. */
    method AssignRef(r: EventRef, e: Event)
      requires Valid() && r in refs && e in queue && e != r.event
      modifies r`event, r.Owned()`garbage, r.Owned()`eventRef, e`eventRef
      ensures r.event == e && e.eventRef == r
      ensures Links() <==> old(e.eventRef) == null
      ensures old(e.eventRef) == null ==> Valid() && Grows()
      ensures old(r.event) != null ==> old(r.event).garbage && old(r.event).eventRef == null
      ensures forall k :: 0 <= k < |queue| ==> queue[k].garbage == (old(queue[k].garbage) || queue[k] == old(r.event))
    {
      ghost var owner := e.eventRef;
      r.Assign(e);
      if owner != null {
        assert owner in refs && owner.event == e && e.eventRef != owner;
      }
    }

    method MoveAssignRef(r: EventRef, other: EventRef)
      requires Valid() && r in refs && other in refs && other.event != r.event
      modifies r`event, other`event, r.Owned()`garbage, r.Owned()`eventRef, other.Owned()`eventRef
      ensures Valid() && Grows() && r.event == old(other.event) && other.event == null
      ensures old(r.event) != null ==> old(r.event).garbage && old(r.event).eventRef == null
      ensures forall k :: 0 <= k < |queue| ==> queue[k].garbage == (old(queue[k].garbage) || queue[k] == old(r.event))
    {
      r.MoveAssign(other);
    }

    method ReleaseRef(r: EventRef)
      requires Valid() && r in refs
      modifies r`event, r.Owned()`garbage, r.Owned()`eventRef
      ensures Valid() && Grows() && r.event == null
      ensures old(r.event) != null ==> old(r.event).garbage && old(r.event).eventRef == null
      ensures forall k :: 0 <= k < |queue| ==> queue[k].garbage == (old(queue[k].garbage) || queue[k] == old(r.event))
    {
      r.Release();
    }

    method DestroyRef(i: nat, r: EventRef)
      requires Valid() && i < |refs| && r == refs[i]
      modifies this`refs, r`event, r.Owned()`garbage, r.Owned()`eventRef
      ensures Valid() && Grows() && refs == old(refs)[..i] + old(refs)[i + 1..]
      ensures old(r.event) != null ==> old(r.event).garbage && old(r.event).eventRef == null
    {
      ReleaseRef(r);
      Forget(i);
    }

    /** A reference that owns nothing goes away. */
    method Forget(i: nat)
      requires Valid() && i < |refs| && refs[i].event == null
      modifies this`refs
      ensures Valid() && Grows() && refs == old(refs)[..i] + old(refs)[i + 1..]
    {
      refs := refs[..i] + refs[i + 1..];
      assert forall k :: 0 <= k < |refs| ==> refs[k] == old(refs)[if k < i then k else k + 1];
      forall x | x in old(refs) && x != old(refs)[i] ensures x in refs {
        var k :| 0 <= k < |old(refs)| && old(refs)[k] == x;
        assert refs[if k < i then k else k - 1] == x;
      }
    }

    /** One effect of running code. References take only events that nothing owns. */
    method Apply(f: Effect, ghost w: World)
      requires Valid() && Is(w)
      modifies this`queue, this`refs, this`next, this`repr, repr
      ensures Valid() && Grows() && Is(EventWorld.Apply(w, f))
    {
      match f
      case CreateTimeout(_, _) => ApplyCreation(f, w);
      case CreateFd(_, _) => ApplyCreation(f, w);
      case CreateFdTimeout(_, _, _, _) => ApplyCreation(f, w);
      case Kill(_) => ApplyChange(f, w);
      case Arm(_, _) => ApplyChange(f, w);
      case Disarm(_) => ApplyChange(f, w);
      case SetFd(_, _) => ApplyChange(f, w);
      case EndOfLifespan(_) => ApplyChange(f, w);
      case _ => ApplyToRefs(f, w);
    }

    predicate Creates(f: Effect) { f.CreateTimeout? || f.CreateFd? || f.CreateFdTimeout? }

    method ApplyCreation(f: Effect, ghost w: World)
      requires Valid() && Is(w) && Creates(f)
      modifies this`queue, this`next, this`repr
      ensures Valid() && Grows() && Is(EventWorld.Apply(w, f))
    {
      match f
      case CreateTimeout(lifespan, due) =>
        CreateArmed(lifespan, INVALID_SOCKET, 0, due, w);
      case CreateFd(lifespan, fd) =>
        var e := Create(lifespan, fd, 0);
      case CreateFdTimeout(lifespan, fd, grace, due) =>
        CreateArmed(lifespan, fd, grace, due, w);
    }

    /** An event that waits for an instant. */
    method CreateArmed(lifespan: nat, fd: int, grace: int, due: int, ghost w: World)
      requires Valid() && Is(w)
      modifies this`queue, this`next, this`repr
      ensures Valid() && Grows() && Is(EventWorld.Create(w, fd, true, due, grace, lifespan))
    {
      var e := Create(lifespan, fd, grace);
      e.SetTimeout(due);
    }

    predicate Changes(f: Effect) { f.Kill? || f.Arm? || f.Disarm? || f.SetFd? || f.EndOfLifespan? }

    method ApplyChange(f: Effect, ghost w: World)
      requires Valid() && Is(w) && Changes(f)
      modifies queue
      ensures Valid() && Grows() && Is(EventWorld.Apply(w, f))
    {
      match f
      case EndOfLifespan(l) =>
        ApplyEnd(l, w);
      case Kill(i) =>
        if i < |queue| { KillAt(i, w); }
      case Arm(i, due) =>
        if i < |queue| { ArmAt(i, due, w); }
      case Disarm(i) =>
        if i < |queue| { DisarmAt(i, w); }
      case SetFd(i, fd) =>
        if i < |queue| { SetFdAt(i, fd, w); }
    }

    method ApplyEnd(lifespan: nat, ghost w: World)
      requires Valid() && Is(w)
      modifies queue`garbage
      ensures Valid() && Grows() && Is(EventWorld.Apply(w, Effect.EndOfLifespan(lifespan)))
    {
      EndOfLifespan(lifespan);
    }

    method KillAt(i: nat, ghost w: World)
      requires Valid() && Is(w) && i < |queue|
      modifies queue[i]
      ensures Valid() && Grows() && Is(EventWorld.Apply(w, Effect.Kill(i)))
    {
      queue[i].garbage := true;
    }

    method ArmAt(i: nat, due: int, ghost w: World)
      requires Valid() && Is(w) && i < |queue|
      modifies queue[i]
      ensures Valid() && Grows() && Is(EventWorld.Apply(w, Arm(i, due)))
    {
      queue[i].SetTimeout(due);
    }

    method DisarmAt(i: nat, ghost w: World)
      requires Valid() && Is(w) && i < |queue|
      modifies queue[i]
      ensures Valid() && Grows() && Is(EventWorld.Apply(w, Disarm(i)))
    {
      queue[i].activeTimer := false;
    }

    method SetFdAt(i: nat, fd: int, ghost w: World)
      requires Valid() && Is(w) && i < |queue|
      modifies queue[i]
      ensures Valid() && Grows() && Is(EventWorld.Apply(w, SetFd(i, fd)))
    {
      queue[i].fd := fd;
    }

    method ApplyToRefs(f: Effect, ghost w: World)
      requires Valid() && Is(w) && !Creates(f) && !Changes(f)
      modifies this`refs, this`repr, repr
      ensures Valid() && Grows() && Is(EventWorld.Apply(w, f))
    {
      match f
      case NewEmptyRef =>
        var r := NewEmptyRef();
      case NewRef(i) =>
        ApplyNewRef(i, w);
      case MoveRef(k) =>
        if k < |refs| { var r := MoveRef(refs[k]); }
      case AssignRef(k, i) =>
        ApplyAssign(k, i, w);
      case MoveAssignRef(k, o) =>
        ApplyMoveAssign(k, o, w);
      case ReleaseRef(k) =>
        if k < |refs| { ApplyRelease(k, w); }
      case DestroyRef(k) =>
        if k < |refs| { ApplyDestroy(k, w); }
    }

    lemma UnownedIs(w: World, i: nat)
      requires Valid() && Is(w) && i < |queue|
      ensures Unowned(w, w.events[i].id) <==> queue[i].eventRef == null
    {
      if queue[i].eventRef != null {
        var k :| 0 <= k < |refs| && refs[k] == queue[i].eventRef;
        assert w.refs[k] == Some(w.events[i].id);
      }
    }

    method ApplyNewRef(i: nat, ghost w: World)
      requires Valid() && Is(w)
      modifies this`refs, this`repr, queue
      ensures Valid() && Grows() && Is(EventWorld.Apply(w, Effect.NewRef(i)))
    {
      if i < |queue| {
        UnownedIs(w, i);
        if queue[i].eventRef == null {
          var r := NewRef(queue[i]);
        }
      }
    }

    method ApplyAssign(k: nat, i: nat, ghost w: World)
      requires Valid() && Is(w)
      modifies repr
      ensures Valid() && Grows() && Is(EventWorld.Apply(w, Effect.AssignRef(k, i)))
    {
      if k < |refs| && i < |queue| {
        UnownedIs(w, i);
        if queue[i].eventRef == null {
          AssignRef(refs[k], queue[i]);
        }
      }
    }

    method ApplyMoveAssign(k: nat, o: nat, ghost w: World)
      requires Valid() && Is(w)
      modifies repr
      ensures Valid() && Grows() && Is(EventWorld.Apply(w, Effect.MoveAssignRef(k, o)))
    {
      if k < |refs| && o < |refs| {
        SameOwned(w, k, o);
        if refs[o].event != refs[k].event {
          MoveAssignRef(refs[k], refs[o]);
        }
      }
    }

    lemma SameOwned(w: World, k: nat, o: nat)
      requires Valid() && Is(w) && k < |refs| && o < |refs|
      ensures w.refs[k] == w.refs[o] <==> refs[k].event == refs[o].event
    {
    }

    method ApplyRelease(k: nat, ghost w: World)
      requires Valid() && Is(w) && k < |refs|
      modifies repr
      ensures Valid() && Grows() && Is(EventWorld.Apply(w, Effect.ReleaseRef(k)))
    {
      ReleaseRef(refs[k]);
    }

    method ApplyDestroy(k: nat, ghost w: World)
      requires Valid() && Is(w) && k < |refs|
      modifies this`refs, this`repr, repr
      ensures Valid() && Grows() && Is(EventWorld.Apply(w, Effect.DestroyRef(k)))
    {
      DestroyRef(k, refs[k]);
    }

    /** A callback: any effects, in any order. */
    method Callback(effects: seq<Effect>, ghost w: World)
      requires Valid() && Is(w)
      modifies this`queue, this`refs, this`next, this`repr, repr
      ensures Valid() && Grows() && Is(ApplyAll(w, effects))
    {
      for i := 0 to |effects|
        invariant Valid() && Grows() && Is(ApplyAll(w, effects[..i]))
      {
        assert effects[..i + 1][..i] == effects[..i];
        Apply(effects[i], ApplyAll(w, effects[..i]));
      }
      assert effects[..|effects|] == effects;
    }

    // ----- A round -----

    /** exec_action or exec_timeout. */
    method Execute(event: Event, outcome: Outcome, effects: seq<Effect>, ghost w: World)
      requires Valid() && Is(w.(log := executed)) && w.log == executed + [Executed(event.id, outcome)]
      modifies this`queue, this`refs, this`next, this`executed, this`repr, repr
      ensures Valid() && Grows() && Is(ApplyAll(w, effects))
    {
      executed := executed + [Executed(event.id, outcome)];
      Callback(effects, w);
    }

    /** What happens to an event before its callback. */
    method Fire(ghost i: nat, event: Event, ready: int -> bool, ghost w: World) returns (outcome: Outcome)
      requires Valid() && Is(w) && i < |queue| && event == queue[i]
      modifies event`triggerTime, event`activeTimer
      ensures Valid() && Grows() && outcome == Decide(w.events[i], ready, now)
      ensures Is(w.(events := w.events[i := Fired(w.events[i], outcome, now)]))
      ensures outcome == Action ==> event.triggerTime == now + event.graceDelay && event.activeTimer == old(event.activeTimer)
      ensures outcome == Timeout ==> event.triggerTime == now && !event.activeTimer
      ensures outcome == Idle ==> unchanged(event)
    {
      outcome := Idle;
      if !event.garbage {
        if ready(event.fd) {
          event.triggerTime := now + event.graceDelay;
          outcome := Action;
        } else {
          var fired := event.TriggerTimer(now);
          if fired {
            outcome := Timeout;
          }
        }
      }
      assert Shows(queue[i], Fired(w.events[i], outcome, now));
    }

    /** One event of a round, at position i. An idle one and everything else are left as they were. */
    method RunEvent(ghost i: nat, event: Event, ready: int -> bool, effects: seq<Effect>, ghost w: World)
      returns (outcome: Outcome)
      requires Valid() && Is(w) && i < |queue| && event == queue[i]
      modifies this`queue, this`refs, this`next, this`executed, this`repr, repr
      ensures Valid() && Grows() && Is(EventWorld.Visit(w, i, ready, now, effects))
      ensures outcome == Decide(w.events[i], ready, now)
      ensures outcome == Idle ==>
                && queue == old(queue) && refs == old(refs) && executed == old(executed)
                && unchanged(old(queue)) && unchanged(old(refs))
    {
      outcome := Fire(i, event, ready, w);
      if outcome != Idle {
        Execute(event, outcome, effects, Started(w, i, outcome, now));
      }
    }

    /** The turn of the event at position i. */
    method Turn(i: nat, ready: int -> bool, scripts: nat -> seq<Effect>, seen: bool, ghost w: World)
      returns (seen': bool)
      requires i < |w.events| && i < |queue|
      requires Valid() && Is(Visited(w, i, ready, now, scripts)) && seen == GarbageSeen(w, i, ready, now, scripts)
      modifies this`queue, this`refs, this`next, this`executed, this`repr, repr
      ensures Valid() && Grows()
      ensures Is(Visited(w, i + 1, ready, now, scripts)) && seen' == GarbageSeen(w, i + 1, ready, now, scripts)
    {
      VisitedNext(w, i + 1, ready, now, scripts);
      var outcome := RunEvent(i, queue[i], ready, scripts(i), Visited(w, i, ready, now, scripts));
      seen' := seen || queue[i].garbage;
    }

    /** Runs every event present when the round starts, once and in order: the descriptor if it is
        ready, otherwise the timer if it is due. The i-th event, if it runs, has the effects
        scripts(i). */
    method RunRound(ready: int -> bool, scripts: nat -> seq<Effect>, ghost w: World) returns (hasGarbage: bool)
      requires Valid() && Is(w)
      modifies this`queue, this`refs, this`next, this`executed, this`repr, repr
      ensures Valid() && Grows() && Is(Visited(w, |w.events|, ready, now, scripts))
      ensures hasGarbage == GarbageSeen(w, |w.events|, ready, now, scripts)
    {
      var iend := |queue|;
      hasGarbage := false;
      var i := 0;
      while i < iend
        invariant i <= iend <= |queue| && iend == |w.events|
        invariant Valid() && Grows() && Is(Visited(w, i, ready, now, scripts))
        invariant hasGarbage == GarbageSeen(w, i, ready, now, scripts)
      {
        hasGarbage := Turn(i, ready, scripts, hasGarbage, w);
        i := i + 1;
      }
    }

    static lemma StillNumbered(queue: seq<Event>, i: nat, next: nat)
      requires Numbered(queue, next) && i < |queue|
      ensures Numbered(SwapRemove(queue, i), next)
    {
    }

    /** Frees the event at position i, and clears the reference that owns it. */
    method DeleteAt(i: nat)
      requires Valid() && i < |queue|
      modifies this`queue, this`deleted, refs`event
      ensures Valid() && queue == SwapRemove(old(queue), i) && deleted == old(deleted) + {old(queue)[i]}
      ensures forall r | r in refs :: r.event == if old(r.event) == old(queue)[i] then null else old(r.event)
    {
      Unlink(i);
      TakeOut(i);
    }

    /** Nothing refers to the event at position i. */
    ghost predicate Unlinked(i: nat)
      requires i < |queue|
      reads this, queue, refs
    {
      && Distinct(refs) && Numbered(queue, next)
      && (forall j :: 0 <= j < |queue| ==> queue[j] in repr) && (forall k :: 0 <= k < |refs| ==> refs[k] in repr)
      && (forall j :: 0 <= j < |queue| ==> queue[j] !in deleted)
      && (forall k :: 0 <= k < |refs| && refs[k].event != null ==>
            refs[k].event in queue && refs[k].event != queue[i] && refs[k].event.eventRef == refs[k])
      && (forall j :: 0 <= j < |queue| && j != i && queue[j].eventRef != null ==>
            queue[j].eventRef in refs && queue[j].eventRef.event == queue[j])
    }

    /** The destructor of the event. */
    method Unlink(i: nat)
      requires Valid() && i < |queue|
      modifies refs`event
      ensures Unlinked(i)
      ensures forall r | r in refs :: r.event == if old(r.event) == queue[i] then null else old(r.event)
    {
      if queue[i].eventRef != null {
        queue[i].eventRef.event := null;
      }
    }

    method TakeOut(i: nat)
      requires i < |queue| && Unlinked(i)
      modifies this`queue, this`deleted
      ensures Valid() && queue == SwapRemove(old(queue), i) && deleted == old(deleted) + {old(queue)[i]}
    {
      SwapRemoveDistinct(queue, i);
      StillNumbered(queue, i, next);
      deleted := deleted + {queue[i]};
      queue := queue[i := queue[|queue| - 1]];
      queue := queue[..|queue| - 1];
    }

    /** What has been freed so far of the garbage of the queue `was`. */
    ghost predicate Collecting(was: seq<Event>, before: set<Event>)
      reads this, queue, refs, was
    {
      && Valid() && before !! (set e | e in was)
      && (forall e | e in queue :: e in was)
      && (forall e | e in was && e !in queue :: e.garbage)
      && deleted == before + (set e | e in was && e !in queue)
    }

    /** The same for the world. */
    method FreeAt(i: nat, ghost w: World)
      requires Valid() && Is(w) && i < |queue|
      modifies this`queue, this`deleted, refs`event
      ensures Valid() && Is(Delete(w, i))
      ensures queue == SwapRemove(old(queue), i) && deleted == old(deleted) + {old(queue)[i]}
    {
      DeleteAt(i);
    }

    /** One of the garbage events of the queue `was`. */
    method CollectOne(i: nat, ghost was: seq<Event>, ghost before: set<Event>, ghost w: World)
      requires Collecting(was, before) && Is(w) && i < |queue| && queue[i].garbage && Clean(i)
      modifies this`queue, this`deleted, refs`event
      ensures Collecting(was, before) && Is(Delete(w, i)) && Clean(i)
      ensures i <= |queue| < |old(queue)|
      ensures Freed(w, i) == Freed(Delete(w, i), i)
    {
      SwapRemoveDistinct(queue, i);
      FreeAt(i, w);
    }

    /** No garbage before position n. */
    ghost predicate Clean(n: nat)
      reads this, queue
    {
      forall k :: 0 <= k < n && k < |queue| ==> !queue[k].garbage
    }

    /** While there is garbage at position i, the last event takes its place, and may be garbage too. */
    method CollectAt(i: nat, ghost was: seq<Event>, ghost before: set<Event>, ghost w: World) returns (ghost w': World)
      requires Collecting(was, before) && Is(w) && i < |queue| && Clean(i)
      modifies this`queue, this`deleted, refs`event
      ensures Collecting(was, before) && Clean(i + 1) && Is(w') && Freed(w', i + 1) == Freed(w, i)
      ensures i <= |queue| <= |old(queue)|
    {
      w' := w;
      var more := queue[i].garbage;
      while more
        invariant Collecting(was, before) && Clean(i) && Is(w') && Freed(w', i) == Freed(w, i)
        invariant i <= |queue| <= |old(queue)|
        invariant more <==> i < |queue| && queue[i].garbage
        decreases |queue|
      {
        CollectOne(i, was, before, w');
        w' := Delete(w', i);
        more := i < |queue| && queue[i].garbage;
      }
      FreedNext(w', i);
    }

    /** Frees every garbage event; the others stay, in another order. */
    method GarbageCollector(ghost dead: set<Event>, ghost w: World)
      requires Valid() && Is(w)
      requires forall e :: e in dead <==> e in queue && e.garbage
      modifies this`queue, this`deleted, refs`event
      ensures Valid() && deleted == old(deleted) + dead && Is(Freed(w, 0))
      ensures multiset(queue) == multiset(Live(old(queue), dead))
      ensures forall e | e in queue :: !e.garbage
    {
      ghost var (was, before, w') := (queue, deleted, w);
      var i := 0;
      while i < |queue|
        invariant Collecting(was, before) && Clean(i) && Is(w') && Freed(w', i) == Freed(w, 0)
        decreases |queue| - i
      {
        w' := CollectAt(i, was, before, w');
        i := i + 1;
      }
      AllCollected(was, before, dead);
    }

    lemma AllCollected(was: seq<Event>, before: set<Event>, dead: set<Event>)
      requires Collecting(was, before) && Clean(|queue|) && Distinct(was)
      requires forall e :: e in dead <==> e in was && e.garbage
      ensures deleted == before + dead && multiset(queue) == multiset(Live(was, dead))
      ensures forall e | e in queue :: !e.garbage
    {
      assert (set e | e in was && e !in queue) == dead;
      LiveSame(queue, was, dead);
    }

    /** EventManager::execute_events. `all` is the queue before garbage is freed. */
    method ExecuteEvents(ready: int -> bool, scripts: nat -> seq<Effect>, ghost w: World)
      returns (ghost all: seq<Event>, ghost dead: set<Event>)
      requires Valid() && Is(w)
      modifies this, repr
      ensures Valid() && now == old(now) && Is(EventWorld.Execute(w, ready, now, scripts))
      // every event of the start, once, as its state at its turn decides, and callbacks are run for none twice
      ensures var ran := Ran(w.events, Outcomes(w, |w.events|, ready, now, scripts));
              executed == old(executed) + ran && RunOnce(ran)
      // events created meanwhile are new, and wait for the next round
      ensures old(queue) <= all && Distinct(all)
      ensures forall i :: |old(queue)| <= i < |all| ==> fresh(all[i])
      // only garbage is lost, and all that was garbage at the start is
      ensures multiset(queue) == multiset(Live(all, dead)) && deleted == old(deleted) + dead
      ensures forall e | e in dead :: e in all && e.garbage
      ensures forall e | e in old(queue) :: old(e.garbage) ==> e in dead
      ensures dead != {} ==> forall e | e in queue :: !e.garbage
    {
      ViewIsValid(w);
      EventRules.RoundRuns(w, ready, now, scripts);
      var hasGarbage := RunRound(ready, scripts, w);
      ghost var r := Visited(w, |w.events|, ready, now, scripts);
      VisitedGrows(w, |w.events|, ready, now, scripts);
      all, dead := queue, {};
      forall e | e in old(queue) && old(e.garbage) ensures hasGarbage && e in queue && e.garbage {
        var i :| 0 <= i < |w.events| && old(queue)[i] == e;
        assert w.events[i].garbage && r.events[i].garbage;
        StartIsSeen(w, |w.events|, ready, now, scripts, i);
      }
      if !hasGarbage {
        LiveSame(queue, all, {});
        return;
      }
      dead := set e | e in queue && e.garbage;
      GarbageCollector(dead, r);
    }

    /** The earliest due time of the live armed events, or zero when there is none. */
    method NextTimeout() returns (ultimatum: int)
      ensures (forall e | e in queue :: !e.activeTimer || e.garbage) ==> ultimatum == 0
      ensures (exists e :: e in queue && e.activeTimer && !e.garbage) ==>
                && (exists e :: e in queue && e.activeTimer && !e.garbage && e.triggerTime == ultimatum)
                && (forall e | e in queue :: e.activeTimer && !e.garbage ==> ultimatum <= e.triggerTime)
    {
      ultimatum := 0;
      var first := 0;
      while first < |queue|
        invariant 0 <= first <= |queue| && ultimatum == 0
        invariant forall k :: 0 <= k < first ==> !queue[k].activeTimer || queue[k].garbage
      {
        if queue[first].activeTimer && !queue[first].garbage {
          ultimatum := queue[first].triggerTime;
          ghost var least := first;
          first := first + 1;
          while first < |queue|
            invariant 0 <= least < first <= |queue|
            invariant queue[least].activeTimer && !queue[least].garbage && queue[least].triggerTime == ultimatum
            invariant forall k :: 0 <= k < first && queue[k].activeTimer && !queue[k].garbage ==>
                        ultimatum <= queue[k].triggerTime
          {
            if queue[first].activeTimer && !queue[first].garbage && queue[first].triggerTime < ultimatum {
              ultimatum := queue[first].triggerTime;
              least := first;
            }
            first := first + 1;
          }
          return;
        }
        first := first + 1;
      }
    }
  }

  /** Handing an owned event to a second reference leaves the first one pointing at a freed event. */
  method DanglingReference() returns (m: EventManager, lost: EventRef)
    ensures lost.event != null && lost.event in m.deleted
  {
    m := new EventManager(0);
    var e := m.Create(0, INVALID_SOCKET, 0);
    lost := new EventRef.Of(e);
    var owner := new EventRef.Of(e);
    owner.Release();
    assert m.queue[0] == e;
    var v := E(0, INVALID_SOCKET, true, false, 0, 0, 0);
    assert EventManager.Shows(m.queue[0], v);
    m.GarbageCollector({e}, World([v], [], 1, []));
  }

  function Without<T>(r: seq<T>, k: nat): seq<T>
    requires k < |r|
  {
    r[..k] + r[k + 1..]
  }

  lemma WithoutOne<T>(r: seq<T>, k: nat)
    requires k < |r| && Distinct(r)
    ensures Distinct(Without(r, k)) && multiset(r) == multiset(Without(r, k)) + multiset{r[k]}
    ensures forall e | e in Without(r, k) :: e in r && e != r[k]
    ensures forall e | e in r && e != r[k] :: e in Without(r, k)
  {
    assert r == r[..k] + [r[k]] + r[k + 1..];
    forall e | e in r && e != r[k] ensures e in Without(r, k) {
      var j :| 0 <= j < |r| && r[j] == e;
      assert Without(r, k)[if j < k then j else j - 1] == e;
    }
  }

  lemma FirstElement<T>(r: seq<T>)
    ensures r != [] ==> r[0] in r
  {
  }

  lemma {:induction false} SameElements<T>(q: seq<T>, r: seq<T>)
    requires Distinct(q) && Distinct(r)
    requires forall e | e in q :: e in r
    requires forall e | e in r :: e in q
    ensures multiset(q) == multiset(r)
    decreases |q|
  {
    if q == [] {
      FirstElement(r);
    } else {
      assert q[0] in q;
      var k :| 0 <= k < |r| && r[k] == q[0];
      WithoutOne(q, 0);
      WithoutOne(r, k);
      SameElements(Without(q, 0), Without(r, k));
    }
  }

  lemma {:induction false} LiveElements<T>(q: seq<T>, dead: set<T>)
    requires Distinct(q)
    ensures Distinct(Live(q, dead))
    ensures forall e | e in Live(q, dead) :: e in q && e !in dead
    ensures forall e | e in q && e !in dead :: e in Live(q, dead)
  {
    if q != [] {
      LiveElements(q[1..], dead);
      assert q[0] !in q[1..];
    }
  }

  lemma LiveSame<T>(q: seq<T>, was: seq<T>, dead: set<T>)
    requires Distinct(q) && Distinct(was)
    requires forall e | e in q :: e in was && e !in dead
    requires forall e | e in was && e !in dead :: e in q
    ensures multiset(q) == multiset(Live(was, dead))
  {
    LiveElements(was, dead);
    SameElements(q, Live(was, dead));
  }
}
