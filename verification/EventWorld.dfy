/** The event queue as a value: what callbacks do to it, what a round makes of it, and what is freed in the end. */
module EventWorld {
  import opened Bytes

  const INVALID_SOCKET: int := -1

  /** An event with a number of its own, and what it waits for. */
  datatype E = E(id: nat, fd: int, garbage: bool, armed: bool, due: int, grace: int, lifespan: nat)

  datatype Outcome = Action | Timeout | Idle

  /** A callback that was run. */
  datatype Executed = Executed(id: nat, outcome: Outcome)

  /** The queue, which event each reference owns, the number of the next event, and the callbacks run so far. */
  datatype World = World(events: seq<E>, refs: seq<Option<nat>>, next: nat, log: seq<Executed>)

  predicate Distinct<T(==)>(q: seq<T>) {
    forall i, j :: 0 <= i < j < |q| ==> q[i] != q[j]
  }

  /** Numbers are used once, and references own what is in the queue, each something else. */
  predicate Valid(w: World) {
    && (forall i :: 0 <= i < |w.events| ==> w.events[i].id < w.next)
    && (forall i, j :: 0 <= i < j < |w.events| ==> w.events[i].id != w.events[j].id)
    && (forall k :: 0 <= k < |w.refs| && w.refs[k].Some? ==> Known(w.events, w.refs[k].value))
    && (forall k, l :: 0 <= k < l < |w.refs| && w.refs[k].Some? ==> w.refs[k] != w.refs[l])
  }

  predicate Known(events: seq<E>, id: nat) { exists i :: 0 <= i < |events| && events[i].id == id }

  predicate Unowned(w: World, id: nat) { forall k :: 0 <= k < |w.refs| ==> w.refs[k] != Some(id) }

  // ---- what callbacks do ----

  /** What code run by an event may do: create events, kill, arm, disarm or move them, and create,
      assign, move, release or destroy references. Positions that do not exist have no effect. */
  datatype Effect =
    | CreateTimeout(lifespan: nat, due: int)
    | CreateFd(lifespan: nat, fd: int)
    | CreateFdTimeout(lifespan: nat, fd: int, grace: int, due: int)
    | Kill(event: nat)
    | Arm(event: nat, due: int)
    | Disarm(event: nat)
    | SetFd(event: nat, fd: int)
    | EndOfLifespan(lifespan: nat)
    | NewEmptyRef
    | NewRef(event: nat)
    | MoveRef(ref: nat)
    | AssignRef(ref: nat, event: nat)
    | MoveAssignRef(ref: nat, other: nat)
    | ReleaseRef(ref: nat)
    | DestroyRef(ref: nat)

  function Create(w: World, fd: int, armed: bool, due: int, grace: int, lifespan: nat): World {
    w.(events := w.events + [E(w.next, fd, false, armed, due, grace, lifespan)], next := w.next + 1)
  }

  function Put(w: World, i: nat, e: E): World {
    if i < |w.events| then w.(events := w.events[i := e]) else w
  }

  /** The event of a reference that lets go of it becomes garbage. */
  function Marked(events: seq<E>, owned: Option<nat>): (r: seq<E>)
    ensures |r| == |events|
    ensures forall i :: 0 <= i < |r| ==> r[i] == events[i].(garbage := events[i].garbage || owned == Some(events[i].id))
  {
    seq(|events|, i requires 0 <= i < |events| => events[i].(garbage := events[i].garbage || owned == Some(events[i].id)))
  }

  function Ended(events: seq<E>, lifespan: nat): (r: seq<E>)
    ensures |r| == |events|
    ensures forall i :: 0 <= i < |r| ==> r[i] == events[i].(garbage := events[i].garbage || events[i].lifespan == lifespan)
  {
    seq(|events|, i requires 0 <= i < |events| => events[i].(garbage := events[i].garbage || events[i].lifespan == lifespan))
  }

  function Apply(w: World, f: Effect): World {
    match f
    case CreateTimeout(lifespan, due) => Create(w, INVALID_SOCKET, true, due, 0, lifespan)
    case CreateFd(lifespan, fd) => Create(w, fd, false, 0, 0, lifespan)
    case CreateFdTimeout(lifespan, fd, grace, due) => Create(w, fd, true, due, grace, lifespan)
    case Kill(i) => if i < |w.events| then Put(w, i, w.events[i].(garbage := true)) else w
    case Arm(i, due) => if i < |w.events| then Put(w, i, w.events[i].(armed := true, due := due)) else w
    case Disarm(i) => if i < |w.events| then Put(w, i, w.events[i].(armed := false)) else w
    case SetFd(i, fd) => if i < |w.events| then Put(w, i, w.events[i].(fd := fd)) else w
    case EndOfLifespan(lifespan) => w.(events := Ended(w.events, lifespan))
    case _ => ApplyToRefs(w, f)
  }

  /** What a reference owned becomes garbage. */
  function Let(w: World, k: nat, refs: seq<Option<nat>>): World
    requires k < |w.refs|
  {
    w.(events := Marked(w.events, w.refs[k]), refs := refs)
  }

  /** References take only events that nothing owns. */
  function ApplyToRefs(w: World, f: Effect): World {
    match f
    case NewEmptyRef => w.(refs := w.refs + [None])
    case NewRef(i) =>
      if i < |w.events| && Unowned(w, w.events[i].id) then w.(refs := w.refs + [Some(w.events[i].id)]) else w
    case MoveRef(k) => if k < |w.refs| then w.(refs := w.refs[k := None] + [w.refs[k]]) else w
    case AssignRef(k, i) =>
      if k < |w.refs| && i < |w.events| && Unowned(w, w.events[i].id) then
        Let(w, k, w.refs[k := Some(w.events[i].id)])
      else w
    case MoveAssignRef(k, o) =>
      if k < |w.refs| && o < |w.refs| && w.refs[o] != w.refs[k] then
        Let(w, k, w.refs[k := w.refs[o]][o := None])
      else w
    case ReleaseRef(k) =>
      if k < |w.refs| then Let(w, k, w.refs[k := None]) else w
    case DestroyRef(k) =>
      if k < |w.refs| then Let(w, k, w.refs[..k] + w.refs[k + 1..]) else w
    case _ => w
  }

  function ApplyAll(w: World, fs: seq<Effect>): World {
    if fs == [] then w else Apply(ApplyAll(w, fs[..|fs| - 1]), fs[|fs| - 1])
  }

  // ---- a round ----

  /** A ready descriptor comes before a due timer; garbage does not run. */
  function Decide(e: E, ready: int -> bool, now: int): Outcome {
    if e.garbage then Idle
    else if ready(e.fd) then Action
    else if e.armed && now >= e.due then Timeout
    else Idle
  }

  /** Before its callback, a ready descriptor puts the timer off by the grace delay, and a timer that fires is
      disarmed. */
  function Fired(e: E, outcome: Outcome, now: int): E {
    match outcome
    case Action => e.(due := now + e.grace)
    case Timeout => e.(armed := false, due := now)
    case Idle => e
  }

  function Visit(w: World, i: nat, ready: int -> bool, now: int, effects: seq<Effect>): World
    requires i < |w.events|
  {
    var outcome := Decide(w.events[i], ready, now);
    if outcome == Idle then w else ApplyAll(Started(w, i, outcome, now), effects)
  }

  /** A callback begins. */
  function Started(w: World, i: nat, outcome: Outcome, now: int): World
    requires i < |w.events|
  {
    w.(events := w.events[i := Fired(w.events[i], outcome, now)], log := w.log + [Executed(w.events[i].id, outcome)])
  }

  lemma {:induction false} ApplyAllGrows(w: World, fs: seq<Effect>)
    ensures |ApplyAll(w, fs).events| >= |w.events| && ApplyAll(w, fs).next >= w.next
    ensures forall i :: 0 <= i < |w.events| ==> Heir(w.events[i], ApplyAll(w, fs).events[i])
    decreases |fs|
  {
    if fs != [] {
      ApplyAllGrows(w, fs[..|fs| - 1]);
      ApplyGrows(ApplyAll(w, fs[..|fs| - 1]), fs[|fs| - 1]);
    }
  }

  /** What never changes of an event, and that garbage stays garbage. */
  predicate Heir(e: E, e': E) {
    e'.id == e.id && e'.grace == e.grace && e'.lifespan == e.lifespan && (e.garbage ==> e'.garbage)
  }

  lemma ApplyGrows(w: World, f: Effect)
    ensures |Apply(w, f).events| >= |w.events| && Apply(w, f).next >= w.next
    ensures forall i :: 0 <= i < |w.events| ==> Heir(w.events[i], Apply(w, f).events[i])
  {
  }

  lemma VisitGrows(w: World, i: nat, ready: int -> bool, now: int, effects: seq<Effect>)
    requires i < |w.events|
    ensures var w' := Visit(w, i, ready, now, effects);
            && |w'.events| >= |w.events| && w'.next >= w.next
            && forall j :: 0 <= j < |w.events| ==> Heir(w.events[j], w'.events[j])
  {
    var outcome := Decide(w.events[i], ready, now);
    if outcome != Idle {
      ApplyAllGrows(Started(w, i, outcome, now), effects);
    }
  }

  /** The first events of the queue, one after the other; the others are still to come. */
  function Visited(w: World, n: nat, ready: int -> bool, now: int, scripts: nat -> seq<Effect>): (w': World)
    requires n <= |w.events|
    ensures |w'.events| >= |w.events|
  {
    if n == 0 then w
    else
      var before := Visited(w, n - 1, ready, now, scripts);
      VisitGrows(before, n - 1, ready, now, scripts(n - 1));
      Visit(before, n - 1, ready, now, scripts(n - 1))
  }

  /** What the first n do, each as it is at its turn. */
  function Outcomes(w: World, n: nat, ready: int -> bool, now: int, scripts: nat -> seq<Effect>): (r: seq<Outcome>)
    requires n <= |w.events|
    ensures |r| == n
  {
    if n == 0 then []
    else
      Outcomes(w, n - 1, ready, now, scripts) + [Decide(Visited(w, n - 1, ready, now, scripts).events[n - 1], ready, now)]
  }

  /** Whether one of them was garbage when it had had its turn. */
  predicate GarbageSeen(w: World, n: nat, ready: int -> bool, now: int, scripts: nat -> seq<Effect>)
    requires n <= |w.events|
  {
    n > 0 && (GarbageSeen(w, n - 1, ready, now, scripts) || Visited(w, n, ready, now, scripts).events[n - 1].garbage)
  }

  // ---- freeing ----

  function SwapRemove<T>(q: seq<T>, i: nat): (r: seq<T>)
    requires i < |q|
    ensures |r| == |q| - 1
  {
    q[i := q[|q| - 1]][..|q| - 1]
  }

  /** The last event takes the place of the freed one, and no reference owns that any more. */
  function Delete(w: World, i: nat): (r: World)
    requires i < |w.events|
    ensures r.next == w.next && r.log == w.log && |r.refs| == |w.refs|
    ensures forall k :: 0 <= k < |r.refs| ==> r.refs[k] == if w.refs[k] == Some(w.events[i].id) then None else w.refs[k]
  {
    w.(events := SwapRemove(w.events, i),
       refs := seq(|w.refs|, k requires 0 <= k < |w.refs| => if w.refs[k] == Some(w.events[i].id) then None else w.refs[k]))
  }

  /** Frees the garbage from position i on. */
  function Freed(w: World, i: nat): World
    decreases |w.events| - i
  {
    if i >= |w.events| then w
    else if w.events[i].garbage then Freed(Delete(w, i), i)
    else Freed(w, i + 1)
  }

  predicate Dead(events: seq<E>, id: nat) { exists i :: 0 <= i < |events| && events[i].id == id && events[i].garbage }

  /** execute_events: one round, and what was garbage is freed if any was seen. */
  function Execute(w: World, ready: int -> bool, now: int, scripts: nat -> seq<Effect>): World {
    var r := Visited(w, |w.events|, ready, now, scripts);
    if GarbageSeen(w, |w.events|, ready, now, scripts) then Freed(r, 0) else r
  }

  // ---- what every step keeps ----

  lemma KnownStill(events: seq<E>, more: seq<E>)
    requires |more| >= |events| && forall i :: 0 <= i < |events| ==> more[i].id == events[i].id
    ensures forall id :: Known(events, id) ==> Known(more, id)
  {
    forall id | Known(events, id) ensures Known(more, id) {
      var i :| 0 <= i < |events| && events[i].id == id;
      assert more[i].id == id;
    }
  }

  lemma ApplyKeepsValid(w: World, f: Effect)
    requires Valid(w)
    ensures Valid(Apply(w, f))
  {
    ApplyGrows(w, f);
    KnownStill(w.events, Apply(w, f).events);
    match f
    case CreateTimeout(lifespan, due) => CreateKeepsValid(w, INVALID_SOCKET, true, due, 0, lifespan);
    case CreateFd(lifespan, fd) => CreateKeepsValid(w, fd, false, 0, 0, lifespan);
    case CreateFdTimeout(lifespan, fd, grace, due) => CreateKeepsValid(w, fd, true, due, grace, lifespan);
    case NewRef(i) => NewRefKeepsValid(w, i);
    case MoveRef(k) => MoveKeepsValid(w, k);
    case AssignRef(k, i) => AssignKeepsValid(w, k, i);
    case MoveAssignRef(k, o) => MoveAssignKeepsValid(w, k, o);
    case ReleaseRef(k) => ReleaseKeepsValid(w, k);
    case DestroyRef(k) => DestroyKeepsValid(w, k);
    case NewEmptyRef =>
    case _ => ChangeKeepsValid(w, f);
  }

  lemma CreateKeepsValid(w: World, fd: int, armed: bool, due: int, grace: int, lifespan: nat)
    requires Valid(w)
    ensures Valid(Create(w, fd, armed, due, grace, lifespan))
  {
    KnownStill(w.events, Create(w, fd, armed, due, grace, lifespan).events);
  }

  lemma ChangeKeepsValid(w: World, f: Effect)
    requires Valid(w) && (f.Kill? || f.Arm? || f.Disarm? || f.SetFd? || f.EndOfLifespan?)
    ensures Valid(Apply(w, f))
  {
    KnownStill(w.events, Apply(w, f).events);
  }

  lemma NewRefKeepsValid(w: World, i: nat)
    requires Valid(w)
    ensures Valid(Apply(w, NewRef(i)))
  {
    if i < |w.events| {
      assert Known(w.events, w.events[i].id);
    }
  }

  lemma AssignKeepsValid(w: World, k: nat, i: nat)
    requires Valid(w) && (forall id :: Known(w.events, id) ==> Known(Apply(w, AssignRef(k, i)).events, id))
    ensures Valid(Apply(w, AssignRef(k, i)))
  {
    if i < |w.events| {
      assert Known(w.events, w.events[i].id);
    }
  }

  lemma MoveKeepsValid(w: World, k: nat)
    requires Valid(w)
    ensures Valid(Apply(w, MoveRef(k)))
  {
  }

  lemma MoveAssignKeepsValid(w: World, k: nat, o: nat)
    requires Valid(w) && (forall id :: Known(w.events, id) ==> Known(Apply(w, MoveAssignRef(k, o)).events, id))
    ensures Valid(Apply(w, MoveAssignRef(k, o)))
  {
  }

  lemma ReleaseKeepsValid(w: World, k: nat)
    requires Valid(w) && (forall id :: Known(w.events, id) ==> Known(Apply(w, ReleaseRef(k)).events, id))
    ensures Valid(Apply(w, ReleaseRef(k)))
  {
  }

  lemma DestroyKeepsValid(w: World, k: nat)
    requires Valid(w) && (forall id :: Known(w.events, id) ==> Known(Apply(w, DestroyRef(k)).events, id))
    ensures Valid(Apply(w, DestroyRef(k)))
  {
    if k < |w.refs| {
      var r := w.refs[..k] + w.refs[k + 1..];
      assert forall l :: 0 <= l < |r| ==> r[l] == w.refs[if l < k then l else l + 1];
    }
  }

  lemma {:induction false} ApplyAllKeepsValid(w: World, fs: seq<Effect>)
    requires Valid(w)
    ensures Valid(ApplyAll(w, fs))
    decreases |fs|
  {
    if fs != [] {
      ApplyAllKeepsValid(w, fs[..|fs| - 1]);
      ApplyKeepsValid(ApplyAll(w, fs[..|fs| - 1]), fs[|fs| - 1]);
    }
  }

  lemma VisitKeepsValid(w: World, i: nat, ready: int -> bool, now: int, effects: seq<Effect>)
    requires Valid(w) && i < |w.events|
    ensures Valid(Visit(w, i, ready, now, effects))
  {
    var outcome := Decide(w.events[i], ready, now);
    KnownStill(w.events, Started(w, i, outcome, now).events);
    ApplyAllKeepsValid(Started(w, i, outcome, now), effects);
  }

  lemma VisitedNext(w: World, n: nat, ready: int -> bool, now: int, scripts: nat -> seq<Effect>)
    requires 0 < n <= |w.events|
    ensures Visited(w, n, ready, now, scripts)
            == Visit(Visited(w, n - 1, ready, now, scripts), n - 1, ready, now, scripts(n - 1))
  {
  }

  lemma {:induction false} VisitedKeepsValid(w: World, n: nat, ready: int -> bool, now: int, scripts: nat -> seq<Effect>)
    requires Valid(w) && n <= |w.events|
    ensures Valid(Visited(w, n, ready, now, scripts))
    decreases n
  {
    if n > 0 {
      var before := Visited(w, n - 1, ready, now, scripts);
      VisitedKeepsValid(w, n - 1, ready, now, scripts);
      VisitKeepsValid(before, n - 1, ready, now, scripts(n - 1));
      VisitedNext(w, n, ready, now, scripts);
    }
  }

  // ---- garbage is seen ----

  lemma {:induction false} VisitedGrows(w: World, n: nat, ready: int -> bool, now: int, scripts: nat -> seq<Effect>)
    requires n <= |w.events|
    ensures forall j :: 0 <= j < |w.events| ==> Heir(w.events[j], Visited(w, n, ready, now, scripts).events[j])
    decreases n
  {
    if n > 0 {
      VisitedGrows(w, n - 1, ready, now, scripts);
      VisitGrows(Visited(w, n - 1, ready, now, scripts), n - 1, ready, now, scripts(n - 1));
    }
  }

  /** What was garbage at the start is seen in the round. */
  lemma {:induction false} StartIsSeen(w: World, n: nat, ready: int -> bool, now: int, scripts: nat -> seq<Effect>, i: nat)
    requires i < n <= |w.events| && w.events[i].garbage
    ensures GarbageSeen(w, n, ready, now, scripts)
    decreases n
  {
    if i < n - 1 {
      StartIsSeen(w, n - 1, ready, now, scripts, i);
    } else {
      VisitedGrows(w, n, ready, now, scripts);
    }
  }

  // ---- the callbacks of a round ----

  function Ran(events: seq<E>, outcomes: seq<Outcome>): seq<Executed>
    requires |outcomes| <= |events|
    decreases |outcomes|
  {
    if outcomes == [] then []
    else
      var n := |outcomes| - 1;
      Ran(events, outcomes[..n]) + if outcomes[n] == Idle then [] else [Executed(events[n].id, outcomes[n])]
  }

  predicate RunOnce(ran: seq<Executed>) {
    forall i, j :: 0 <= i < j < |ran| ==> ran[i].id != ran[j].id
  }

  lemma {:induction false} RanOnce(events: seq<E>, outcomes: seq<Outcome>)
    requires |outcomes| <= |events| && DistinctIds(events)
    ensures var ran := Ran(events, outcomes);
            RunOnce(ran) && forall i :: 0 <= i < |ran| ==> exists k :: 0 <= k < |outcomes| && events[k].id == ran[i].id
    decreases |outcomes|
  {
    if outcomes != [] {
      RanOnce(events, outcomes[..|outcomes| - 1]);
    }
  }

  lemma {:induction false} EffectsKeepLog(w: World, fs: seq<Effect>)
    ensures ApplyAll(w, fs).log == w.log
    decreases |fs|
  {
    if fs != [] {
      EffectsKeepLog(w, fs[..|fs| - 1]);
    }
  }

  lemma LogOfVisit(w: World, i: nat, ready: int -> bool, now: int, effects: seq<Effect>)
    requires i < |w.events|
    ensures var outcome := Decide(w.events[i], ready, now);
            Visit(w, i, ready, now, effects).log
            == w.log + if outcome == Idle then [] else [Executed(w.events[i].id, outcome)]
  {
    EffectsKeepLog(Started(w, i, Decide(w.events[i], ready, now), now), effects);
  }

  lemma RanNext(events: seq<E>, outcomes: seq<Outcome>, outcome: Outcome)
    requires |outcomes| < |events|
    ensures Ran(events, outcomes + [outcome])
            == Ran(events, outcomes) + if outcome == Idle then [] else [Executed(events[|outcomes|].id, outcome)]
  {
    assert (outcomes + [outcome])[..|outcomes|] == outcomes;
  }

  lemma LogNext(log: seq<Executed>, before: World, after: World, events: seq<E>, outcomes: seq<Outcome>, outcome: Outcome)
    requires |outcomes| < |events| && before.log == log + Ran(events, outcomes)
    requires after.log == before.log + if outcome == Idle then [] else [Executed(events[|outcomes|].id, outcome)]
    ensures after.log == log + Ran(events, outcomes + [outcome])
  {
    RanNext(events, outcomes, outcome);
  }

  /** A round runs the callbacks that the outcomes say, in the order of the queue. */
  lemma {:induction false} LogOfRound(w: World, n: nat, ready: int -> bool, now: int, scripts: nat -> seq<Effect>)
    requires n <= |w.events|
    ensures Visited(w, n, ready, now, scripts).log == w.log + Ran(w.events, Outcomes(w, n, ready, now, scripts))
    decreases n
  {
    if n > 0 {
      LogOfRound(w, n - 1, ready, now, scripts);
      VisitedGrows(w, n - 1, ready, now, scripts);
      var before := Visited(w, n - 1, ready, now, scripts);
      LogOfVisit(before, n - 1, ready, now, scripts(n - 1));
      LogNext(w.log, before, Visited(w, n, ready, now, scripts), w.events, Outcomes(w, n - 1, ready, now, scripts),
              Decide(before.events[n - 1], ready, now));
    }
  }

  // ---- freeing ----

  predicate DistinctIds(events: seq<E>) { forall i, j :: 0 <= i < j < |events| ==> events[i].id != events[j].id }

  lemma SwapRemoveIds(events: seq<E>, i: nat)
    requires DistinctIds(events) && i < |events|
    ensures var r := SwapRemove(events, i);
            && DistinctIds(r)
            && (forall id :: Known(r, id) <==> Known(events, id) && id != events[i].id)
            && (forall id :: Dead(r, id) <==> Dead(events, id) && id != events[i].id)
  {
    var (r, n) := (SwapRemove(events, i), |events| - 1);
    forall id ensures Known(r, id) <==> Known(events, id) && id != events[i].id {
      if Known(events, id) && id != events[i].id {
        var k :| 0 <= k < |events| && events[k].id == id;
        assert r[if k == n then i else k].id == id;
      }
    }
    forall id ensures Dead(r, id) <==> Dead(events, id) && id != events[i].id {
      if Dead(events, id) && id != events[i].id {
        var k :| 0 <= k < |events| && events[k].id == id && events[k].garbage;
        assert r[if k == n then i else k].id == id;
      }
    }
  }

  lemma FreedNext(w: World, i: nat)
    requires i < |w.events| ==> !w.events[i].garbage
    ensures Freed(w, i) == Freed(w, i + 1)
  {
  }

  lemma DeleteKeepsValid(w: World, i: nat)
    requires Valid(w) && i < |w.events|
    ensures Valid(Delete(w, i))
  {
    SwapRemoveIds(w.events, i);
    var r := Delete(w, i);
    forall k | 0 <= k < |r.events| ensures r.events[k].id < r.next {
      assert r.events[k] in w.events;
    }
  }

  /** Freeing garbage changes nothing for the rest. */
  lemma DeleteKeepsRest(w: World, i: nat)
    requires Valid(w) && i < |w.events| && w.events[i].garbage
    ensures var d := Delete(w, i);
            && (forall e | e in d.events :: e in w.events) && (forall e | e in w.events && !e.garbage :: e in d.events)
            && (forall k :: 0 <= k < |w.refs| ==> Cleared(d.events, d.refs[k]) == Cleared(w.events, w.refs[k]))
  {
    var d := Delete(w, i);
    SwapRemoveIds(w.events, i);
    StillThere(w.events, i);
    forall k | 0 <= k < |w.refs| ensures Cleared(d.events, d.refs[k]) == Cleared(w.events, w.refs[k]) {
      assert Dead(w.events, w.events[i].id);
    }
  }

  /** What is left is what was not garbage, and references to that stay as they were. */
  lemma {:induction false} FreedFrom(w: World, i: nat)
    requires Valid(w) && forall k :: 0 <= k < i && k < |w.events| ==> !w.events[k].garbage
    ensures var r := Freed(w, i);
            && Valid(r) && r.next == w.next && r.log == w.log && |r.refs| == |w.refs|
            && (forall k :: 0 <= k < |r.events| ==> !r.events[k].garbage && r.events[k] in w.events)
            && (forall e | e in w.events && !e.garbage :: e in r.events)
            && (forall k :: 0 <= k < |r.refs| ==> r.refs[k] == Cleared(w.events, w.refs[k]))
    decreases |w.events| - i
  {
    if i < |w.events| {
      if w.events[i].garbage {
        DeleteKeepsValid(w, i);
        FreedFrom(Delete(w, i), i);
        DeleteKeepsRest(w, i);
      } else {
        FreedFrom(w, i + 1);
      }
    } else {
      forall e | e in w.events ensures !e.garbage {
      }
    }
  }

  function Cleared(events: seq<E>, owned: Option<nat>): Option<nat> {
    if owned.Some? && Dead(events, owned.value) then None else owned
  }

  lemma StillThere<T>(q: seq<T>, i: nat)
    requires i < |q|
    ensures forall e | e in q && e != q[i] :: e in SwapRemove(q, i)
    ensures forall e | e in SwapRemove(q, i) :: e in q
  {
    var (r, n) := (SwapRemove(q, i), |q| - 1);
    forall e | e in q && e != q[i] ensures e in r {
      var k :| 0 <= k < |q| && q[k] == e;
      assert r[if k == n then i else k] == e;
    }
  }
}
