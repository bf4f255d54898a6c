/** What the event queue promises: what a visit does to an event, what each effect means, and how long a timer
    waits after its descriptor was ready. */
module EventRules {
  import opened Bytes
  import opened EventWorld

  // ---- one visit ----

  /** A live event whose descriptor is ready: its timer is put off by the grace delay and stays armed or not, nothing
      else changes, and the callback works on that. */
  lemma ReadyPostpones(w: World, i: nat, ready: int -> bool, now: int, effects: seq<Effect>)
    requires i < |w.events| && !w.events[i].garbage && ready(w.events[i].fd)
    ensures var e := w.events[i];
            var r := Visit(w, i, ready, now, []);
            && r.events[i] == E(e.id, e.fd, false, e.armed, now + e.grace, e.grace, e.lifespan)
            && |r.events| == |w.events| && (forall j :: 0 <= j < |w.events| && j != i ==> r.events[j] == w.events[j])
            && r.refs == w.refs && r.next == w.next && r.log == w.log + [Executed(e.id, Action)]
            && Visit(w, i, ready, now, effects) == ApplyAll(r, effects)
  {
  }

  /** A live event whose descriptor is not ready and whose timer is due: the timer is disarmed. */
  lemma DueFires(w: World, i: nat, ready: int -> bool, now: int, effects: seq<Effect>)
    requires i < |w.events| && !w.events[i].garbage && !ready(w.events[i].fd)
    requires w.events[i].armed && w.events[i].due <= now
    ensures var e := w.events[i];
            var r := Visit(w, i, ready, now, []);
            && r.events[i] == E(e.id, e.fd, false, false, now, e.grace, e.lifespan)
            && |r.events| == |w.events| && (forall j :: 0 <= j < |w.events| && j != i ==> r.events[j] == w.events[j])
            && r.refs == w.refs && r.next == w.next && r.log == w.log + [Executed(e.id, Timeout)]
            && Visit(w, i, ready, now, effects) == ApplyAll(r, effects)
  {
  }

  /** Any other visit changes nothing. */
  lemma OthersRest(w: World, i: nat, ready: int -> bool, now: int, effects: seq<Effect>)
    requires i < |w.events|
    requires w.events[i].garbage || (!ready(w.events[i].fd) && (!w.events[i].armed || now < w.events[i].due))
    ensures Visit(w, i, ready, now, effects) == w
  {
  }

  // ---- effects ----

  /** The events that callbacks create. */
  lemma Created(w: World, lifespan: nat, fd: int, grace: int, due: int)
    ensures Apply(w, CreateTimeout(lifespan, due)) == w.(events := w.events + [E(w.next, -1, false, true, due, 0, lifespan)], next := w.next + 1)
    ensures Apply(w, CreateFd(lifespan, fd)) == w.(events := w.events + [E(w.next, fd, false, false, 0, 0, lifespan)], next := w.next + 1)
    ensures Apply(w, CreateFdTimeout(lifespan, fd, grace, due))
            == w.(events := w.events + [E(w.next, fd, false, true, due, grace, lifespan)], next := w.next + 1)
  {
  }

  /** What callbacks do to one event, and to no other. */
  lemma Changed(w: World, i: nat, due: int, fd: int)
    requires i < |w.events|
    ensures var e := w.events[i];
            && Apply(w, Kill(i)) == w.(events := w.events[i := E(e.id, e.fd, true, e.armed, e.due, e.grace, e.lifespan)])
            && Apply(w, Arm(i, due)) == w.(events := w.events[i := E(e.id, e.fd, e.garbage, true, due, e.grace, e.lifespan)])
            && Apply(w, Disarm(i)) == w.(events := w.events[i := E(e.id, e.fd, e.garbage, false, e.due, e.grace, e.lifespan)])
            && Apply(w, SetFd(i, fd)) == w.(events := w.events[i := E(e.id, fd, e.garbage, e.armed, e.due, e.grace, e.lifespan)])
  {
  }

  /** Garbage after an effect: what was, what is killed, what has the lifespan that ends, and what a reference lets go. */
  lemma MadeGarbage(w: World, f: Effect, i: nat)
    requires Valid(w) && i < |w.events|
    ensures Apply(w, f).events[i].garbage <==>
              || w.events[i].garbage || f == Kill(i) || f == EndOfLifespan(w.events[i].lifespan)
              || (f.ReleaseRef? && Holds(w, f.ref, i)) || (f.DestroyRef? && Holds(w, f.ref, i))
              || (f.AssignRef? && Holds(w, f.ref, i) && f.event < |w.events| && Unowned(w, w.events[f.event].id))
              || (f.MoveAssignRef? && Holds(w, f.ref, i) && f.other < |w.refs| && f.other != f.ref)
  {
    ApplyGrows(w, f);
  }

  predicate Holds(w: World, k: nat, i: nat)
    requires i < |w.events|
  {
    k < |w.refs| && w.refs[k] == Some(w.events[i].id)
  }

  /** Garbage never runs again, whatever is done. */
  lemma GarbageRests(w: World, i: nat, fs: seq<Effect>, ready: int -> bool, now: int, effects: seq<Effect>)
    requires i < |w.events| && w.events[i].garbage
    ensures |ApplyAll(w, fs).events| > i && Visit(ApplyAll(w, fs), i, ready, now, effects) == ApplyAll(w, fs)
  {
    ApplyAllGrows(w, fs);
  }

  // ---- one round ----

  /** A round runs at most one callback for each event that it finds, in their order, and none for one created
      meanwhile. */
  lemma RoundRuns(w: World, ready: int -> bool, now: int, scripts: nat -> seq<Effect>)
    requires Valid(w)
    ensures var ran := Ran(w.events, Outcomes(w, |w.events|, ready, now, scripts));
            && Execute(w, ready, now, scripts).log == w.log + ran
            && RunOnce(ran) && forall k :: 0 <= k < |ran| ==> Known(w.events, ran[k].id) && ran[k].outcome != Idle
  {
    LogOfRound(w, |w.events|, ready, now, scripts);
    RanOnce(w.events, Outcomes(w, |w.events|, ready, now, scripts));
    RanNoIdle(w.events, Outcomes(w, |w.events|, ready, now, scripts));
    VisitedKeepsValid(w, |w.events|, ready, now, scripts);
    FreedFrom(Visited(w, |w.events|, ready, now, scripts), 0);
  }

  lemma {:induction false} RanNoIdle(events: seq<E>, outcomes: seq<Outcome>)
    requires |outcomes| <= |events|
    ensures var ran := Ran(events, outcomes);
            forall k :: 0 <= k < |ran| ==> ran[k].outcome != Idle
    decreases |outcomes|
  {
    if outcomes != [] {
      var n := |outcomes| - 1;
      RanNoIdle(events, outcomes[..n]);
      assert outcomes == outcomes[..n] + [outcomes[n]];
      RanNext(events, outcomes[..n], outcomes[n]);
    }
  }

  /** Garbage that a round finds is freed by it, and nothing refers to it any more. */
  lemma GarbageIsFreed(w: World, i: nat, ready: int -> bool, now: int, scripts: nat -> seq<Effect>)
    requires Valid(w) && i < |w.events| && w.events[i].garbage
    ensures var r := Execute(w, ready, now, scripts);
            && !Known(r.events, w.events[i].id) && (forall k :: 0 <= k < |r.refs| ==> r.refs[k] != Some(w.events[i].id))
            && forall k :: 0 <= k < |r.events| ==> !r.events[k].garbage
  {
    var v := Visited(w, |w.events|, ready, now, scripts);
    StartIsSeen(w, |w.events|, ready, now, scripts, i);
    VisitedGrows(w, |w.events|, ready, now, scripts);
    VisitedKeepsValid(w, |w.events|, ready, now, scripts);
    FreedGone(v, i);
  }

  lemma FreedGone(w: World, i: nat)
    requires Valid(w) && i < |w.events| && w.events[i].garbage
    ensures var r := Freed(w, 0);
            && !Known(r.events, w.events[i].id) && (forall k :: 0 <= k < |r.refs| ==> r.refs[k] != Some(w.events[i].id))
            && forall k :: 0 <= k < |r.events| ==> !r.events[k].garbage
  {
    FreedFrom(w, 0);
    var r := Freed(w, 0);
    forall k | 0 <= k < |r.events| ensures r.events[k].id != w.events[i].id {
      var j :| 0 <= j < |w.events| && w.events[j] == r.events[k];
    }
  }

  /** Nothing happens while no descriptor of a live event is ready and no timer of one is due. */
  lemma {:induction false} NothingDue(w: World, n: nat, ready: int -> bool, now: int, scripts: nat -> seq<Effect>)
    requires n <= |w.events|
    requires forall i :: 0 <= i < |w.events| && !w.events[i].garbage ==>
               !ready(w.events[i].fd) && (w.events[i].armed ==> now < w.events[i].due)
    ensures Visited(w, n, ready, now, scripts) == w
    decreases n
  {
    if n > 0 {
      NothingDue(w, n - 1, ready, now, scripts);
    }
  }

  // ---- the grace delay ----

  /** Whether an effect arms the event with the number id again. */
  predicate Rearms(w: World, f: Effect, id: nat) {
    f.Arm? && f.event < |w.events| && w.events[f.event].id == id
  }

  predicate Quiet(w: World, fs: seq<Effect>, id: nat) {
    forall k :: 0 <= k < |fs| ==> !Rearms(ApplyAll(w, fs[..k]), fs[k], id)
  }

  /** The timer of the event, if it is armed, is not due before t, and no grace delay of it is shorter than g. */
  predicate Waits(w: World, id: nat, t: int, g: int) {
    && id < w.next
    && forall i :: 0 <= i < |w.events| && w.events[i].id == id ==> (w.events[i].armed ==> w.events[i].due >= t) && w.events[i].grace >= g
  }

  lemma {:induction false} EffectsWait(w: World, fs: seq<Effect>, id: nat, t: int, g: int)
    requires Waits(w, id, t, g) && Quiet(w, fs, id)
    ensures Waits(ApplyAll(w, fs), id, t, g)
    decreases |fs|
  {
    if fs != [] {
      var most := fs[..|fs| - 1];
      assert forall k :: 0 <= k < |most| ==> most[..k] == fs[..k];
      EffectsWait(w, most, id, t, g);
      EffectWaits(ApplyAll(w, most), fs[|fs| - 1], id, t, g);
    }
  }

  lemma EffectWaits(w: World, f: Effect, id: nat, t: int, g: int)
    requires Waits(w, id, t, g) && !Rearms(w, f, id)
    ensures Waits(Apply(w, f), id, t, g)
  {
  }

  /** Whether the callback of the event at position i, if it runs, leaves the timer of the event id alone. */
  predicate QuietVisit(w: World, i: nat, ready: int -> bool, now: int, effects: seq<Effect>, id: nat)
    requires i < |w.events|
  {
    var outcome := Decide(w.events[i], ready, now);
    outcome == Idle || Quiet(Started(w, i, outcome, now), effects, id)
  }

  /** Before t, the event does not time out, and keeps waiting. */
  lemma VisitWaits(w: World, i: nat, ready: int -> bool, now: int, effects: seq<Effect>, id: nat, t: int, g: int)
    requires Waits(w, id, t, g) && i < |w.events| && t - g <= now < t && QuietVisit(w, i, ready, now, effects, id)
    ensures Waits(Visit(w, i, ready, now, effects), id, t, g)
    ensures !(w.events[i].id == id && Decide(w.events[i], ready, now) == Timeout)
  {
    var outcome := Decide(w.events[i], ready, now);
    if outcome != Idle {
      assert Waits(Started(w, i, outcome, now), id, t, g);
      EffectsWait(Started(w, i, outcome, now), effects, id, t, g);
    }
  }

  /** No timeout of the event in what was run after the first m callbacks. */
  predicate NoTimeout(log: seq<Executed>, m: nat, id: nat) {
    forall k :: m <= k < |log| ==> log[k] != Executed(id, Timeout)
  }

  /** A round, as the caller gives it. */
  datatype Round = Round(ready: int -> bool, now: int, scripts: nat -> seq<Effect>)

  /** No callback of the visits from position m on arms the event again. */
  predicate QuietFrom(w: World, m: nat, r: Round, id: nat) {
    forall i :: m <= i < |w.events| ==> QuietVisit(Visited(w, i, r.ready, r.now, r.scripts), i, r.ready, r.now, r.scripts(i), id)
  }

  lemma {:induction false} VisitsWait(w: World, q: nat, m: nat, n: nat, r: Round, id: nat, t: int, g: int, from: nat)
    requires q <= m <= n <= |w.events| && t - g <= r.now < t && QuietFrom(w, q, r, id)
    requires Waits(Visited(w, m, r.ready, r.now, r.scripts), id, t, g)
    requires NoTimeout(Visited(w, m, r.ready, r.now, r.scripts).log, from, id)
    ensures Waits(Visited(w, n, r.ready, r.now, r.scripts), id, t, g)
    ensures NoTimeout(Visited(w, n, r.ready, r.now, r.scripts).log, from, id)
    decreases n - m
  {
    if m < n {
      VisitsWait(w, q, m, n - 1, r, id, t, g, from);
      var before := Visited(w, n - 1, r.ready, r.now, r.scripts);
      VisitWaits(before, n - 1, r.ready, r.now, r.scripts(n - 1), id, t, g);
      LogOfVisit(before, n - 1, r.ready, r.now, r.scripts(n - 1));
      VisitedNext(w, n, r.ready, r.now, r.scripts);
    }
  }

  lemma RoundWaits(w: World, r: Round, id: nat, t: int, g: int, from: nat)
    requires Valid(w)
    requires var v := Visited(w, |w.events|, r.ready, r.now, r.scripts); Waits(v, id, t, g) && NoTimeout(v.log, from, id)
    ensures var v := Run(w, r); Valid(v) && Waits(v, id, t, g) && NoTimeout(v.log, from, id)
  {
    VisitedKeepsValid(w, |w.events|, r.ready, r.now, r.scripts);
    FreedFrom(Visited(w, |w.events|, r.ready, r.now, r.scripts), 0);
  }

  function Run(w: World, r: Round): World { Execute(w, r.ready, r.now, r.scripts) }

  function RunAll(w: World, rs: seq<Round>): World
    decreases |rs|
  {
    if rs == [] then w else RunAll(Run(w, rs[0]), rs[1..])
  }

  predicate QuietRounds(w: World, rs: seq<Round>, id: nat)
    decreases |rs|
  {
    rs == [] || (QuietFrom(w, 0, rs[0], id) && QuietRounds(Run(w, rs[0]), rs[1..], id))
  }

  lemma {:induction false} RoundsWait(w: World, rs: seq<Round>, id: nat, t: int, g: int, from: nat)
    requires Valid(w) && Waits(w, id, t, g) && NoTimeout(w.log, from, id) && QuietRounds(w, rs, id)
    requires forall k :: 0 <= k < |rs| ==> t - g <= rs[k].now < t
    ensures Waits(RunAll(w, rs), id, t, g) && NoTimeout(RunAll(w, rs).log, from, id)
    decreases |rs|
  {
    if rs != [] {
      VisitsWait(w, 0, 0, |w.events|, rs[0], id, t, g, from);
      RoundWaits(w, rs[0], id, t, g, from);
      RoundsWait(Run(w, rs[0]), rs[1..], id, t, g, from);
    }
  }

  /** An event whose descriptor was ready, and that no callback arms again, does not time out until its grace delay is
      over, in whatever rounds: neither in the rest of this one nor in the following ones. */
  lemma GraceHolds(w: World, i: nat, r: Round, rs: seq<Round>, before: World, e: E)
    requires Valid(w) && i < |w.events| && before == Visited(w, i, r.ready, r.now, r.scripts) && e == before.events[i]
    requires !e.garbage && r.ready(e.fd) && e.grace > 0
    requires QuietFrom(w, i, r, e.id) && QuietRounds(Run(w, r), rs, e.id)
    requires forall k :: 0 <= k < |rs| ==> r.now <= rs[k].now < r.now + e.grace
    ensures NoTimeout(RunAll(Run(w, r), rs).log, |before.log|, e.id)
  {
    VisitedKeepsValid(w, i, r.ready, r.now, r.scripts);
    ActionWaits(before, i, r.ready, r.now, r.scripts(i));
    VisitedNext(w, i + 1, r.ready, r.now, r.scripts);
    RestWaits(w, i, r, rs, e.id, r.now + e.grace, e.grace, |before.log|);
  }

  /** The visit itself. */
  lemma ActionWaits(w: World, i: nat, ready: int -> bool, now: int, effects: seq<Effect>)
    requires Valid(w) && i < |w.events| && Decide(w.events[i], ready, now) == Action
    requires QuietVisit(w, i, ready, now, effects, w.events[i].id)
    ensures var (e, r) := (w.events[i], Visit(w, i, ready, now, effects));
            Waits(r, e.id, now + e.grace, e.grace) && NoTimeout(r.log, |w.log|, e.id)
  {
    var e := w.events[i];
    StartedWaits(w, i, now);
    EffectsWait(Started(w, i, Action, now), effects, e.id, now + e.grace, e.grace);
    LogOfVisit(w, i, ready, now, effects);
  }

  /** The rest of the round, and the following rounds. */
  lemma RestWaits(w: World, m: nat, r: Round, rs: seq<Round>, id: nat, t: int, g: int, from: nat)
    requires Valid(w) && m < |w.events| && QuietFrom(w, m, r, id) && QuietRounds(Run(w, r), rs, id)
    requires t - g <= r.now < t && forall k :: 0 <= k < |rs| ==> t - g <= rs[k].now < t
    requires var v := Visited(w, m + 1, r.ready, r.now, r.scripts); Waits(v, id, t, g) && NoTimeout(v.log, from, id)
    ensures NoTimeout(RunAll(Run(w, r), rs).log, from, id)
  {
    VisitsWait(w, m, m + 1, |w.events|, r, id, t, g, from);
    RoundWaits(w, r, id, t, g, from);
    RoundsWait(Run(w, r), rs, id, t, g, from);
  }

  lemma StartedWaits(w: World, i: nat, now: int)
    requires Valid(w) && i < |w.events|
    ensures var e := w.events[i]; Waits(Started(w, i, Action, now), e.id, now + e.grace, e.grace)
  {
  }
}
