/** What the frame of a video holds of the drawings. An image converts rows of the screen from the top
    down to some row, and the tracker, which says when an image is due and how far down it goes, is also
    emptied when a snapshot encodes the old frame again. */
module DrawingTracker {

  /** How many rows from the top something reaches. */
  type Rows = n: int | 0 < n witness 1

  /** The rows of a printed time. */
  const STAMP_ROWS: nat := 12

  function Min(a: int, b: int): int { if a < b then a else b }
  function Max(a: int, b: int): int { if a > b then a else b }

  /** The height of the screen, and whether the video shows only a part of it. */
  datatype Canvas = Canvas(height: Rows, cropped: bool)

  /** The lowest rows of the drawings so far, the lowest tracked row, how far down the previous image was
      asked to go, the drawings that the frame holds, and whether a frame marker was ever seen. A drawing
      is in the frame once an image made after it has covered its rows. */
  datatype Tracker = Tracker(bottoms: seq<Rows>, tracked: nat, previous: nat, held: set<nat>, marked: bool)

  function All(t: Tracker): set<nat> { set d: nat | d < |t.bottoms| && t.bottoms[d] > 0 }

  /** The whole screen counts as a first drawing. */
  function Initial(c: Canvas): Tracker { Tracker([c.height], c.height, c.height, {}, false) }

  /** What the recorder sees: a drawing, a frame marker with the decision of the first pass, or a periodic
      snapshot; whether the cursor has moved since the last image, whether a frame is due, whether a new
      second is to be printed, whether one is printed between frames, and the lowest row of the cursor. */
  datatype Seen =
    | Draw(bottom: Rows)
    | Marker(flag: bool, moved: bool, due: bool, traced: bool, stamped: bool, cursor: nat)
    | Snapshot(moved: bool, due: bool, traced: bool, stamped: bool, cursor: nat)

  // ---- images ----

  /** An image of the whole screen goes down to what is tracked, to the cursor, and as far as the one before
      it; one of a part is always made of all rows. */
  function Height(c: Canvas, t: Tracker, cursor: nat): nat {
    if c.cropped then c.height else Max(Max(t.tracked, cursor), t.previous)
  }

  function Covered(c: Canvas, t: Tracker, rows: nat): set<nat> {
    set d: nat | d < |t.bottoms| && Min(t.bottoms[d], c.height) <= rows
  }

  function Cover(c: Canvas, t: Tracker, rows: nat): Tracker { t.(held := t.held + Covered(c, t, rows)) }

  function Prepare(c: Canvas, t: Tracker, cursor: nat): Tracker {
    Cover(c, t, Height(c, t, cursor)).(previous := if c.cropped then t.previous else Max(t.tracked, cursor))
  }

  function Empty(t: Tracker): Tracker { t.(tracked := 0) }

  /** An image goes down to the lowest of what is tracked, the cursor and what the one before was asked for; so
      it also repaints where the cursor was in that one. */
  lemma HeightIsLowest(c: Canvas, t: Tracker, cursor: nat)
    ensures var h := Height(c, t, cursor);
            if c.cropped then h == c.height
            else h >= t.tracked && h >= cursor && h >= t.previous && (h == t.tracked || h == cursor || h == t.previous)
    ensures forall next: nat :: Height(c, Empty(Prepare(c, t, cursor)), next) >= Min(cursor, c.height)
    ensures forall next: nat :: !c.cropped ==> Height(c, Empty(Prepare(c, t, cursor)), next) == Max(Max(t.tracked, cursor), next)
  {
  }

  /** The twelve rows of a printed time are covered whatever the image was asked for. */
  lemma StampCovers(c: Canvas, t: Tracker, cursor: nat, d: nat)
    requires d < |t.bottoms| && t.bottoms[d] <= 12
    ensures d in Update(c, t, true, cursor).held
    ensures d in Update(c, t, false, cursor).held <==> d in t.held || Min(t.bottoms[d], c.height) <= Height(c, t, cursor)
  {
  }

  // ---- the recorder ----

  function DrawOne(t: Tracker, bottom: Rows): Tracker {
    t.(bottoms := t.bottoms + [bottom], tracked := Max(t.tracked, bottom))
  }

  predicate Redraws(t: Tracker, flag: bool, moved: bool) { (flag && t.tracked != 0) || moved }

  function Mark(c: Canvas, t: Tracker, flag: bool, moved: bool, cursor: nat): Tracker {
    (if Redraws(t, flag, moved) then Empty(Prepare(c, t, cursor)) else t).(marked := true)
  }

  /** Once there are markers, a snapshot does not look at the drawings. */
  predicate Updates(t: Tracker, moved: bool, traced: bool) { (!t.marked && t.tracked != 0) || moved || traced }

  function Update(c: Canvas, t: Tracker, stamped: bool, cursor: nat): Tracker {
    var t' := Prepare(c, t, cursor);
    if stamped then Cover(c, t', STAMP_ROWS) else t'
  }

  /** A due snapshot empties the tracker, whether it prepares an image or not. */
  function Snap(c: Canvas, t: Tracker, moved: bool, due: bool, traced: bool, stamped: bool, cursor: nat): Tracker {
    if !due then t
    else Empty(if Updates(t, moved, traced) then Update(c, t, stamped, cursor) else t)
  }

  function Step(c: Canvas, t: Tracker, e: Seen): Tracker {
    match e
    case Draw(bottom) => DrawOne(t, bottom)
    case Marker(flag, moved, due, traced, stamped, cursor) =>
      Snap(c, Mark(c, t, flag, moved, cursor), false, due, traced, stamped, cursor)
    case Snapshot(moved, due, traced, stamped, cursor) => Snap(c, t, moved, due, traced, stamped, cursor)
  }

  function Run(c: Canvas, seen: seq<Seen>): Tracker {
    if seen == [] then Initial(c) else Step(c, Run(c, seen[..|seen| - 1]), seen[|seen| - 1])
  }

  lemma RunOneMore(c: Canvas, seen: seq<Seen>, e: Seen)
    ensures Run(c, seen + [e]) == Step(c, Run(c, seen), e)
  {
    assert (seen + [e])[..|seen|] == seen;
  }

  // ---- when drawings are lost, and when they are found again ----

  /** A frame is due, something is tracked, and nothing makes the recorder prepare an image. */
  predicate Loses(t: Tracker, e: Seen) {
    match e
    case Draw(_) => false
    case Marker(flag, moved, due, traced, _, _) => due && t.tracked != 0 && !flag && !moved && !traced
    case Snapshot(moved, due, traced, _, _) => due && t.tracked != 0 && t.marked && !moved && !traced
  }

  /** How far down the images of a step go. */
  function Reach(c: Canvas, t: Tracker, e: Seen): nat {
    match e
    case Draw(_) => 0
    case Marker(flag, moved, due, traced, stamped, cursor) =>
      Max(if Redraws(t, flag, moved) then Height(c, t, cursor) else 0,
          SnapReach(c, Mark(c, t, flag, moved, cursor), false, due, traced, stamped, cursor))
    case Snapshot(moved, due, traced, stamped, cursor) => SnapReach(c, t, moved, due, traced, stamped, cursor)
  }

  function SnapReach(c: Canvas, t: Tracker, moved: bool, due: bool, traced: bool, stamped: bool, cursor: nat): nat {
    if due && Updates(t, moved, traced) then Max(Height(c, t, cursor), if stamped then STAMP_ROWS else 0) else 0
  }

  predicate LosesAt(c: Canvas, seen: seq<Seen>, k: nat)
    requires k < |seen|
  {
    Loses(Run(c, seen[..k]), seen[k])
  }

  /** What was lost at step k is covered by the images of step j. */
  predicate FoundAt(c: Canvas, seen: seq<Seen>, k: nat, j: nat)
    requires k < |seen| && j < |seen|
  {
    Min(Run(c, seen[..k]).tracked, c.height) <= Reach(c, Run(c, seen[..j]), seen[j])
  }

  /** Something was lost at step k, and no image since has gone down as far as it. */
  predicate Missing(c: Canvas, seen: seq<Seen>, k: nat) {
    k < |seen| && LosesAt(c, seen, k) && forall j :: k < j < |seen| ==> !FoundAt(c, seen, k, j)
  }

  predicate NothingMissing(c: Canvas, seen: seq<Seen>) { forall k: nat :: k < |seen| ==> !Missing(c, seen, k) }

  /** One step: the lowest tracked drawing leaves the tracker without getting into the frame exactly then. */
  lemma StepLoses(c: Canvas, t: Tracker, e: Seen, d: nat)
    requires t.tracked > 0 && Unseen(t, d, t.tracked)
    ensures Step(c, t, e).tracked == 0 && d !in Step(c, t, e).held <==> Loses(t, e)
  {
    assert forall cursor: nat :: d in Covered(c, t, Height(c, t, cursor));
    if e.Marker? && Redraws(t, e.flag, e.moved) {
      assert d in Mark(c, t, e.flag, e.moved, e.cursor).held;
    }
  }

  /** In a video of a part of the screen, any later image finds what was lost. */
  lemma FoundByAnyImage(c: Canvas, seen: seq<Seen>, k: nat, j: nat)
    requires c.cropped && k < |seen| && j < |seen| && LosesAt(c, seen, k)
    ensures FoundAt(c, seen, k, j) <==> Reach(c, Run(c, seen[..j]), seen[j]) > 0
  {
  }

  // ---- the lowest row that is missing ----

  function NextLow(c: Canvas, t: Tracker, e: Seen, low: nat): nat {
    if Loses(t, e) then Max(low, t.tracked)
    else if Min(low, c.height) <= Reach(c, t, e) then 0
    else low
  }

  /** The lowest row that was lost and not covered since, or zero. */
  function Low(c: Canvas, seen: seq<Seen>): nat {
    if seen == [] then 0
    else
      var front := seen[..|seen| - 1];
      NextLow(c, Run(c, front), seen[|seen| - 1], Low(c, front))
  }

  /** A drawing that the frame does not hold and that goes down to a row. */
  predicate Unseen(t: Tracker, d: nat, row: nat) { d < |t.bottoms| && d !in t.held && t.bottoms[d] == row }

  /** What the frame does not hold is tracked or was lost, and there are drawings down to the rows in question. */
  ghost predicate Inv(t: Tracker, low: nat) {
    && t.held <= All(t)
    && (forall d: nat :: d < |t.bottoms| && d !in t.held ==> t.bottoms[d] <= Max(t.tracked, low))
    && (t.tracked > 0 ==> exists d :: Unseen(t, d, t.tracked))
    && (low > 0 ==> exists d :: Unseen(t, d, low))
  }

  lemma DrawKeeps(t: Tracker, low: nat, bottom: Rows)
    requires Inv(t, low)
    ensures Inv(DrawOne(t, bottom), low)
  {
    var t' := DrawOne(t, bottom);
    assert forall d, row :: Unseen(t, d, row) ==> Unseen(t', d, row);
    assert |t.bottoms| !in t.held ==> Unseen(t', |t.bottoms|, bottom);
  }

  /** An image that goes down to all that is tracked. */
  lemma CoverKeeps(c: Canvas, t: Tracker, low: nat, rows: nat)
    requires Inv(t, low) && Min(t.tracked, c.height) <= rows
    ensures Inv(Empty(Cover(c, t, rows)), if Min(low, c.height) <= rows then 0 else low)
  {
    var t' := Cover(c, t, rows);
    if Min(low, c.height) > rows {
      var d :| Unseen(t, d, low);
      assert Unseen(Empty(t'), d, low);
    }
  }

  lemma PrepareKeeps(c: Canvas, t: Tracker, low: nat, cursor: nat)
    requires Inv(t, low)
    ensures Inv(Empty(Prepare(c, t, cursor)), if Min(low, c.height) <= Height(c, t, cursor) then 0 else low)
  {
    var (p, q) := (Empty(Prepare(c, t, cursor)), Empty(Cover(c, t, Height(c, t, cursor))));
    CoverKeeps(c, t, low, Height(c, t, cursor));
    SameDrawings(p, q, if Min(low, c.height) <= Height(c, t, cursor) then 0 else low);
  }

  /** How far down the previous image went, and the markers, do not matter here. */
  lemma SameDrawings(t: Tracker, u: Tracker, low: nat)
    requires Inv(u, low) && t.bottoms == u.bottoms && t.tracked == u.tracked && t.held == u.held
    ensures Inv(t, low)
  {
    assert forall d, row :: Unseen(u, d, row) ==> Unseen(t, d, row);
  }

  lemma UpdateKeeps(c: Canvas, t: Tracker, low: nat, stamped: bool, cursor: nat)
    requires Inv(t, low)
    ensures var reach := Max(Height(c, t, cursor), if stamped then STAMP_ROWS else 0);
            Inv(Empty(Update(c, t, stamped, cursor)), if Min(low, c.height) <= reach then 0 else low)
  {
    PrepareKeeps(c, t, low, cursor);
    if stamped {
      var p := Empty(Prepare(c, t, cursor));
      CoverKeeps(c, p, if Min(low, c.height) <= Height(c, t, cursor) then 0 else low, STAMP_ROWS);
      assert Empty(Cover(c, p, STAMP_ROWS)) == Empty(Update(c, t, stamped, cursor));
    }
  }

  lemma LoseKeeps(t: Tracker, low: nat)
    requires Inv(t, low)
    ensures Inv(Empty(t), Max(low, t.tracked))
  {
    assert forall d, row :: Unseen(t, d, row) ==> Unseen(Empty(t), d, row);
  }

  lemma SnapKeeps(c: Canvas, t: Tracker, low: nat, e: Seen)
    requires Inv(t, low) && e.Snapshot?
    ensures Inv(Step(c, t, e), NextLow(c, t, e, low))
  {
    if e.due {
      if Updates(t, e.moved, e.traced) {
        UpdateKeeps(c, t, low, e.stamped, e.cursor);
      } else {
        LoseKeeps(t, low);
      }
    }
  }

  lemma MarkKeeps(c: Canvas, t: Tracker, low: nat, flag: bool, moved: bool, cursor: nat)
    requires Inv(t, low)
    ensures Inv(Mark(c, t, flag, moved, cursor),
                if Redraws(t, flag, moved) && Min(low, c.height) <= Height(c, t, cursor) then 0 else low)
  {
    var t' := Mark(c, t, flag, moved, cursor);
    if Redraws(t, flag, moved) {
      PrepareKeeps(c, t, low, cursor);
      SameDrawings(t', Empty(Prepare(c, t, cursor)), if Min(low, c.height) <= Height(c, t, cursor) then 0 else low);
    } else {
      SameDrawings(t', t, low);
    }
  }

  lemma MarkThenSnap(c: Canvas, t: Tracker, low: nat, e: Seen, low': nat, snap: Seen)
    requires e.Marker? && snap == Snapshot(false, e.due, e.traced, e.stamped, e.cursor)
    requires low' == if Redraws(t, e.flag, e.moved) && Min(low, c.height) <= Height(c, t, e.cursor) then 0 else low
    ensures NextLow(c, t, e, low) == NextLow(c, Mark(c, t, e.flag, e.moved, e.cursor), snap, low')
  {
  }

  lemma StepKeeps(c: Canvas, t: Tracker, low: nat, e: Seen)
    requires Inv(t, low)
    ensures Inv(Step(c, t, e), NextLow(c, t, e, low))
  {
    match e
    case Draw(bottom) => DrawKeeps(t, low, bottom);
    case Marker(flag, moved, due, traced, stamped, cursor) =>
      MarkKeeps(c, t, low, flag, moved, cursor);
      var low' := if Redraws(t, flag, moved) && Min(low, c.height) <= Height(c, t, cursor) then 0 else low;
      var snap := Snapshot(false, due, traced, stamped, cursor);
      SnapKeeps(c, Mark(c, t, flag, moved, cursor), low', snap);
      MarkThenSnap(c, t, low, e, low', snap);
    case Snapshot(_, _, _, _, _) => SnapKeeps(c, t, low, e);
  }

  lemma {:induction false} RunKeeps(c: Canvas, seen: seq<Seen>)
    ensures Inv(Run(c, seen), Low(c, seen))
  {
    if seen == [] {
      assert Unseen(Initial(c), 0, c.height);
    } else {
      var front := seen[..|seen| - 1];
      RunKeeps(c, front);
      StepKeeps(c, Run(c, front), Low(c, front), seen[|seen| - 1]);
    }
  }

  /** The lowest missing row is that of a step that lost something. */
  lemma {:induction false} LowIsMissing(c: Canvas, seen: seq<Seen>) returns (k: nat)
    ensures Low(c, seen) > 0 ==> Missing(c, seen, k) && Run(c, seen[..k]).tracked == Low(c, seen)
    decreases |seen|
  {
    k := 0;
    if seen != [] {
      var n := |seen| - 1;
      var t := Run(c, seen[..n]);
      k := LowIsMissing(c, seen[..n]);
      if Loses(t, seen[n]) && Low(c, seen[..n]) <= t.tracked {
        k := n;
      } else if Low(c, seen) > 0 {
        assert seen[..n][..k] == seen[..k];
        if Loses(t, seen[n]) {
          LosingReachesNothing(c, t, seen[n]);
        }
        MissingStill(c, seen, k);
      }
    }
  }

  lemma {:induction false} LowBounds(c: Canvas, seen: seq<Seen>, i: nat)
    requires Missing(c, seen, i)
    ensures Run(c, seen[..i]).tracked <= Low(c, seen)
    decreases |seen|
  {
    var n := |seen| - 1;
    if i < n {
      MissingStill(c, seen, i);
      LowBounds(c, seen[..n], i);
      assert seen[..n][..i] == seen[..i];
      assert !FoundAt(c, seen, i, n);
    }
  }

  lemma LosingReachesNothing(c: Canvas, t: Tracker, e: Seen)
    requires Loses(t, e)
    ensures Reach(c, t, e) == 0
  {
  }

  lemma MissingStill(c: Canvas, seen: seq<Seen>, i: nat)
    requires i < |seen| - 1
    ensures var n := |seen| - 1; Missing(c, seen, i) <==> Missing(c, seen[..n], i) && !FoundAt(c, seen, i, n)
  {
    var n := |seen| - 1;
    var front := seen[..n];
    assert forall j: nat :: j <= n ==> front[..j] == seen[..j];
    assert forall j: nat :: i < j < n ==> FoundAt(c, front, i, j) == FoundAt(c, seen, i, j);
    assert LosesAt(c, front, i) == LosesAt(c, seen, i);
  }

  /** Over any run: the frame holds every drawing if and only if nothing is tracked, and whatever the
      recorder has lost was covered by a later image. */
  lemma FrameHoldsAll(c: Canvas, seen: seq<Seen>)
    ensures var t := Run(c, seen);
            t.held == All(t) <==> t.tracked == 0 && NothingMissing(c, seen)
  {
    var t := Run(c, seen);
    RunKeeps(c, seen);
    var k := LowIsMissing(c, seen);
    assert forall d, row :: Unseen(t, d, row) ==> d in All(t) && d !in t.held;
    if t.tracked == 0 && NothingMissing(c, seen) {
      assert Low(c, seen) == 0;
    } else if t.tracked == 0 {
      var i: nat :| Missing(c, seen, i);
      LowBounds(c, seen, i);
    }
  }

  /** What a later image finds depends on how far down it goes: after 50 rows were lost, one that was asked
      for b rows shows them if and only if b is at least 50, or the video shows a part of the screen. */
  lemma FoundIfCovered(cropped: bool, b: Rows)
    requires b <= 100
    ensures var redraw := Marker(true, false, false, false, false, 0);
            var seen := [redraw, Draw(10), redraw, Draw(50), Snapshot(false, true, false, false, 0), Draw(b), redraw];
            var t := Run(Canvas(100, cropped), seen);
            t.held == All(t) <==> cropped || b >= 50
  {
    var c := Canvas(100, cropped);
    var (redraw, lose) := (Marker(true, false, false, false, false, 0), Snapshot(false, true, false, false, 0));
    var s5, u := FiftyLost(c);
    RunOneMore(c, s5, Draw(b));
    RunOneMore(c, s5 + [Draw(b)], redraw);
    var t := Run(c, s5 + [Draw(b)] + [redraw]);
    assert t.bottoms == [100, 10, 50, b] && All(t) == {0, 1, 2, 3};
    assert 3 in t.held && (2 in t.held <==> cropped || b >= 50);
    assert s5 + [Draw(b)] + [redraw] == [redraw, Draw(10), redraw, Draw(50), lose, Draw(b), redraw];
  }

  lemma FiftyLost(c: Canvas) returns (seen: seq<Seen>, t: Tracker)
    requires c.height == 100
    ensures var redraw := Marker(true, false, false, false, false, 0);
            seen == [redraw, Draw(10), redraw, Draw(50), Snapshot(false, true, false, false, 0)]
    ensures t == Run(c, seen) == Tracker([100, 10, 50], 0, if c.cropped then 100 else 10, {0, 1}, true)
  {
    var (redraw, lose) := (Marker(true, false, false, false, false, 0), Snapshot(false, true, false, false, 0));
    var s3 := [redraw, Draw(10), redraw];
    seen := s3 + [Draw(50)] + [lose];
    t := TenHeld(c);
    RunOneMore(c, s3, Draw(50));
    RunOneMore(c, s3 + [Draw(50)], lose);
    t := Run(c, seen);
  }

  lemma TenHeld(c: Canvas) returns (t: Tracker)
    requires c.height == 100
    ensures var redraw := Marker(true, false, false, false, false, 0);
            t == Run(c, [redraw, Draw(10), redraw]) == Tracker([100, 10], 0, if c.cropped then 100 else 10, {0, 1}, true)
  {
    var redraw := Marker(true, false, false, false, false, 0);
    var s1: seq<Seen> := [redraw];
    RunOneMore(c, [], redraw);
    assert [] + s1 == s1;
    var t1 := Tracker([100], 0, 100, {0}, true);
    assert Step(c, Initial(c), redraw) == t1;
    RunOneMore(c, s1, Draw(10));
    RunOneMore(c, s1 + [Draw(10)], redraw);
    assert s1 + [Draw(10)] + [redraw] == [redraw, Draw(10), redraw];
    t := Step(c, DrawOne(t1, 10), redraw);
    assert t.held == {0, 1};
  }
}
