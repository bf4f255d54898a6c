/** The frame of a window without desktop: which part of it a point is in, and what dragging a part does
    to the window. */
module RailAreas {

  datatype Area =
    | N | NWN | NWW | W | SWW | SWS | S | SES | SEE | E | NEE | NEN
    | Icon | Title | Close | Maxi | Mini | Resize
    | Invalid

  datatype Rect = Rect(x: int, y: int, cx: int, cy: int)

  const CORNER: int := 24
  const THICKNESS: int := 3
  const BUTTON_WIDTH: int := 37
  const MIN_WIDTH: int := 640
  const MIN_HEIGHT: int := 480

  predicate ContainsPt(r: Rect, x: int, y: int) {
    r.x <= x < r.x + r.cx && r.y <= y < r.y + r.cy
  }

  /** A zone by its distances to the sides of the window; a side is the far one where the flag is set. */
  datatype RectComputation = RectComputation(
    subX: bool, x: int, subY: bool, y: int, subCx: bool, cx: int, subCy: bool, cy: int)

  function Compute(c: RectComputation, w: Rect): Rect {
    Rect(w.x + (if c.subX then w.cx - c.x else c.x), w.y + (if c.subY then w.cy - c.y else c.y),
         if c.subCx then w.cx - c.cx else c.cx, if c.subCy then w.cy - c.cy else c.cy)
  }

  function Button(n: int, border: int): RectComputation {
    RectComputation(true, border + BUTTON_WIDTH * n, false, border, false, BUTTON_WIDTH, false, CORNER - 1)
  }

  function Side(horizontal: int, vertical: int, diagonal: bool): RectComputation {
    var dx := if diagonal then THICKNESS else CORNER;
    var dy := if diagonal then CORNER else THICKNESS;
    RectComputation(
      horizontal == 2, if horizontal == 0 then 0 else if horizontal == 1 then CORNER else dx,
      vertical == 2, if vertical == 0 then 0 else if vertical == 1 then CORNER else dy,
      horizontal == 1, if horizontal == 1 then 2 * CORNER else dx,
      vertical == 1, if vertical == 1 then 2 * CORNER else dy)
  }

  function Zone(area: Area): RectComputation {
    match area
    case Title => RectComputation(false, 22, false, 1, true, 23 + BUTTON_WIDTH * 3, false, CORNER - 1)
    case Icon => RectComputation(false, 1, false, 1, false, 21, false, CORNER - 1)
    case Close => Button(1, 1)
    case Maxi => Button(2, 1)
    case Mini => Button(3, 1)
    case Resize => Button(4, 1)
    case N => Side(1, 0, false)
    case S => Side(1, 2, false)
    case W => Side(0, 1, true)
    case E => Side(2, 1, true)
    case NWN => Side(0, 0, false)
    case NWW => Side(0, 0, true)
    case NEE => Side(2, 0, true)
    case NEN => Side(2, 0, false)
    case SES => Side(2, 2, false)
    case SEE => Side(2, 2, true)
    case SWW => Side(0, 2, true)
    case SWS => Side(0, 2, false)
    case Invalid => RectComputation(false, 0, false, 0, false, 0, false, 0)
  }

  /** The zones of a maximized window, which has no border. */
  function ZoneWithoutBorder(area: Area): RectComputation {
    match area
    case Title => RectComputation(false, 21, false, 0, true, 21 + BUTTON_WIDTH * 3, false, CORNER - 1)
    case Icon => RectComputation(false, 0, false, 0, false, 21, false, CORNER - 1)
    case Close => Button(1, 0)
    case Maxi => Button(2, 0)
    case Mini => Button(3, 0)
    case Resize => Button(4, 0)
    case _ => RectComputation(false, 0, false, 0, false, 0, false, 0)
  }

  function Desktop(): RectComputation { RectComputation(false, 1, false, CORNER, true, 2, true, CORNER + 1) }

  function DesktopWithoutBorder(): RectComputation {
    RectComputation(false, 0, false, CORNER, true, 0, true, CORNER - 1)
  }

  function TitleBar(resizable: bool): seq<Area> {
    if resizable then [Close, Maxi, Mini, Resize, Icon, Title] else [Close, Maxi, Mini, Icon, Title]
  }

  function Border(): seq<Area> { [N, NWN, NWW, W, SWW, SWS, S, SES, SEE, E, NEE, NEN] }

  /** The areas in the order they are looked at. */
  function Order(maximized: bool, resizable: bool): seq<Area> {
    TitleBar(resizable) + if maximized then [] else Border()
  }

  function ZoneOf(area: Area, maximized: bool, w: Rect): Rect {
    Compute(if maximized then ZoneWithoutBorder(area) else Zone(area), w)
  }

  predicate Hit(a: Area, maximized: bool, w: Rect, x: int, y: int) { ContainsPt(ZoneOf(a, maximized, w), x, y) }

  predicate OnDesktop(w: Rect, maximized: bool, x: int, y: int) {
    ContainsPt(Compute(if maximized then DesktopWithoutBorder() else Desktop(), w), x, y)
  }

  function FirstHit(areas: seq<Area>, maximized: bool, w: Rect, x: int, y: int): Area {
    if areas == [] then Invalid
    else if Hit(areas[0], maximized, w, x, y) then areas[0]
    else FirstHit(areas[1..], maximized, w, x, y)
  }

  /** get_rect_area */
  function GetRectArea(w: Rect, maximized: bool, resizable: bool, x: int, y: int): Area {
    if OnDesktop(w, maximized, x, y) then Invalid
    else FirstHit(Order(maximized, resizable), maximized, w, x, y)
  }

  /** The place of an area in the order they are looked at. */
  function Rank(a: Area): nat {
    match a
    case Close => 0 case Maxi => 1 case Mini => 2 case Resize => 3 case Icon => 4 case Title => 5
    case N => 6 case NWN => 7 case NWW => 8 case W => 9 case SWW => 10 case SWS => 11 case S => 12
    case SES => 13 case SEE => 14 case E => 15 case NEE => 16 case NEN => 17 case Invalid => 18
  }

  predicate Ranked(areas: seq<Area>) {
    forall i, j :: 0 <= i < j < |areas| ==> Rank(areas[i]) < Rank(areas[j])
  }

  /** The search finds the lowest area that has the point. */
  lemma {:induction false} FirstHitIs(areas: seq<Area>, a: Area, maximized: bool, w: Rect, x: int, y: int)
    requires Ranked(areas) && (a == Invalid || (a in areas && Hit(a, maximized, w, x, y)))
    requires forall b | b in areas && Rank(b) < Rank(a) :: !Hit(b, maximized, w, x, y)
    ensures FirstHit(areas, maximized, w, x, y) == a
    decreases |areas|
  {
    if areas != [] && areas[0] != a {
      if a != Invalid {
        var k :| 0 <= k < |areas| && areas[k] == a;
        assert a == areas[1..][k - 1];
      }
      assert Rank(areas[0]) < Rank(a) by {
        assert areas[0] in areas;
      }
      FirstHitIs(areas[1..], a, maximized, w, x, y);
    }
  }

  lemma RankedParts(resizable: bool)
    ensures Ranked(TitleBar(resizable)) && Ranked(Border())
    ensures forall i :: 0 <= i < |TitleBar(resizable)| ==> Rank(TitleBar(resizable)[i]) < Rank(N)
    ensures forall i :: 0 <= i < |Border()| ==> Rank(Border()[i]) >= Rank(N)
  {
  }

  lemma OrderRanked(maximized: bool, resizable: bool)
    ensures Ranked(Order(maximized, resizable))
  {
    RankedParts(resizable);
  }

  lemma TitleBarHas(resizable: bool, a: Area)
    ensures a in TitleBar(resizable) <==> Rank(a) < Rank(N) && (a == Resize ==> resizable)
  {
    var t := TitleBar(resizable);
    assert t[0] == Close && t[1] == Maxi && t[2] == Mini && (resizable ==> t[3] == Resize);
    assert t[|t| - 2] == Icon && t[|t| - 1] == Title;
  }

  lemma BorderHas(a: Area)
    ensures a in Border() <==> Rank(N) <= Rank(a) < Rank(Invalid)
  {
    var b := Border();
    assert b[0] == N && b[1] == NWN && b[2] == NWW && b[3] == W && b[4] == SWW && b[5] == SWS;
    assert b[6] == S && b[7] == SES && b[8] == SEE && b[9] == E && b[10] == NEE && b[11] == NEN;
  }

  lemma OrderHas(maximized: bool, resizable: bool, a: Area)
    ensures a in Order(maximized, resizable)
            <==> a != Invalid && (a == Resize ==> resizable) && (maximized ==> Rank(a) < Rank(N))
  {
    TitleBarHas(resizable, a);
    BorderHas(a);
  }

  // ---- where the areas are ----

  /** The border part at column dx of row dy: the corners are 24 pixels long. */
  function BorderAt(w: Rect, dx: int, dy: int): Area {
    if dy == 0 then
      if dx < CORNER then NWN else if dx >= w.cx - THICKNESS then NEE else if dx >= w.cx - CORNER then NEN else N
    else if dx == 0 then
      if dy < THICKNESS then NWN else if dy < CORNER then NWW else if dy >= w.cy - CORNER then SWW else W
    else if dx == w.cx - 1 then
      if dy < CORNER then NEE else if dy >= w.cy - THICKNESS then SES else if dy >= w.cy - CORNER then SEE else E
    else
      if dx < THICKNESS then SWW else if dx < CORNER then SWS else if dx >= w.cx - CORNER then SES else S
  }

  /** The part of the title bar, the buttons counted from the right. */
  function TitleAt(w: Rect, dx: int, border: int, resizable: bool): Area {
    var right := w.cx - border;
    if dx >= right - BUTTON_WIDTH then Close
    else if dx >= right - 2 * BUTTON_WIDTH then Maxi
    else if dx >= right - 3 * BUTTON_WIDTH then Mini
    else if dx >= right - 4 * BUTTON_WIDTH && resizable then Resize
    else if dx < border + 21 then Icon
    else Title
  }

  /** The area of a point, by its place in the window. Without a border, row 23 is in no area. */
  function AreaAt(w: Rect, maximized: bool, resizable: bool, x: int, y: int): Area {
    var (dx, dy, border) := (x - w.x, y - w.y, if maximized then 0 else 1);
    if !ContainsPt(w, x, y) then Invalid
    else if border <= dx < w.cx - border && border <= dy < border + CORNER - 1 then TitleAt(w, dx, border, resizable)
    else if maximized || (1 <= dx < w.cx - 1 && CORNER <= dy < w.cy - 1) then Invalid
    else BorderAt(w, dx, dy)
  }

  /** The buttons and the icon fit side by side, and the corners too. */
  predicate RoomForAreas(w: Rect) { w.cx >= 4 * BUTTON_WIDTH + 23 && w.cy >= 2 * CORNER }

  /** The window is cut into areas without a gap and without an overlap that matters; nothing outside the
      window is in an area. */
  lemma AreasPartition(w: Rect, maximized: bool, resizable: bool, x: int, y: int)
    requires RoomForAreas(w)
    ensures GetRectArea(w, maximized, resizable, x, y) == AreaAt(w, maximized, resizable, x, y)
  {
    var a := AreaAt(w, maximized, resizable, x, y);
    if !OnDesktop(w, maximized, x, y) {
      OrderRanked(maximized, resizable);
      OrderHas(maximized, resizable, a);
      if a != Invalid {
        AreaIsHit(w, maximized, resizable, x, y);
      }
      forall b | b in Order(maximized, resizable) && Rank(b) < Rank(a)
        ensures !Hit(b, maximized, w, x, y)
      {
        OrderHas(maximized, resizable, b);
        NoEarlierHit(w, maximized, resizable, x, y, b);
      }
      FirstHitIs(Order(maximized, resizable), a, maximized, w, x, y);
    }
  }

  lemma AreaIsHit(w: Rect, maximized: bool, resizable: bool, x: int, y: int)
    requires RoomForAreas(w)
    requires AreaAt(w, maximized, resizable, x, y) != Invalid
    ensures var a := AreaAt(w, maximized, resizable, x, y);
            Hit(a, maximized, w, x, y) && (a == Resize ==> resizable) && (maximized ==> Rank(a) < Rank(N))
  {
  }

  lemma NoEarlierHit(w: Rect, maximized: bool, resizable: bool, x: int, y: int, b: Area)
    requires RoomForAreas(w) && b != Invalid && (b == Resize ==> resizable)
    requires !OnDesktop(w, maximized, x, y) && (maximized ==> Rank(b) < Rank(N))
    requires Rank(b) < Rank(AreaAt(w, maximized, resizable, x, y))
    ensures !Hit(b, maximized, w, x, y)
  {
  }

  /** A window of 800 by 600: the buttons and the corners are where one expects them. */
  lemma SampleOfTitle(w: Rect, resizable: bool)
    requires w == Rect(100, 50, 800, 600)
    ensures TitleAt(w, 780, 1, resizable) == Close && TitleAt(w, 740, 1, resizable) == Maxi
    ensures TitleAt(w, 700, 1, resizable) == Mini && TitleAt(w, 660, 1, resizable) == if resizable then Resize else Title
    ensures TitleAt(w, 10, 1, resizable) == Icon && TitleAt(w, 300, 1, resizable) == Title
    ensures AreaAt(w, false, resizable, 880, 60) == TitleAt(w, 780, 1, resizable)
    ensures AreaAt(w, true, resizable, 899, 50) == Close && AreaAt(w, false, resizable, 400, 300) == Invalid
  {
  }

  lemma SampleOfBorder(w: Rect)
    requires w == Rect(100, 50, 800, 600)
    ensures BorderAt(w, 300, 0) == N && BorderAt(w, 300, 599) == S && BorderAt(w, 0, 300) == W && BorderAt(w, 799, 300) == E
    ensures BorderAt(w, 10, 0) == NWN && BorderAt(w, 0, 10) == NWW && BorderAt(w, 790, 0) == NEN && BorderAt(w, 799, 10) == NEE
    ensures BorderAt(w, 10, 599) == SWS && BorderAt(w, 0, 590) == SWW && BorderAt(w, 790, 599) == SES && BorderAt(w, 799, 590) == SEE
    ensures AreaAt(w, false, true, 400, 50) == BorderAt(w, 300, 0)
  {
  }

  // ---- dragging ----

  predicate Draggable(a: Area) {
    a !in {Icon, Close, Maxi, Mini, Resize, Invalid}
  }

  function Min(a: int, b: int): int { if a < b then a else b }
  function Max(a: int, b: int): int { if a > b then a else b }

  predicate LeftSide(a: Area) { a in {NWN, NWW, W, SWW, SWS} }
  predicate RightSide(a: Area) { a in {NEN, NEE, E, SEE, SES} }
  predicate TopSide(a: Area) { a in {N, NWN, NWW, NEN, NEE} }
  predicate BottomSide(a: Area) { a in {S, SWW, SWS, SEE, SES} }

  /** move_resize_rect; the top border follows the horizontal movement. */
  function MoveResizeRect(pressed: Area, ox: int, oy: int, r: Rect): Rect
    requires Draggable(pressed)
  {
    var xMax := r.cx - MIN_WIDTH;
    var yMax := r.cy - MIN_HEIGHT;
    var cxMin := MIN_WIDTH - r.cx;
    var cyMin := MIN_HEIGHT - r.cy;
    match pressed
    case N =>
      var dy := Min(ox, yMax);
      Rect(r.x, r.y + dy, r.cx, r.cy - dy)
    case NWN | NWW =>
      var (dx, dy) := (Min(ox, xMax), Min(oy, yMax));
      Rect(r.x + dx, r.y + dy, r.cx - dx, r.cy - dy)
    case W =>
      var dx := Min(ox, xMax);
      Rect(r.x + dx, r.y, r.cx - dx, r.cy)
    case SWW | SWS =>
      var (dx, dcy) := (Min(ox, xMax), Max(oy, cyMin));
      Rect(r.x + dx, r.y, r.cx - dx, r.cy + dcy)
    case S =>
      Rect(r.x, r.y, r.cx, r.cy + Max(oy, cyMin))
    case SES | SEE =>
      Rect(r.x, r.y, r.cx + Max(ox, cxMin), r.cy + Max(oy, cyMin))
    case E =>
      Rect(r.x, r.y, r.cx + Max(ox, cxMin), r.cy)
    case NEE | NEN =>
      var dy := Min(oy, yMax);
      Rect(r.x, r.y + dy, r.cx + Max(ox, cxMin), r.cy - dy)
    case _ =>
      Rect(r.x + Min(ox, xMax), r.y + Min(oy, yMax), r.cx, r.cy)
  }

  /** A dragged window never gets smaller than the minimum, only the pressed sides move, and all other
      sides stay; a window dragged by its title keeps its size. */
  lemma OnlyPressedSidesMove(pressed: Area, ox: int, oy: int, r: Rect)
    requires Draggable(pressed) && r.cx >= MIN_WIDTH && r.cy >= MIN_HEIGHT
    ensures SidesKept(pressed, r, MoveResizeRect(pressed, ox, oy, r))
  {
  }

  predicate SidesKept(pressed: Area, r: Rect, m: Rect) {
    && m.cx >= MIN_WIDTH && m.cy >= MIN_HEIGHT
    && (pressed == Title ==> m.cx == r.cx && m.cy == r.cy)
    && (pressed != Title && !LeftSide(pressed) ==> m.x == r.x)
    && (pressed != Title && !TopSide(pressed) ==> m.y == r.y)
    && (pressed != Title && !RightSide(pressed) ==> m.x + m.cx == r.x + r.cx)
    && (pressed != Title && !BottomSide(pressed) ==> m.y + m.cy == r.y + r.cy)
  }

  /** A pressed side follows the mouse as long as the window stays large enough, and then stops at the
      minimum; except that the middle of the top border follows the horizontal movement. */
  lemma PressedSideFollows(pressed: Area, ox: int, oy: int, r: Rect)
    requires Draggable(pressed) && pressed != Title
    ensures var m := MoveResizeRect(pressed, ox, oy, r);
            && (LeftSide(pressed) ==> if r.cx - ox >= MIN_WIDTH then m.x == r.x + ox else m.cx == MIN_WIDTH)
            && (RightSide(pressed) ==>
                  if r.cx + ox >= MIN_WIDTH then m.x + m.cx == r.x + r.cx + ox else m.cx == MIN_WIDTH)
            && (BottomSide(pressed) ==>
                  if r.cy + oy >= MIN_HEIGHT then m.y + m.cy == r.y + r.cy + oy else m.cy == MIN_HEIGHT)
            && (TopSide(pressed) ==>
                  var o := if pressed == N then ox else oy;
                  if r.cy - o >= MIN_HEIGHT then m.y == r.y + o else m.cy == MIN_HEIGHT)
  {
  }

  /** A window follows the mouse by its title exactly as far as it is larger than the minimum: one of the
      minimum size cannot be moved to the right or down at all. */
  lemma TitleFollows(ox: int, oy: int, r: Rect)
    ensures MoveResizeRect(Title, ox, oy, r) == Rect(r.x + ox, r.y + oy, r.cx, r.cy)
            <==> ox <= r.cx - MIN_WIDTH && oy <= r.cy - MIN_HEIGHT
  {
  }
}
