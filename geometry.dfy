/**
 * Board geometry of the simulator: the fixed 960x720 board, Python's
 * truncating `int()` on half-pixel centres, clamping, point hit-tests,
 * the rubber-band selection rectangle, bounding boxes, the rotation that
 * keeps a card's centre, the EX-deck layout and the opponent's mirrored view.
 */
module Geometry {
  import opened Common

  const BoardWidth := 960
  const BoardHeight := 720
  /** Size of an upright card; a rotated card swaps the two. */
  const CardWidth := 78
  const CardHeight := 111
  /** The opponent sees the back of every card whose top edge is below this line (the owner's hand). */
  const HandLine := 440
  /** A rubber band narrower or shorter than this is a click, not a selection. */
  const MinSelection := 5

  /** Python's `int(n / 2)`: n halved and truncated toward zero. */
  function HalfTrunc(n: int): (r: int)
    ensures n >= 0 ==> 0 <= n - 2 * r <= 1
    ensures n < 0 ==> 0 <= 2 * r - n <= 1
  {
    if n >= 0 then n / 2 else -((-n) / 2)
  }

  /** Python's `max(0, min(v, hi))`. */
  function Clamp(v: int, hi: int): (r: int)
    ensures r >= 0
    ensures 0 <= v <= hi ==> r == v
    ensures v > hi ==> r == (if hi < 0 then 0 else hi)
    ensures v < 0 ==> r == 0
  {
    if v > hi then (if hi < 0 then 0 else hi) else if v < 0 then 0 else v
  }

  lemma ClampIdempotent(v: int, hi: int)
    ensures Clamp(Clamp(v, hi), hi) == Clamp(v, hi)
  {
  }

  /** An axis-aligned rectangle: top-left corner and size. */
  datatype Rect = Rect(x: int, y: int, width: int, height: int)

  /** The half-open hit-test of a click: left and top edges in, right and bottom edges out. */
  predicate Hits(r: Rect, px: int, py: int) {
    r.x <= px < r.x + r.width && r.y <= py < r.y + r.height
  }

  /**
   * The object a click lands on when the list is drawn in order (later
   * entries on top): the last entry that contains the point.
   */
  function TopmostHit(rs: seq<Rect>, px: int, py: int): (r: Option<nat>)
    ensures r.Some? ==> r.value < |rs| && Hits(rs[r.value], px, py)
    ensures r.Some? ==> forall j :: r.value < j < |rs| ==> !Hits(rs[j], px, py)
    ensures r.None? ==> forall j :: 0 <= j < |rs| ==> !Hits(rs[j], px, py)
  {
    if rs == [] then None
    else if Hits(rs[|rs| - 1], px, py) then Some(|rs| - 1)
    else TopmostHit(rs[..|rs| - 1], px, py)
  }

  /** The normalised rubber band: sorted corners. */
  datatype Band = Band(x1: int, y1: int, x2: int, y2: int)

  function BandOf(sx: int, sy: int, ex: int, ey: int): (b: Band)
    ensures b.x1 <= b.x2 && b.y1 <= b.y2
    ensures {b.x1, b.x2} == {sx, ex} && {b.y1, b.y2} == {sy, ey}
  {
    Band(if sx <= ex then sx else ex, if sy <= ey then sy else ey,
         if sx <= ex then ex else sx, if sy <= ey then ey else sy)
  }

  /** A band under 5 px on either side is treated as a plain click. */
  predicate TooSmall(b: Band) {
    b.x2 - b.x1 < MinSelection || b.y2 - b.y1 < MinSelection
  }

  /** Closed intersection: touching edges count. */
  predicate Touches(r: Rect, b: Band) {
    !(r.x + r.width < b.x1 || r.x > b.x2 || r.y + r.height < b.y1 || r.y > b.y2)
  }

  /** Bounding box `(min_x, min_y, max_x, max_y)` of a set of rectangles. */
  datatype Box = Box(minX: int, minY: int, maxX: int, maxY: int)

  predicate Encloses(b: Box, r: Rect) {
    b.minX <= r.x && b.minY <= r.y && r.x + r.width <= b.maxX && r.y + r.height <= b.maxY
  }

  /** `_get_cards_bounds`: None for no cards, otherwise the smallest box around all of them. */
  function Bounds(rs: seq<Rect>): (b: Option<Box>)
    ensures b.None? <==> rs == []
    ensures b.Some? ==> forall i :: 0 <= i < |rs| ==> Encloses(b.value, rs[i])
    ensures b.Some? ==> exists i :: 0 <= i < |rs| && rs[i].x == b.value.minX
    ensures b.Some? ==> exists i :: 0 <= i < |rs| && rs[i].y == b.value.minY
    ensures b.Some? ==> exists i :: 0 <= i < |rs| && rs[i].x + rs[i].width == b.value.maxX
    ensures b.Some? ==> exists i :: 0 <= i < |rs| && rs[i].y + rs[i].height == b.value.maxY
  {
    if rs == [] then None
    else
      var r := rs[|rs| - 1];
      var n := |rs| - 1;
      match Bounds(rs[..n])
      case None =>
        Some(Box(r.x, r.y, r.x + r.width, r.y + r.height))
      case Some(p) =>
        var b := Box(if r.x < p.minX then r.x else p.minX, if r.y < p.minY then r.y else p.minY,
                     if r.x + r.width > p.maxX then r.x + r.width else p.maxX,
                     if r.y + r.height > p.maxY then r.y + r.height else p.maxY);
        assert forall i :: 0 <= i < n ==> rs[..n][i] == rs[i];
        Some(b)
  }

  /** Width and height of a card in the given orientation. */
  function Dims(rotated: bool): (int, int) {
    if rotated then (CardHeight, CardWidth) else (CardWidth, CardHeight)
  }

  /** Position and orientation of a card: what `_toggle_card_rotation` works on. */
  datatype Pose = Pose(x: int, y: int, width: int, height: int, rotated: bool)

  /**
   * `_toggle_card_rotation`: flip the orientation, take the new size, and put
   * the new top-left corner at the old centre minus half the new size,
   * truncated toward zero (`int(cx - w / 2)` with cx = x + width / 2).
   */
  function Toggle(p: Pose): (q: Pose)
    ensures q.rotated == !p.rotated && (q.width, q.height) == Dims(q.rotated)
    ensures -1 <= (2 * q.x + q.width) - (2 * p.x + p.width) <= 1
    ensures -1 <= (2 * q.y + q.height) - (2 * p.y + p.height) <= 1
  {
    var (w, h) := Dims(!p.rotated);
    Pose(HalfTrunc(2 * p.x + p.width - w), HalfTrunc(2 * p.y + p.height - h), w, h, !p.rotated)
  }

  /**
   * Toggling twice restores orientation and size; the corner comes back
   * within one pixel (both centres were kept to half a pixel).
   */
  lemma ToggleTwice(p: Pose)
    requires (p.width, p.height) == Dims(p.rotated)
    ensures Toggle(Toggle(p)).rotated == p.rotated
    ensures Toggle(Toggle(p)).width == p.width && Toggle(Toggle(p)).height == p.height
    ensures -1 <= Toggle(Toggle(p)).x - p.x <= 1 && -1 <= Toggle(Toggle(p)).y - p.y <= 1
  {
  }

  /** The pixel drift is real: an upright card at (100, 100) comes back at (99, 99). */
  lemma ToggleTwiceDrifts()
    ensures Toggle(Toggle(Pose(100, 100, CardWidth, CardHeight, false))) == Pose(99, 99, CardWidth, CardHeight, false)
  {
    assert Toggle(Pose(100, 100, CardWidth, CardHeight, false)) == Pose(83, 116, CardHeight, CardWidth, true);
  }

  /** `unrotate_all` on one card: a rotated card is stood upright about its centre, an upright one is left alone. */
  function Unrotate(p: Pose): (q: Pose)
    ensures !q.rotated
  {
    if p.rotated then
      Pose(HalfTrunc(2 * p.x + p.width - CardWidth), HalfTrunc(2 * p.y + p.height - CardHeight), CardWidth, CardHeight, false)
    else p
  }

  /** Un-rotating a rotated card is the same as toggling it. */
  lemma UnrotateIsToggle(p: Pose)
    requires p.rotated
    ensures Unrotate(p) == Toggle(p)
  {
  }

  /** `gather_selected_cards`: the common centre, `int((min + max) / 2)` on both axes. */
  function Centre(b: Box): (c: (int, int))
    ensures -1 <= 2 * c.0 - (b.minX + b.maxX) <= 1 && -1 <= 2 * c.1 - (b.minY + b.maxY) <= 1
  {
    (HalfTrunc(b.minX + b.maxX), HalfTrunc(b.minY + b.maxY))
  }

  /**
   * Where a gathered card of the given size goes: centred on c with
   * Python's floor division `w // 2`, then clamped into the board.
   */
  function GatherSpot(c: (int, int), width: int, height: int): (int, int) {
    (Clamp(c.0 - width / 2, BoardWidth - width), Clamp(c.1 - height / 2, BoardHeight - height))
  }

  /** Every gathered card of a board-sized card fits the board. */
  lemma GatherSpotOnBoard(c: (int, int), width: int, height: int)
    requires 0 <= width <= BoardWidth && 0 <= height <= BoardHeight
    ensures 0 <= GatherSpot(c, width, height).0 && GatherSpot(c, width, height).0 + width <= BoardWidth
    ensures 0 <= GatherSpot(c, width, height).1 && GatherSpot(c, width, height).1 + height <= BoardHeight
  {
  }

  /** A gathered card that needs no clamping sits centred on c, to within half a pixel. */
  lemma GatherSpotCentred(c: (int, int), width: int, height: int)
    requires 0 <= c.0 - width / 2 <= BoardWidth - width
    requires 0 <= c.1 - height / 2 <= BoardHeight - height
    ensures 0 <= 2 * GatherSpot(c, width, height).0 + width - 2 * c.0 <= 1
    ensures 0 <= 2 * GatherSpot(c, width, height).1 + height - 2 * c.1 <= 1
  {
  }

  /**
   * Where `load_deck` lays the k-th EX card: from (20, 600) in steps of
   * 15 px, a new row 10 px lower once x would pass 900 (59 cards a row).
   */
  function ExSlot(k: nat): (p: (int, int))
    ensures 20 <= p.0 <= 890 && p.1 >= 600
  {
    (20 + 15 * (k % 59), 600 + 10 * (k / 59))
  }

  /** The closed form agrees with the loop's step `x += 15; if x > 900: x, y = 20, y + 10`. */
  lemma ExSlotStep(k: nat)
    ensures ExSlot(k + 1) == if ExSlot(k).0 + 15 > 900 then (20, ExSlot(k).1 + 10) else (ExSlot(k).0 + 15, ExSlot(k).1)
  {
    if k % 59 == 58 {
      assert (k + 1) % 59 == 0 && (k + 1) / 59 == k / 59 + 1;
    } else {
      assert (k + 1) % 59 == k % 59 + 1 && (k + 1) / 59 == k / 59;
    }
  }

  /** `draw_cards` sizes a normal marker to its text: at least 120x50, else text plus a 20x10 margin. */
  function MarkerSize(textWidth: int, textHeight: int): (s: (int, int))
    ensures s.0 >= 120 && s.0 >= textWidth + 20 && (s.0 == 120 || s.0 == textWidth + 20)
    ensures s.1 >= 50 && s.1 >= textHeight + 10 && (s.1 == 50 || s.1 == textHeight + 10)
  {
    (if textWidth + 20 > 120 then textWidth + 20 else 120, if textHeight + 10 > 50 then textHeight + 10 else 50)
  }

  /** What the opponent's window draws for one card: the mirrored rectangle and whether the back shows. */
  datatype Sprite = Sprite(at: Rect, showsBack: bool)

  /** Rotating the board half a turn: `(960 - (x + w), 720 - (y + h))`, size kept. */
  function Mirror(r: Rect): (m: Rect)
    ensures m.width == r.width && m.height == r.height
    ensures m.x + m.width + r.x == BoardWidth && m.y + m.height + r.y == BoardHeight
  {
    Rect(BoardWidth - (r.x + r.width), BoardHeight - (r.y + r.height), r.width, r.height)
  }

  /** The half-turn is its own inverse and keeps the board onto itself. */
  lemma MirrorInvolution(r: Rect)
    ensures Mirror(Mirror(r)) == r
    ensures (0 <= r.x && r.x + r.width <= BoardWidth) <==> (0 <= Mirror(r).x && Mirror(r).x + r.width <= BoardWidth)
    ensures (0 <= r.y && r.y + r.height <= BoardHeight) <==> (0 <= Mirror(r).y && Mirror(r).y + r.height <= BoardHeight)
  {
  }

  /** `_draw_view` and `_get_opponent_card_image`: the back shows for a card in the hand area or face down. */
  function OpponentSprite(r: Rect, faceUp: bool): (s: Sprite)
    ensures s.at == Mirror(r)
    ensures s.showsBack <==> r.y > HandLine || !faceUp
  {
    Sprite(Mirror(r), r.y > HandLine || !faceUp)
  }

  /** Moving a face-up card across the hand line is exactly what hides it from the opponent. */
  lemma HandLineHides(r: Rect, dy: int)
    requires r.y <= HandLine < r.y + dy
    ensures !OpponentSprite(r, true).showsBack
    ensures OpponentSprite(Rect(r.x, r.y + dy, r.width, r.height), true).showsBack
  {
  }
}
