/** Size and placement of the watermark on a source image.

    The application resizes the watermark to a percentage of the source width,
    keeps its aspect ratio, and places it at one of five named positions, with a
    margin in pixels from the chosen edges. The same computation is written twice
    in the source: once in the preview path and once inline in the batch loop. */
module Geometry {
  import opened Outcomes

  /** The five placements offered by the position selector. */
  datatype Position = BottomRight | BottomLeft | TopRight | TopLeft | Centre

  /** The selector's label for each position, which is also its key in pos_map. */
  function Label(p: Position): string {
    match p
    case BottomRight => "Bas Droite"
    case BottomLeft => "Bas Gauche"
    case TopRight => "Haut Droite"
    case TopLeft => "Haut Gauche"
    case Centre => "Centre"
  }

  const Labels: set<string> := {"Bas Droite", "Bas Gauche", "Haut Droite", "Haut Gauche", "Centre"}

  /** The position a label stands for, if any: the inverse of Label. */
  function PositionOf(s: string): (r: Option<Position>)
    ensures r.Some? <==> s in Labels
    ensures r.Some? ==> Label(r.value) == s
  {
    if s == "Bas Droite" then Some(BottomRight)
    else if s == "Bas Gauche" then Some(BottomLeft)
    else if s == "Haut Droite" then Some(TopRight)
    else if s == "Haut Gauche" then Some(TopLeft)
    else if s == "Centre" then Some(Centre)
    else None
  }

  /** Every position has a distinct label among the keys of pos_map, and reading it back gives the position. */
  lemma LabelRoundTrip(p: Position)
    ensures Label(p) in Labels
    ensures PositionOf(Label(p)) == Some(p)
  {
  }

  /** Dimensions of a decoded image, after orientation correction. */
  datatype Size = Size(w: nat, h: nat)

  /** Dimensions computed for the resized watermark; nothing in the arithmetic keeps them positive. */
  datatype Extent = Extent(w: int, h: int)

  /** Top-left corner at which the watermark is pasted; it may lie outside the image. */
  datatype Point = Point(x: int, y: int)

  /** Python's `int(a / b)` for a positive divisor: the true quotient truncated toward zero. */
  function TruncDiv(a: int, b: int): (q: int)
    requires b > 0
    ensures 0 <= a ==> 0 <= q && q * b <= a < q * b + b
    ensures a < 0 ==> q <= 0 && q * b - b < a <= q * b
  {
    if a >= 0 then a / b else -((-a) / b)
  }

  /** Width of the resized watermark, `int(srcW * pct / 100)`: truncated, never rounded. */
  function WatermarkWidth(srcW: nat, pct: int): (w: int)
    ensures 0 <= pct ==> 0 <= w && w * 100 <= srcW * pct < w * 100 + 100
    ensures pct < 0 ==> w <= 0
    ensures 0 <= pct <= 100 ==> w <= srcW
    ensures 5 <= pct && 20 <= srcW ==> 1 <= w
  {
    TruncDiv(srcW * pct, 100)
  }

  /** Height of the resized watermark, `int(wmW * wmSrcH / wmSrcW)`: the source aspect
      ratio, anchored on the width and truncated. A watermark of width 0 divides by zero. */
  function WatermarkHeight(wmW: int, wmSrc: Size): (r: Result<int>)
    ensures r.Err? <==> wmSrc.w == 0
    ensures r.Err? ==> r.fault == ZeroDivisionError
    ensures r.Ok? && 0 <= wmW ==>
      0 <= r.value && r.value * wmSrc.w <= wmW * wmSrc.h < r.value * wmSrc.w + wmSrc.w
    ensures r.Ok? && wmW < 0 ==> r.value <= 0
  {
    if wmSrc.w == 0 then Err(ZeroDivisionError) else Ok(TruncDiv(wmW * wmSrc.h, wmSrc.w))
  }

  /** The placement rule as an exhaustive switch over the positions. Each corner puts the
      watermark exactly `m` pixels from its two edges; the centre splits the free space in each
      axis so that the gap after the watermark exceeds the gap before it by at most one pixel
      (floor division). Nothing is clamped. */
  function Origin(p: Position, img: Size, wm: Extent, m: int): (o: Point)
    ensures p == BottomRight ==> img.w - (o.x + wm.w) == m && img.h - (o.y + wm.h) == m
    ensures p == BottomLeft ==> o.x == m && img.h - (o.y + wm.h) == m
    ensures p == TopRight ==> img.w - (o.x + wm.w) == m && o.y == m
    ensures p == TopLeft ==> o.x == m && o.y == m
    ensures p == Centre ==>
      && 0 <= (img.w - (o.x + wm.w)) - o.x <= 1
      && 0 <= (img.h - (o.y + wm.h)) - o.y <= 1
  {
    match p
    case BottomRight => Point(img.w - wm.w - m, img.h - wm.h - m)
    case BottomLeft => Point(m, img.h - wm.h - m)
    case TopRight => Point(img.w - wm.w - m, m)
    case TopLeft => Point(m, m)
    case Centre => Point((img.w - wm.w) / 2, (img.h - wm.h) / 2)
  }

  /** The dictionary `pos_map` that both code paths build, keyed by label; it agrees with
      the positional switch on every key and has no other key. */
  function PosMap(img: Size, wm: Extent, m: int): (pm: map<string, Point>)
    ensures pm.Keys == Labels
    ensures forall p :: Label(p) in pm && pm[Label(p)] == Origin(p, img, wm, m)
  {
    map[
      "Bas Droite" := Point(img.w - wm.w - m, img.h - wm.h - m),
      "Bas Gauche" := Point(m, img.h - wm.h - m),
      "Haut Droite" := Point(img.w - wm.w - m, m),
      "Haut Gauche" := Point(m, m),
      "Centre" := Point((img.w - wm.w) / 2, (img.h - wm.h) / 2)
    ]
  }

  /** Size and origin of the watermark as the batch loop computes it. */
  datatype Placement = Placement(size: Extent, origin: Point)

  /** Size and origin as the preview path computes it: `pos_map.get` gives no origin
      for an unknown position instead of raising. */
  datatype Placed = Placed(size: Extent, origin: Option<Point>)

  /** The computation raises none of its three exceptions. */
  predicate Placeable(wmSrc: Size, margin: Option<int>, position: string) {
    wmSrc.w > 0 && margin.Some? && position in Labels
  }

  /** The inline computation of the batch loop, up to and including `pos_map[position]`:
      width, height (ZeroDivisionError for a watermark of width 0), the map (TypeError when
      the margin is None) and the lookup (KeyError for an unknown position). */
  function BatchPlacement(img: Size, wmSrc: Size, pct: int, margin: Option<int>, position: string): (r: Result<Placement>)
    ensures r.Ok? <==> Placeable(wmSrc, margin, position)
    ensures wmSrc.w == 0 ==> r == Err(ZeroDivisionError)
    ensures wmSrc.w > 0 && margin.None? ==> r == Err(TypeError)
    ensures wmSrc.w > 0 && margin.Some? && position !in Labels ==> r == Err(KeyError)
    ensures r.Ok? ==>
      && r.value.size.w == WatermarkWidth(img.w, pct)
      && WatermarkHeight(r.value.size.w, wmSrc) == Ok(r.value.size.h)
      && PositionOf(position).Some?
      && r.value.origin == Origin(PositionOf(position).value, img, r.value.size, margin.value)
  {
    var w := WatermarkWidth(img.w, pct);
    match WatermarkHeight(w, wmSrc)
    case Err(f) => Err(f)
    case Ok(h) =>
      match margin
      case None => Err(TypeError)
      case Some(m) =>
        var pm := PosMap(img, Extent(w, h), m);
        if position in pm then Ok(Placement(Extent(w, h), pm[position])) else Err(KeyError)
  }

  /** The same computation in the preview path (`_apply_single`), which looks the
      label up with `pos_map.get`. */
  function SinglePlacement(img: Size, wmSrc: Size, pct: int, margin: Option<int>, position: string): (r: Result<Placed>)
    ensures wmSrc.w == 0 ==> r == Err(ZeroDivisionError)
    ensures wmSrc.w > 0 && margin.None? ==> r == Err(TypeError)
    ensures r.Ok? <==> wmSrc.w > 0 && margin.Some?
    ensures r.Ok? ==>
      && r.value.size.w == WatermarkWidth(img.w, pct)
      && WatermarkHeight(r.value.size.w, wmSrc) == Ok(r.value.size.h)
      && (r.value.origin.Some? <==> position in Labels)
      && (r.value.origin.Some? ==>
            r.value.origin.value == Origin(PositionOf(position).value, img, r.value.size, margin.value))
  {
    var w := WatermarkWidth(img.w, pct);
    match WatermarkHeight(w, wmSrc)
    case Err(f) => Err(f)
    case Ok(h) =>
      match margin
      case None => Err(TypeError)
      case Some(m) =>
        var pm := PosMap(img, Extent(w, h), m);
        Ok(Placed(Extent(w, h), if position in pm then Some(pm[position]) else None))
  }

  /** The two code paths compute the same size, origin and error for every position the
      selector offers; they part only on an unknown position, where the preview path gets no
      origin and the batch loop raises KeyError. */
  lemma CodePathsAgree(img: Size, wmSrc: Size, pct: int, margin: Option<int>, position: string)
    ensures position in Labels ==>
      SinglePlacement(img, wmSrc, pct, margin, position) ==
        match BatchPlacement(img, wmSrc, pct, margin, position)
        case Ok(pl) => Ok(Placed(pl.size, Some(pl.origin)))
        case Err(f) => Err(f)
    ensures position !in Labels && wmSrc.w > 0 && margin.Some? ==>
      && BatchPlacement(img, wmSrc, pct, margin, position) == Err(KeyError)
      && SinglePlacement(img, wmSrc, pct, margin, position).Ok?
      && SinglePlacement(img, wmSrc, pct, margin, position).value.origin == None
  {
  }

  /** With a non-negative margin and a watermark that leaves room for it, every position
      keeps the watermark wholly inside the image. */
  lemma InsideWhenFits(p: Position, img: Size, wm: Extent, m: int)
    requires 0 <= m
    requires 0 <= wm.w && wm.w + m <= img.w
    requires 0 <= wm.h && wm.h + m <= img.h
    ensures var o := Origin(p, img, wm, m);
      0 <= o.x && o.x + wm.w <= img.w && 0 <= o.y && o.y + wm.h <= img.h
  {
  }

  /** Nothing is clamped: a watermark plus margin wider than the image is placed at a
      negative abscissa in the right-hand positions, and one taller than the image at a
      negative ordinate in the bottom positions. */
  lemma Unclamped(img: Size, wm: Extent, m: int)
    ensures Origin(BottomRight, img, wm, m).x < 0 <==> img.w < wm.w + m
    ensures Origin(TopRight, img, wm, m).x < 0 <==> img.w < wm.w + m
    ensures Origin(BottomRight, img, wm, m).y < 0 <==> img.h < wm.h + m
    ensures Origin(BottomLeft, img, wm, m).y < 0 <==> img.h < wm.h + m
  {
  }

  /** A worked example: a 1000x800 photo, a 500x200 logo at 20 %
      with a 10-pixel margin, bottom right, gives a 200x80 watermark at (790, 710). */
  lemma BottomRightExample()
    ensures BatchPlacement(Size(1000, 800), Size(500, 200), 20, Some(10), "Bas Droite")
      == Ok(Placement(Extent(200, 80), Point(790, 710)))
  {
  }
}
