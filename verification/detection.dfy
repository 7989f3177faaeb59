/** Per-detection tests of the focus engine: which detections are relevant at
    all, where a box's centre lies relative to the focus band, and whether an
    in-focus box is close enough to be a danger.

    Units: confidence is in thousandths (per-mille), coordinates are whole
    pixels, and clock readings are whole milliseconds. */
module Detection {

  /** Only detections whose confidence is strictly above 0.55 are considered. */
  const ConfidenceThreshold: int := 550

  /** The labels the device announces; any other class is ignored. */
  const TargetObjects: seq<string> :=
    ["bottle", "cell phone", "person", "cup", "laptop", "mouse", "keyboard", "chair"]

  /** Half the width of the vertical focus band around the frame's centre line. */
  const FocusHalfWidth: int := 130

  /** An in-focus box taller than this many pixels is treated as dangerously close. */
  const DangerHeight: int := 400

  /** An axis-aligned box in frame pixel coordinates, corners (x1, y1) and (x2, y2). */
  datatype Box = Box(x1: int, y1: int, x2: int, y2: int)

  /** One detector output: class label, confidence in per-mille, and its box. */
  datatype Detection = Detection(name: string, confidence: int, box: Box)

  /** The detection passes both the confidence and the label filter. */
  predicate Relevant(d: Detection) {
    d.confidence > ConfidenceThreshold && d.name in TargetObjects
  }

  /** The relevant detections, in detector order. */
  function Filter(ds: seq<Detection>): (r: seq<Detection>)
    ensures |r| <= |ds|
    ensures forall i :: 0 <= i < |r| ==> Relevant(r[i])
  {
    if ds == [] then []
    else Filter(ds[..|ds| - 1]) + (if Relevant(ds[|ds| - 1]) then [ds[|ds| - 1]] else [])
  }

  /** The filter keeps exactly the relevant detections: nothing relevant is
      lost and nothing irrelevant survives. */
  lemma {:induction false} FilterMembers(ds: seq<Detection>, d: Detection)
    ensures d in Filter(ds) <==> d in ds && Relevant(d)
  {
    if ds != [] {
      var init, last := ds[..|ds| - 1], ds[|ds| - 1];
      FilterMembers(init, d);
      assert ds == init + [last];
    }
  }

  /** Filter unfolds one detection at a time from the end. */
  lemma FilterSnoc(ds: seq<Detection>, d: Detection)
    ensures Filter(ds + [d]) == Filter(ds) + (if Relevant(d) then [d] else [])
  {
  }

  /** Filtering an already filtered sequence changes nothing. */
  lemma {:induction false} FilterIdempotent(ds: seq<Detection>)
    ensures Filter(Filter(ds)) == Filter(ds)
  {
    if ds != [] {
      var init, last := ds[..|ds| - 1], ds[|ds| - 1];
      FilterIdempotent(init);
      assert ds == init + [last];
      FilterSnoc(init, last);
      if Relevant(last) {
        calc {
          Filter(Filter(ds));
          Filter(Filter(init) + [last]);
          { FilterSnoc(Filter(init), last); }
          Filter(Filter(init)) + [last];
          Filter(init) + [last];
        }
      } else {
        assert Filter(ds) == Filter(init);
      }
    }
  }

  /** Left edge of the focus band: half the width, rounded down, less 130. */
  function ZoneLeft(width: int): int { width / 2 - FocusHalfWidth }

  /** Right edge of the focus band: half the width, rounded down, plus 130. */
  function ZoneRight(width: int): int { width / 2 + FocusHalfWidth }

  /** Integer horizontal centre of a box, rounded down (floor division). */
  function Center(b: Box): (c: int)
    ensures 2 * c <= b.x1 + b.x2 < 2 * c + 2
  {
    (b.x1 + b.x2) / 2
  }

  /** The box's centre lies strictly inside the focus band. */
  predicate InFocus(width: int, b: Box) {
    ZoneLeft(width) < Center(b) < ZoneRight(width)
  }

  /** The box is taller than the danger threshold. */
  predicate TooClose(b: Box) {
    b.y2 - b.y1 > DangerHeight
  }

  /** A box is in focus exactly when the sum of its horizontal edges lies
      in the open band, widened to whole pixels: the floor of the centre is
      strictly between the band's edges. Centres on an edge are peripheral. */
  lemma InFocusIff(width: int, b: Box)
    ensures InFocus(width, b) <==>
      2 * ZoneLeft(width) + 2 <= b.x1 + b.x2 < 2 * ZoneRight(width)
  {
  }

  /** The band is 260 pixels wide and, for any frame at least 260 pixels
      wide, lies within the frame. */
  lemma ZoneBounds(width: int)
    ensures ZoneRight(width) - ZoneLeft(width) == 2 * FocusHalfWidth
    ensures width >= 2 * FocusHalfWidth ==> 0 <= ZoneLeft(width) && ZoneRight(width) <= width
  {
  }

  /** A centre exactly on either edge of the band is peripheral. */
  lemma EdgeIsPeripheral(width: int, b: Box)
    requires Center(b) == ZoneLeft(width) || Center(b) == ZoneRight(width)
    ensures !InFocus(width, b)
  {
  }

  /** Height 400 is not too close; height 401 is. */
  lemma DangerThreshold(b: Box)
    ensures b.y2 - b.y1 == DangerHeight ==> !TooClose(b)
    ensures b.y2 - b.y1 == DangerHeight + 1 ==> TooClose(b)
  {
  }
}
