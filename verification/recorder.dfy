/**
 This module models the tag-recording state machine of `CoordinateRecorder`
 (tagger.py): a selection of team, player and action chosen by buttons, a
 buffer of clicked image points with a parallel list of plotted markers, and
 the log file that each completed start/end pair is appended to. Drawing is
 abstracted away: a plotted marker is remembered only by the point it marks.
 */
module Recorder {
  import opened Optional
  import opened Normalize
  import CsvLog

  /** The displayed image's size; `height` is `shape[0]`, `width` is `shape[1]`. */
  datatype Image = Image(height: Extent, width: Extent)

  /** A raw click position in image pixel coordinates. */
  datatype Point = Point(x: real, y: real)

  /** A red dot drawn on the image at a buffered point. */
  datatype Marker = Marker(at: Point)

  /** The chosen team, player and action; each is unset (`None`) at start-up. */
  datatype Selection = Selection(team: Option<string>, player: Option<string>, action: Option<string>)

  /** One log row: who did what, from where to where, in whole percentages of the image. */
  datatype Record = Record(team: string, player: string, action: string,
                           startX: int, startY: int, endX: int, endY: int)

  /** A mouse press as the event loop delivers it. */
  datatype ClickEvent = ClickEvent(inAxes: bool, xdata: Option<real>, ydata: Option<real>)

  datatype State = State(image: Image, sel: Selection,
                         coords: seq<Point>, markers: seq<Marker>,
                         log: CsvLog.File<Record>)

  /** Python truthiness of an optional string: set and non-empty. */
  predicate Truthy(o: Option<string>) {
    o.Some? && o.value != ""
  }

  /** The text a selection field contributes to a row; pandas writes `None` as an empty cell. */
  function Cell(o: Option<string>): (s: string)
    ensures Truthy(o) ==> s == o.value
    ensures o.None? ==> s == ""
  {
    o.GetOr("")
  }

  /** The records logged so far. */
  function Records(s: State): seq<Record> {
    CsvLog.Records(s.log)
  }

  /** The buffer and the markers grow and shrink together, marker `i` marking point `i`. */
  predicate Lockstep(s: State) {
    && |s.markers| == |s.coords|
    && forall i :: 0 <= i < |s.coords| ==> s.markers[i].at == s.coords[i]
  }

  /** The state between events: at most one pending point, markers in lockstep. */
  predicate Valid(s: State) {
    |s.coords| <= 1 && Lockstep(s)
  }

  /** The recorder as constructed: nothing selected, nothing buffered, the log file as found. */
  function Init(image: Image, existing: CsvLog.File<Record>): (s: State)
    ensures Valid(s) && |s.coords| == 0
    ensures s.image == image && s.sel == Selection(None, None, None)
    ensures !Truthy(s.sel.team) && !Truthy(s.sel.player) && !Truthy(s.sel.action)
    ensures s.log == existing
  {
    State(image, Selection(None, None, None), [], [], existing)
  }

  /** A player button: sets team and player together, and nothing else. */
  function SetPlayer(s: State, team: string, player: string): (t: State)
    ensures t.sel.team == Some(team) && t.sel.player == Some(player)
    ensures t.sel.action == s.sel.action
    ensures t.image == s.image && t.coords == s.coords && t.markers == s.markers && t.log == s.log
  {
    s.(sel := s.sel.(team := Some(team), player := Some(player)))
  }

  /** An action button: sets the action, and nothing else. */
  function SetAction(s: State, action: string): (t: State)
    ensures t.sel.action == Some(action)
    ensures t.sel.team == s.sel.team && t.sel.player == s.sel.player
    ensures t.image == s.image && t.coords == s.coords && t.markers == s.markers && t.log == s.log
  {
    s.(sel := s.sel.(action := Some(action)))
  }

  /** The guard of `onclick`: inside the image, with data coordinates, and a full selection. */
  predicate Accepts(s: State, ev: ClickEvent) {
    && ev.inAxes && ev.xdata.Some? && ev.ydata.Some?
    && Truthy(s.sel.action) && Truthy(s.sel.team) && Truthy(s.sel.player)
  }

  /** The row for a start point `p` and end point `q` under the current selection. */
  function MakeRecord(s: State, p: Point, q: Point): (r: Record)
    ensures r.team == Cell(s.sel.team) && r.player == Cell(s.sel.player) && r.action == Cell(s.sel.action)
    ensures r.startX == Norm(p.x, s.image.width) && r.startY == Norm(p.y, s.image.height)
    ensures r.endX == Norm(q.x, s.image.width) && r.endY == Norm(q.y, s.image.height)
    ensures WithinExtent(p, s.image) ==> 0 <= r.startX <= 100 && 0 <= r.startY <= 100
    ensures WithinExtent(q, s.image) ==> 0 <= r.endX <= 100 && 0 <= r.endY <= 100
    ensures p.x <= q.x ==> r.startX <= r.endX
    ensures p.y <= q.y ==> r.startY <= r.endY
  {
    var w := s.image.width;
    var h := s.image.height;
    NormBounds(p, s.image);
    NormBounds(q, s.image);
    NormOrder(p, q, s.image);
    Record(Cell(s.sel.team), Cell(s.sel.player), Cell(s.sel.action),
           Norm(p.x, w), Norm(p.y, h), Norm(q.x, w), Norm(q.y, h))
  }

  /**
   A point with 0 <= coordinate <= extent on both axes. Matplotlib's data
   coordinates for a displayed image run from -0.5 to extent - 0.5, so a
   press on the left or top half-pixel lies outside this range.
   */
  predicate WithinExtent(p: Point, image: Image) {
    0.0 <= p.x <= image.width as real && 0.0 <= p.y <= image.height as real
  }

  /** Points within the extents normalise into [0, 100] on both axes. */
  lemma NormBounds(p: Point, image: Image)
    ensures WithinExtent(p, image) ==> 0 <= Norm(p.x, image.width) <= 100 && 0 <= Norm(p.y, image.height) <= 100
  {
  }

  /** Normalisation keeps the order of two points along each axis. */
  lemma NormOrder(p: Point, q: Point, image: Image)
    ensures p.x <= q.x ==> Norm(p.x, image.width) <= Norm(q.x, image.width)
    ensures p.y <= q.y ==> Norm(p.y, image.height) <= Norm(q.y, image.height)
  {
    if p.x <= q.x { NormMonotone(p.x, q.x, image.width); }
    if p.y <= q.y { NormMonotone(p.y, q.y, image.height); }
  }

  /**
   Writing the first two buffered points as one row: the first is the start,
   the second the end, x scaled by the width and y by the height. Only the
   log changes.
   */
  function SaveCoordinates(s: State): (t: State)
    requires |s.coords| >= 2
    ensures t.image == s.image && t.sel == s.sel && t.coords == s.coords && t.markers == s.markers
    ensures Records(t) == Records(s) + [MakeRecord(s, s.coords[0], s.coords[1])]
    ensures CsvLog.Headers(t.log) == CsvLog.Headers(s.log) + (if s.log.None? then 1 else 0)
    ensures s.log.Some? ==> t.log.Some? && s.log.value < t.log.value
    ensures s.log.None? ==> t.log == Some([CsvLog.Header, CsvLog.Row(MakeRecord(s, s.coords[0], s.coords[1]))])
  {
    s.(log := CsvLog.Append(s.log, MakeRecord(s, s.coords[0], s.coords[1])))
  }

  /** Removing every marker and emptying the buffer; selection and log stay. */
  function ClearPoints(s: State): (t: State)
    ensures |t.coords| == 0 && Valid(t)
    ensures t.image == s.image && t.sel == s.sel && t.log == s.log
  {
    s.(coords := [], markers := [])
  }

  /**
   A mouse press. A rejected press changes nothing. An accepted one buffers
   the point with its marker; when that makes two points, one row is logged
   and the buffer is cleared.
   */
  function OnClick(s: State, ev: ClickEvent): (t: State)
    ensures t == s <==> !Accepts(s, ev)
    ensures t.image == s.image && t.sel == s.sel
    ensures Accepts(s, ev) && |s.coords| != 1 ==>
      var p := Point(ev.xdata.value, ev.ydata.value);
      t.coords == s.coords + [p] && t.markers == s.markers + [Marker(p)] && t.log == s.log
    ensures Accepts(s, ev) && |s.coords| == 1 ==>
      var p := Point(ev.xdata.value, ev.ydata.value);
      && t.coords == [] && t.markers == []
      && Records(t) == Records(s) + [MakeRecord(s, s.coords[0], p)]
    ensures Valid(s) ==> Valid(t)
  {
    if !Accepts(s, ev) then s
    else
      var p := Point(ev.xdata.value, ev.ydata.value);
      var u := s.(coords := s.coords + [p], markers := s.markers + [Marker(p)]);
      assert |u.coords| == |s.coords| + 1;
      if |u.coords| == 2 then
        assert u.coords[0] == s.coords[0] && u.coords[1] == p;
        var t := ClearPoints(SaveCoordinates(u));
        assert |Records(t)| == |Records(s)| + 1;
        t
      else u
  }

  /**
   The "Remove Last Tag" button: when a marker is plotted, the most recent
   point and its marker go; otherwise nothing changes.
   */
  function RemoveLastEntry(s: State): (t: State)
    requires |s.markers| > 0 ==> |s.coords| > 0
    ensures |s.markers| == 0 ==> t == s
    ensures |s.markers| > 0 ==>
      && t.coords == s.coords[..|s.coords| - 1]
      && t.markers == s.markers[..|s.markers| - 1]
    ensures t.image == s.image && t.sel == s.sel && t.log == s.log
    ensures Valid(s) ==> Valid(t)
  {
    if |s.markers| > 0 then
      s.(coords := s.coords[..|s.coords| - 1], markers := s.markers[..|s.markers| - 1])
    else s
  }
}
