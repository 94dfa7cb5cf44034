/**
 This module strings the recorder's event handlers into sessions: the event
 loop delivers player buttons, action buttons, mouse presses and the
 "Remove Last Tag" button one at a time, and each handler runs to completion
 before the next event. The lemmas state what holds across whole sessions.
 */
module Session {
  import opened Optional
  import opened Normalize
  import CsvLog
  import opened Recorder

  /** The four inputs the recorder reacts to. */
  datatype Event =
    | PickPlayer(team: string, player: string)
    | PickAction(action: string)
    | Click(ev: ClickEvent)
    | Undo

  /** One event handled by its callback. */
  function Step(s: State, e: Event): (t: State)
    requires e.Undo? && |s.markers| > 0 ==> |s.coords| > 0
    ensures Valid(s) ==> Valid(t)
    ensures t.image == s.image
    ensures CsvLog.Records(s.log) <= CsvLog.Records(t.log)
  {
    match e
    case PickPlayer(team, player) => SetPlayer(s, team, player)
    case PickAction(action) => SetAction(s, action)
    case Click(ev) => OnClick(s, ev)
    case Undo => RemoveLastEntry(s)
  }

  /** A session: the events handled in order, starting from a state between events. */
  function Run(s: State, events: seq<Event>): (t: State)
    requires Valid(s)
    ensures Valid(t)
    ensures t.image == s.image
    decreases |events|
  {
    if events == [] then s else Run(Step(s, events[0]), events[1..])
  }

  /** Points clicked and not undone: two per logged record plus those still buffered. */
  function Tally(s: State): nat {
    2 * |Records(s)| + |s.coords|
  }

  /**
   Every accepted press adds one point to the tally, every effective undo
   takes one away, and all other events leave it alone.
   */
  lemma StepTally(s: State, e: Event)
    requires e.Undo? && |s.markers| > 0 ==> |s.coords| > 0
    ensures e.Click? && Accepts(s, e.ev) ==> Tally(Step(s, e)) == Tally(s) + 1
    ensures e.Undo? && |s.markers| > 0 ==> Tally(Step(s, e)) == Tally(s) - 1
    ensures !(e.Click? && Accepts(s, e.ev)) && !(e.Undo? && |s.markers| > 0) ==>
      Tally(Step(s, e)) == Tally(s)
  {
  }

  /**
   Across a session the log only grows: earlier records are never rewritten,
   a header is added only when the session creates the file, and a log that
   starts well formed (one leading header) stays so.
   */
  lemma {:induction false} RunAppendOnly(s: State, events: seq<Event>)
    requires Valid(s)
    ensures var t := Run(s, events);
      && Records(s) <= Records(t)
      && CsvLog.Headers(t.log) == CsvLog.Headers(s.log) + (if s.log.None? && t.log.Some? then 1 else 0)
      && (s.log.Some? ==> t.log.Some? && s.log.value <= t.log.value)
      && (CsvLog.WellFormed(s.log) ==> CsvLog.WellFormed(t.log))
    decreases |events|
  {
    if events != [] {
      var u := Step(s, events[0]);
      StepLog(s, events[0]);
      RunAppendOnly(u, events[1..]);
    }
  }

  /** One event changes the log by at most one appended record. */
  lemma StepLog(s: State, e: Event)
    requires e.Undo? && |s.markers| > 0 ==> |s.coords| > 0
    ensures var t := Step(s, e);
      t.log == s.log || exists r :: t.log == CsvLog.Append(s.log, r)
  {
  }

  /**
   Starting with an empty buffer and a full selection, two presses inside
   the image log exactly one record, from the first press to the second, and
   leave the buffer empty.
   */
  lemma TwoClicksLogOneRecord(s: State, a: ClickEvent, b: ClickEvent)
    requires |s.coords| == 0
    requires Accepts(s, a) && Accepts(s, b)
    ensures var t := OnClick(OnClick(s, a), b);
      && t.coords == [] && t.markers == [] && t.sel == s.sel
      && Records(t) == Records(s) + [MakeRecord(s, Point(a.xdata.value, a.ydata.value), Point(b.xdata.value, b.ydata.value))]
  {
  }

  /**
   A player change between the two presses of a pair keeps the pending
   point, and the pair is logged under the newly chosen team and player.
   */
  lemma PendingPointFollowsNewPlayer(s: State, team: string, player: string, ev: ClickEvent)
    requires Valid(s) && |s.coords| == 1
    requires Accepts(SetPlayer(s, team, player), ev)
    ensures var t := OnClick(SetPlayer(s, team, player), ev);
      && |Records(t)| == |Records(s)| + 1
      && var r := Records(t)[|Records(s)|];
      && r.team == team && r.player == player && r.action == s.sel.action.value
      && r.startX == Norm(s.coords[0].x, s.image.width)
      && r.startY == Norm(s.coords[0].y, s.image.height)
      && r.endX == Norm(ev.xdata.value, s.image.width)
      && r.endY == Norm(ev.ydata.value, s.image.height)
  {
  }

  /** Undo right after a press that did not complete a pair takes the recorder back exactly. */
  lemma UndoCancelsClick(s: State, ev: ClickEvent)
    requires Accepts(s, ev) && |s.coords| != 1
    ensures RemoveLastEntry(OnClick(s, ev)) == s
  {
  }

  /** Presses before a full selection is made are dropped: the buffer and the log stay as they were. */
  lemma {:induction false} ClicksWithoutSelectionIgnored(s: State, clicks: seq<ClickEvent>)
    requires Valid(s)
    requires !Truthy(s.sel.team) || !Truthy(s.sel.player) || !Truthy(s.sel.action)
    ensures Run(s, seq(|clicks|, i requires 0 <= i < |clicks| => Click(clicks[i]))) == s
    decreases |clicks|
  {
    var events := seq(|clicks|, i requires 0 <= i < |clicks| => Click(clicks[i]));
    if clicks != [] {
      assert events[1..] == seq(|clicks[1..]|, i requires 0 <= i < |clicks[1..]| => Click(clicks[1..][i]));
      ClicksWithoutSelectionIgnored(s, clicks[1..]);
    }
  }

  /**
   A 1000 x 500 image, team "Red", player "A", action "Shot", presses at
   (500, 250) and then (1000, 500), with no log file yet: the file is
   created with its header and the row Red, A, Shot, 50, 50, 100, 100.
   */
  lemma ShotScenario()
    ensures var t := Run(Init(Image(500, 1000), None),
                         [PickPlayer("Red", "A"), PickAction("Shot"),
                          Click(ClickEvent(true, Some(500.0), Some(250.0))),
                          Click(ClickEvent(true, Some(1000.0), Some(500.0)))]);
      && t.log == Some([CsvLog.Header, CsvLog.Row(Record("Red", "A", "Shot", 50, 50, 100, 100))])
      && t.coords == []
  {
  }

  /** A press at (10, 10) before anything is selected logs nothing and buffers nothing. */
  lemma NoSelectionScenario(image: Image, existing: CsvLog.File<Record>)
    ensures var t := Run(Init(image, existing), [Click(ClickEvent(true, Some(10.0), Some(10.0)))]);
      t.coords == [] && t.log == existing
  {
  }
}
