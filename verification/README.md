# Tag recorder of the football tagger

This project models, in Dafny, the one piece of logic in the football tagging
tool with a real contract: the tag-recording state machine of
`CoordinateRecorder`. The user picks a team and player with a player button
and an action with an action button. They then click two points on the field
image: the start and the end of the action. The second click appends one row
to a CSV log: team, player, action, and the start and end positions as whole
percentages of the image width and height.

The model is functional. A `Recorder.State` holds:

- the image size;
- the selection;
- the buffer of clicked points;
- the parallel list of plotted markers;
- the log file, where `None` means the file does not exist and otherwise it holds its lines.

Each event handler is a pure function from state to state. `Session.Run`
replays a sequence of events in the order the event loop delivers them.

Files:

- `optional.dfy`: the `Option` type, which stands for Python's `None`-or-value.
- `normalize.dfy`: the conversion `int((v / extent) * 100)` and its bounds, endpoints and monotonicity.
- `csv_log.dfy`: the append-mode log, where the header is written only when the file is new.
- `recorder.dfy`: the recorder state and its handlers `set_player`, `set_action`, `onclick`, `save_coordinates`, `clear_points` and `remove_last_entry`.
- `session.dfy`: event sequences, plus the invariants and scenarios that hold across them.

Three points about how the code behaves:

- The conversion is Python's `int()`, which truncates toward zero. It is not a floor, and the two differ for negative coordinates. Matplotlib reports positions down to -0.5 pixel at the image's top and left edges. `Normalize.NormTruncatesTowardZero` states the difference.
- A selection field counts as set when it is truthy: not `None` and not the empty string (`Recorder.Truthy`).
- `save_coordinates` does not itself need a selection. A `None` field would be written as an empty cell (`Recorder.Cell`). It only needs two buffered points.

## Model

| member | source | states |
|---|---|---|
| Normalize.Trunc | tagger.py:114-117 | Python `int()` on a number: for x >= 0 the result n has n <= x < n + 1, and for x < 0 it has n - 1 < x <= n (rounding toward zero) |
| Normalize.TruncMonotone | tagger.py:114-117 | truncation toward zero is monotone non-decreasing |
| Normalize.NormBracket | tagger.py:114-117 | the normalised value n of v over extent e is the whole number with n*e <= 100*v < (n+1)*e for v >= 0, and (n-1)*e < 100*v <= n*e for v < 0 |
| Normalize.NormRange | tagger.py:114-117 | a coordinate with 0 <= v <= extent normalises to an integer in [0, 100] |
| Normalize.NormEndpoints | tagger.py:114-117 | coordinate 0 normalises to 0 and coordinate = extent normalises to exactly 100 |
| Normalize.NormMonotone | tagger.py:114-117 | normalisation is monotone non-decreasing in the coordinate |
| Normalize.NormTruncatesTowardZero | tagger.py:114-117 | a coordinate within one percent below zero normalises to 0, where a floor would give -1 |
| CsvLog.Append | tagger.py:129-130 | an append-mode save adds exactly one data row after all existing rows, leaves earlier lines untouched, and adds a header if and only if the file did not exist |
| CsvLog.AppendWellFormed | tagger.py:129-130 | a log holding one leading header and only data rows after it keeps that shape after a save, and a newly created log has that shape |
| Recorder.Cell | tagger.py:119-127 | a truthy selection field goes into the row as its text, and a `None` field goes in as an empty cell |
| Recorder.Init | tagger.py:13-18 | a new recorder keeps the given image, has team, player and action all `None`, an empty buffer in lockstep with no markers, and the log file as it was found |
| Recorder.SetPlayer | tagger.py:93-95 | a player button sets team and player, and leaves the action, the buffer, the markers and the log as they were |
| Recorder.SetAction | tagger.py:97-98 | an action button sets the action, and leaves team, player, the buffer, the markers and the log as they were |
| Recorder.MakeRecord | tagger.py:111-127 | a row carries the current team, player and action; its start is the first point and its end the second, each x normalised by the image width and each y by the height; each value is within [0, 100] when 0 <= coordinate <= extent on that axis, and the order of the points along each axis is kept |
| Recorder.SaveCoordinates | tagger.py:110-130 | saving appends exactly the row built from the first two buffered points to the log's records, creates an absent file as exactly the header followed by that row, keeps every existing line of the file as a prefix, and changes nothing else |
| Recorder.ClearPoints | tagger.py:134-139 | clearing empties the buffer and the markers together, and keeps the selection and the log |
| Recorder.OnClick | tagger.py:100-108 | a press changes the state if and only if it is in the image axes with both data coordinates and a truthy team, player and action; an accepted first point is buffered with its marker; an accepted second point logs one row (start = first point, end = this one) and empties the buffer; at most one pending point and marker lockstep are preserved |
| Recorder.RemoveLastEntry | tagger.py:141-148 | with a marker plotted, undo drops exactly the most recent point and its marker and keeps the earlier ones; with none it changes nothing; the selection and the log never change; the invariant is preserved |
| Session.Step | tagger.py:93-148 | every handler preserves "at most one pending point, markers in lockstep" and keeps the logged records as a prefix |
| Session.Run | tagger.py:93-148 | between events of any session the buffer holds 0 or 1 points and the markers match it one for one |
| Session.StepTally | tagger.py:100-148 | two points per logged row plus the points still buffered goes up by one for each accepted press, down by one for each effective undo, and is unchanged by every other event |
| Session.StepLog | tagger.py:106-108 | a single event either leaves the log as it was or appends one record to it |
| Session.RunAppendOnly | tagger.py:129-130 | over a session, earlier records and lines are never rewritten; at most one header is added, and only when the session creates the file; a log with one leading header keeps exactly one |
| Session.TwoClicksLogOneRecord | tagger.py:100-117 | from an empty buffer with a full selection, two accepted presses log exactly one row (first press is the start, second the end) and leave buffer and markers empty |
| Session.PendingPointFollowsNewPlayer | tagger.py:93-108 | a player change between the two presses keeps the pending point, and the pair is logged under the new team and player |
| Session.UndoCancelsClick | tagger.py:141-146 | undo right after a press that did not complete a pair restores the exact state from before the press |
| Session.ClicksWithoutSelectionIgnored | tagger.py:101 | any number of presses made before team, player and action are all truthy leave the whole state unchanged |
| Session.ShotScenario | tagger.py:110-130 | 1000 x 500 image, Red / A / Shot, presses at (500, 250) and (1000, 500) with no log yet: the file is created as a header plus the row Red, A, Shot, 50, 50, 100, 100 |
| Session.NoSelectionScenario | tagger.py:101 | a press at (10, 10) before any selection buffers nothing and leaves the log as it was |

## Left out

- Drawing is not modelled: `imshow`, `plot`, `plt.draw`, and marker `remove()`. A marker is represented only by the point it marks.
- The event plumbing is not modelled: `mpl_connect`, `plt.show`, and the module-level start-up code. Which screen positions give `inaxes == ax` and which data coordinates they give is decided by Matplotlib. A press is therefore taken as its `inaxes` test plus optional `xdata`/`ydata`.
- `add_buttons`, `clear_buttons` and `refresh_ui` are widget layout and are not modelled. This includes the `IndexError` that `add_buttons` raises with more than ten actions.
- `load_config` and the `ConfigEditor` window are not modelled, including the save-then-reload round trip of the configuration. They are JSON file I/O behind a Tk form. The recorder takes whatever strings the buttons pass and does not check them against the roster.
- Roster entries and action names are taken to be strings. The buttons pass the configuration's raw JSON values, so a number, `false` or `null` could reach `set_player` or `set_action`. Such non-string values, and their Python truthiness (a `0`, `false` or `null` drops every press), are not modelled.
- `open_csv_folder` and `open_csv_file` are not modelled. They only hand a path to the operating system.
- The console messages ("Saved: …" and "No points to remove.") are output only and are not modelled.
- The CSV text format written by pandas is not modelled. A log line is either the header or one record. Quoting, column text and the encoding of numbers are not represented.
- The file system is not modelled. The log's existence is part of the state, and the recorder is its only writer. Changes to the file by other programs between events are not modelled.
- Write failures are not modelled. If the write at tagger.py:130 raises, `clear_points` at tagger.py:108 is skipped and two points stay buffered. Later presses only make the buffer longer, so none of them logs a record until undos bring the buffer back below two points. The invariant stated by `Recorder.Valid` and `Session.Run` (at most one pending point) no longer holds in that case.
- Floating point is not modelled: the normalisation computes with exact reals, not IEEE doubles. A float quotient that rounds just below a whole number, and so truncates one lower, is not modelled.
- The image file is not read. The image is represented only by its height and width, which are both positive.
