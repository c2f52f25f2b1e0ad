# Lift controller with a person-presence safety stop

This project models the controller of a simulated lift (elevator) and the
small text handling around it, and proves what it does.

- **The first controller (lift.py).** A cabin with a current floor, a
  direction (1 up, -1 down, 0 stopped) and a FIFO queue of `(floor, direction)`
  requests. `process_requests` pops requests from the head and moves one floor
  per call of `move` until the cabin stands on the requested floor.
- **The final controller (lift_final.py).** The same cabin, plus a
  `stopped_due_to_no_person` flag. After every floor transit, `move` reads the
  person detector. A negative reading stops the cabin on the floor just
  reached, abandons the rest of that request and raises the flag. `main`
  answers a raised flag with `reset_lift`.
- **The operator's input rule** shared by both `main` loops: quit on `q`/`Q`,
  refuse text `int()` cannot read, refuse floors outside `[1, 10]`, otherwise
  queue the floor and drain the queue.
- **The label file loader `load_label_dict`** (the same in lift_final.py and
  ssd_camera.py): `id:name` lines into a dictionary.
- **The detector's decision rule.** The for/else scan that sets
  `person_detected` from the rows of one frame.
- **The labelling loop of ssd_camera.py.** It labels every confident detection
  with its class name, or `'unknown'` when the id is not in the dictionary.

Modules, one per concern:

- `PyText` (text.dfy): Python's `str.strip`, `str.split`, `int()` and their
  inverses `str(n)` and `sep.join`.
- `Floors` (floors.dfy): requests, the run of floors between two floors, and
  the route of a whole queue.
- `Operator` (operator.dfy): the input rule of `main`.
- `BasicLift` (lift.dfy): the class `Lift` of lift.py and one pass of its
  `main`.
- `FinalLift` (lift_final.dfy): the class `Lift` of lift_final.py and one pass
  of its `main`.
- `Labels` (labels.dfy): the label file and `label_dict.get(id, 'unknown')`.
- `PersonDetection` (detection.dfy): the detection scan, the detector's state
  and the labelling loop.

## How the model is built

**The presence signal.** In the source, the detector's flag is written by
another thread and read by `move`. Here it is an input `presence: iset<nat>`
indexed by a logical clock that counts floor transits: `t in presence` holds
when a person was seen right after transit `t`. Each lift method is proved
against a function of its old state:

- `Move` against `Travel`;
- `ProcessRequests` against `Drain` (final controller) or `Route` (first
  controller);
- `LoadLabelDict` against `LabelFile`;
- `LabelDetections` against `Labelled`.

The properties are proved as lemmas about those functions. The cabin's trail
of floors (what the source prints) is a ghost field `visited`.

**Behaviour of the code worth knowing:**

- `add_request` appends any floor without checking it. Only `main` refuses
  floors outside the building.
- `process_requests` does not stop at a safety abort. It serves the rest of
  the queue from the floor where the cabin stopped, and the flag is never
  consulted while draining (`FinalLift.DrainIgnoresHalt`,
  `FinalLift.DrainContinuesAfterAbort`). So the queue is already empty when
  `reset_lift` runs.
- The raised flag does not block later requests. `main` resets it only after
  the drain.
- The detector's flag starts out `False`, so no person is assumed before the
  first frame.
- Presence is read only after a transit: a request for another floor always
  moves the cabin at least one floor (`FinalLift.DepartsBeforeChecking`).

## Model

| member | source | states |
|---|---|---|
| PyText.Trim | ssd_camera.py:9 | cutting a class of characters from both ends leaves a slice of the text with only that class before and after it, none at either end, empty exactly when the text is all of that class |
| PyText.Strip | ssd_camera.py:9 | `strip()` removes whitespace and nothing else, only from the two ends: the result is a slice of the text with only whitespace before and after it, it has no whitespace at either end, and it is empty exactly when the text is all whitespace |
| PyText.StripNewline | ssd_camera.py:8-9 | the newline a file line ends with is removed by `strip()`, leaving unpadded text intact |
| PyText.Split | ssd_camera.py:9 | `split(':')` gives one more field than there are separators, and no field holds one |
| PyText.JoinSplit | ssd_camera.py:9 | joining the fields of a split with the separator gives back the text |
| PyText.SplitJoin | ssd_camera.py:9 | splitting a join of separator-free fields gives back the fields |
| PyText.ParseInt | lift.py:55 | `int()` on a `str`: the surrounding whitespace it skips is cut (U+001C to U+001F excepted), then one optional sign and a digit run with single underscores between digits is read, and anything else is the `ValueError`; its properties are the `ParseDecimal`, `ParseUnsigned`, `ParseNegative`, `ParseIntRefusesSeparator` and `ParseIntStrip` rows |
| PyText.ParseDecimal | lift.py:55 | `int(str(n)) == n` for every integer, negative ones included |
| PyText.ParseUnsigned | lift.py:55 | `int()` reads an unpadded digit run (underscores between digits allowed) as its value |
| PyText.ParseNegative | lift.py:55 | `int()` reads a minus sign and a digit run as the negated value |
| PyText.NatDecimalValue | lift.py:55 | the digits of `str(n)` read back as `n` |
| PyText.ParseIntRefusesSeparator | lift.py:55 | `int()` refuses any text holding one of U+001C to U+001F, at either end as well as inside, although `str.isspace()` counts them as whitespace |
| PyText.ParseIntStrip | lift.py:55 | on text without those separators, `int()` skips exactly the whitespace `strip()` removes |
| PyText.TrimAgree | lift.py:55 | cutting by two character tests that agree on every character of the text gives the same result |
| Floors.Interval | lift.py:28-36 | the floors reached between two floors number exactly the distance between them |
| Floors.IntervalAt | lift.py:28-36 | the i-th floor reached is i + 1 floors from the start, on the target's side |
| Floors.IntervalShape | lift.py:28-36 | one floor per transit, strictly towards the target, every floor between start and target, ending on the target |
| Floors.IntervalEnd | lift.py:28-36 | a run between two floors ends on the target |
| Floors.IntervalExtendUp | lift.py:30-31 | one more upward transit adds exactly the floor reached to the run |
| Floors.IntervalExtendDown | lift.py:35-36 | one more downward transit adds exactly the floor reached to the run |
| Floors.Route | lift.py:22-37 | the floors the first controller reaches draining a queue: the run to each request's floor from the previous one, in insertion order; its properties are the `Route...` rows below |
| Floors.RouteSingle | lift.py:22-37 | a one-request queue is served by one run to its floor |
| Floors.RouteLength | lift.py:22-37 | draining a queue takes exactly the sum of the distances between consecutive stops |
| Floors.RouteSteps | lift.py:22-37 | the route of a queue moves one floor per transit and ends on the last request's floor |
| Floors.IntervalSteps | lift.py:28-36 | a run between two floors moves exactly one floor per transit |
| Floors.RouteUnitSteps | lift.py:22-37 | draining a queue moves exactly one floor per transit, across request boundaries too |
| Floors.RouteEnd | lift.py:22-37 | draining a queue leaves the cabin on the last request's floor, or where it was when nothing was queued |
| Floors.RouteWithin | lift.py:22-37 | with the start and every request in a floor range, every floor reached is in it |
| Floors.AllWithinAppend | lift.py:56-60 | queuing a checked floor keeps every queued floor within range |
| Floors.UnitStepsAppend | lift.py:22-37 | single-floor steps continue across consecutive runs |
| Operator.IsQuit | lift.py:50-51 | the input quits exactly when its lower-case form is `q`, that is when it is `q` or `Q`; `Classify` and `DecimalNotQuit` use it |
| Operator.Classify | lift.py:50-59 | exactly `q`/`Q` quits; exactly the lines `int()` refuses are invalid input (including any line holding U+001C to U+001F, which `int()` does not skip; no digit limit, see `PyText.ParseInt` below); integers outside `[1, 10]` are refused; an accepted floor goes up iff above the cabin, else down |
| Operator.ClassifyNumber | lift_final.py:155-159 | a typed number becomes a request for a floor of the building and is otherwise refused as an invalid floor |
| Operator.ClassifyRead | lift.py:50-59 | a line that is not a quit and that `int()` reads as `n` requests floor `n` when it is in the building, and is otherwise an invalid floor |
| Operator.DecimalNotQuit | lift.py:50-51 | the text form of a number is never taken for a quit |
| Operator.SeparatorRefused | lift.py:55-63 | a leading U+001C before a floor number makes the line invalid input rather than a request |
| BasicLift.Lift.constructor | lift.py:4-8 | floor 1, stopped, nothing queued |
| BasicLift.Lift.Move | lift.py:10-14 | one floor up, one floor down or none, as the direction says; nothing else changes |
| BasicLift.Lift.Stop | lift.py:18-20 | direction 0, nothing else changes |
| BasicLift.Lift.AddRequest | lift.py:39-40 | the request is appended at the tail unchecked; nothing else changes |
| BasicLift.Lift.ProcessRequests | lift.py:22-37 | queue emptied; on a non-empty queue the cabin ends stopped on the last request's floor; the floors reached are exactly the route of the queue in insertion order |
| BasicLift.Lift.ServeNext | lift.py:24-37 | the head request is popped and served completely: the cabin moves through exactly the floors between it and the target, then stops there |
| BasicLift.MainStep | lift.py:49-63 | quits exactly on `q`/`Q`; an accepted floor is queued and the queue drained at once, so from an empty queue the cabin goes straight to it; refused input changes nothing; the cabin never leaves the building |
| FinalLift.Travel | lift_final.py:87-101 | one `move`: floor by floor towards the target, reading the detector after each transit, ending at the target or at the first transit after which nobody is seen (aborted); its properties are the `Travel...` rows below and `FinalLift.Lift.Move` is proved against it |
| FinalLift.TravelShape | lift_final.py:87-101 | `move` reaches a prefix of the full run, at least one floor when the target is elsewhere, none when it is the current floor, the whole run unless aborted |
| FinalLift.TravelCompletes | lift_final.py:87-94 | with a person seen after every transit, `move` reaches the target and is not aborted |
| FinalLift.TravelStopsAtFirstAbsence | lift_final.py:96-101 | the first transit followed by no person ends `move` on the floor it reached, aborted |
| FinalLift.TravelAdvance | lift_final.py:88-97 | a transit followed by a person continues the same trip from the floor reached |
| FinalLift.TravelHalt | lift_final.py:96-101 | a transit followed by no person ends the trip on the floor reached |
| FinalLift.TravelWithin | lift_final.py:87-101 | a trip between two floors of a range, aborted or not, stays in the range |
| FinalLift.Serve | lift_final.py:109-120 | one request of `process_requests`: the cabin travels to its floor as `Travel` says, the trail grows by the floors reached and an abort raises the flag; `Drain` applies it to each request in order |
| FinalLift.Drain | lift_final.py:107-120 | draining only extends the trail of floors, and a raised flag stays raised |
| FinalLift.DrainAppend | lift_final.py:108-110 | requests are served in insertion order: draining `a + b` is draining `a`, then `b` |
| FinalLift.DrainIgnoresHalt | lift_final.py:107-120 | the flag never changes how the queue is served; afterwards it is the old flag or a new abort |
| FinalLift.DrainAllPresent | lift_final.py:107-120 | with a person seen after every transit, the final controller serves the queue exactly as the first one does |
| FinalLift.DrainWithin | lift_final.py:107-120 | starting in `[lo, hi]` with all requests in it, every floor reached and the final floor are in it |
| FinalLift.AbortAtFifthFloor | lift_final.py:87-101 | from floor 3 towards 8, with no person seen after the second transit, the cabin stops on floor 5 with the flag raised |
| FinalLift.ServeDownFromFifth | lift_final.py:87-94 | from floor 5 towards floor 1, with a person seen after every transit, the cabin passes floors 4, 3 and 2 and ends on floor 1 |
| FinalLift.DrainContinuesAfterAbort | lift_final.py:107-120 | after that stop, the next queued request is still served, from floor 5 |
| FinalLift.DepartsBeforeChecking | lift_final.py:88-97 | with nobody ever seen, a request elsewhere still moves the cabin one floor |
| FinalLift.Lift.constructor | lift_final.py:79-85 | floor 1, stopped, nothing queued, flag lowered |
| FinalLift.Lift.Move | lift_final.py:87-101 | the floors reached are those of `Travel`; the cabin ends on the last of them; an abort stops the cabin and raises the flag |
| FinalLift.Lift.Transit | lift_final.py:88-96 | one floor towards the target, added to the trail, then the detector's reading for that transit; nothing else changes |
| FinalLift.Lift.Stop | lift_final.py:103-105 | direction 0, nothing else changes, the trail invariant kept |
| FinalLift.Lift.ProcessRequests | lift_final.py:107-120 | queue emptied, cabin stopped, floor, flag and trail as `Drain` of the old queue gives them |
| FinalLift.Lift.AddRequest | lift_final.py:122-123 | the request is appended at the tail unchecked; nothing else changes, the trail invariant kept |
| FinalLift.Lift.ResetLift | lift_final.py:129-132 | queue emptied, direction 0, flag lowered, floor unchanged, the trail invariant kept |
| FinalLift.MainStep | lift_final.py:148-166 | quitting stops the detector; an accepted floor is queued and drained, then a raised flag is reset; refused numbers skip the reset; starting idle inside the building the lift ends idle inside it |
| Labels.ParseLine | ssd_camera.py:9-10 | one line of the label file: stripped, split at ':', refused unless there are exactly two fields and `int()` reads the first, otherwise the entry of that id and the stripped second field; its properties are the `ParseLineShape`, `SeparatorInIdRefused`, `ParseLineFields` and `ParseRender...` rows |
| Labels.ParseLineShape | ssd_camera.py:9-10 | a line is refused for its shape iff its stripped text does not hold exactly one ':'; with exactly one ':' it is accepted iff `int()` reads the first field (which refuses U+001C to U+001F anywhere in it, see `Labels.SeparatorInIdRefused`), and the entry is then that integer with the second field stripped as its name; an accepted name holds no ':' and no padding |
| Labels.SeparatorInIdRefused | ssd_camera.py:9-10 | a line with one ':' whose id holds one of U+001C to U+001F is refused for its id |
| Labels.StripIdempotent | ssd_camera.py:10 | stripping twice is stripping once |
| Labels.StripKeeps | ssd_camera.py:10 | `strip()` adds no character: every character of the stripped name was in the field |
| Labels.RenderSplit | ssd_camera.py:9 | an `id:name` line splits into the id's digits and the name |
| Labels.RenderUnpadded | ssd_camera.py:9 | an `id:name` line with an unpadded name starts and ends with a non-whitespace character |
| Labels.RenderStripBare | ssd_camera.py:9 | `strip()` leaves an `id:name` line without a newline unchanged |
| Labels.RenderStripNewline | ssd_camera.py:8-9 | `strip()` removes exactly the newline of an `id:name` line |
| Labels.ParseLineFields | ssd_camera.py:9-10 | a line whose stripped text splits into the digits of an id and an unpadded name reads as that entry |
| Labels.ParseRender | ssd_camera.py:9-10 | an `id:name` line without its newline reads back as that entry |
| Labels.ParseRenderLine | ssd_camera.py:8-10 | an `id:name` line ending in a newline reads back as that entry |
| Labels.BlankLineRefused | ssd_camera.py:9 | a blank line is refused, having a single field |
| Labels.CollectStep | ssd_camera.py:8-10 | one more accepted line appends its entry; one more refused line fails there |
| Labels.CollectErrExtends | ssd_camera.py:8-10 | after a refused line, nothing later changes the outcome |
| Labels.CollectOk | ssd_camera.py:8-10 | a successful load has one entry per line, each the parse of its line |
| Labels.CollectErr | ssd_camera.py:8-10 | a failed load names a refused line, and every line before it was accepted |
| Labels.LabelFile | ssd_camera.py:5-11 | the outcome of `load_label_dict`: the first refused line, or the dictionary filled from every line's entry in file order; its properties are the `LabelFileOk` and `LabelFileErr` rows, and `LoadLabelDict` is proved against it |
| Labels.LabelFileOk | ssd_camera.py:5-11 | loading succeeds iff every line is accepted, and the dictionary then holds the lines' entries in file order |
| Labels.LabelFileErr | ssd_camera.py:8-10 | loading fails at the first refused line |
| Labels.Fill | ssd_camera.py:10 | the dictionary the loop builds: each entry sets its id to its name in file order; its properties are the `Fill...` rows |
| Labels.FillStep | ssd_camera.py:10 | one more entry sets its id to its name, overwriting any earlier one |
| Labels.FillKeys | ssd_camera.py:10 | the dictionary's keys are exactly the ids read |
| Labels.FillLastWins | ssd_camera.py:10 | for an id on several lines the last line wins |
| Labels.LoadLabelDict | ssd_camera.py:5-11 | the loop's result is `LabelFile` of the lines: the filled dictionary, or the first refused line (the detector's copy at lift_final.py:70-76 is the same loop) |
| Labels.Lookup | ssd_camera.py:58 | `label_dict.get(id, 'unknown')`: the name the dictionary maps the id to, or `"unknown"`; `LookupNamed` states what it gives |
| Labels.LookupNamed | ssd_camera.py:58 | a lookup yields a name other than "unknown" iff the dictionary maps the id to it |
| PersonDetection.IsPerson | lift_final.py:54-57 | a row of the scan counts as a person when its score is above 0.5 and its looked-up label is `"person"`; `IsPersonLabelled` states what that means for the dictionary |
| PersonDetection.IsPersonLabelled | lift_final.py:54-57 | a detection counts as a person iff it is confident and the dictionary names its class "person"; the fallback never does |
| PersonDetection.DetectPerson | lift_final.py:52-61 | the for/else scan answers true iff some row among the first `num_detections` is a confident "person", false otherwise, with no rows included |
| PersonDetection.ObjectDetection.constructor | lift_final.py:8-10 | no person detected, not stopped |
| PersonDetection.ObjectDetection.ScanFrame | lift_final.py:52-61 | each frame replaces the flag with that frame's decision |
| PersonDetection.ObjectDetection.StopDetection | lift_final.py:67-68 | the stop flag is raised, the decision kept |
| PersonDetection.Labelled | ssd_camera.py:54-58 | the labels the loop draws: one per confident row among the first `num_detections`, in row order, with the looked-up name; its properties are the `Labelled...` rows |
| PersonDetection.LabelledRows | ssd_camera.py:54-58 | every label belongs to a confident row among the first `num_detections` and carries its looked-up name |
| PersonDetection.LabelledOrdered | ssd_camera.py:54 | labels follow the row order, no row twice |
| PersonDetection.LabelledComplete | ssd_camera.py:54-56 | every confident row among the first `num_detections` gets a label |
| PersonDetection.LabelledShape | ssd_camera.py:54-58 | exactly the confident rows are labelled, in order, each with its class name or "unknown" |
| PersonDetection.LabelDetections | ssd_camera.py:54-58 | the labelling loop draws `Labelled` of the rows |
| PersonDetection.PersonShownIffDetected | ssd_camera.py:54-58 | a "person" label is drawn on a frame iff the lift's scan of the same rows reports a person |

## Left out

- Threads. The detection thread and the extra `lift_thread`, which runs
  `process_requests` alongside `main`'s own calls, are not modelled. Calls are
  sequential and the detector's flag is an input indexed by transit count.
- The frame loop of `detect_person` and of ssd_camera.py's `main`: camera
  capture, TensorFlow inference, the window, key polling and releasing the
  camera. Only one pass of the scan (`ScanFrame`) and of the labelling loop is
  modelled.
- Scores are floating point. Each row keeps only whether `score > 0.5` held;
  boxes and their scaling are left out, and so is the text drawn beside a
  label (the score with two decimals).
- `time.sleep` and every `print`. The floors announced by `move` are kept as
  the ghost trail `visited`.
- Opening the label file. `load_label_dict` is given the file's lines, each
  with its trailing newline if it had one.
- PyText.ParseInt: accepts only ASCII digits, whereas Python's `int()` also
  accepts other Unicode decimal digits.
- PyText.ParseInt: does not model CPython's limit of 4300 digits on `int()`
  of decimal text (and on `str(n)`). Longer input raises `ValueError` there
  and is read as a number here, so such a line counts as an invalid floor
  rather than invalid input; no lift state differs.
- PyText.ParseDecimal: proves `int(str(n)) == n` for integers of any length;
  in CPython both conversions refuse more than 4300 digits, so there the
  round trip (and the label round trips built on it) holds only below that.
- Labels.LineError: keeps "not exactly two fields" and "id not an integer"
  apart, whereas the source raises `ValueError` for both and the load ends
  either way.
- FinalLift.Lift.Move: requires the direction to point at the target. With
  direction 0, or a direction away from the target, the source never reaches
  the target: it stays put (or moves away) pass after pass until the first
  pass after which nobody is seen, then stops with the flag raised, and it
  runs on only while a person is seen after every pass. `process_requests`
  always sets the direction before calling `move`, so that state is never
  reached.
- PersonDetection.DetectPerson: requires `num_detections` to be at most the
  number of rows, since the source indexes rows it assumes exist. The same
  holds for `ScanFrame`, `Labelled` and `LabelDetections`.
- FinalLift.Lift: the `object_detection` reference is replaced by the
  `presence` parameter of `Move`, `ProcessRequests` and `MainStep`.
- Both `Lift` classes: `num_floors` is stored and never read, as in the
  source; `main` checks against the constant 10 (`Operator.NumFloors`).
