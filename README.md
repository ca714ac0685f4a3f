# MsuFitness step baseline and workout log, in Dafny

A model of the two pieces of logic in the MsuFitness Android app that carry
real invariants:

- **Step baseline tracking** (main screen). The device's step counter counts
  from the last reboot and is never reset by the app. The main screen keeps a
  baseline (`stepsAtReset`, -1 when never set) and the date it was set
  (`lastSavedDate`). Each reading takes one of four branches (first run, new
  day, reboot detected by the counter going strictly backwards, steady). The
  screen shows `max(0, reading - baseline)` and writes the baseline and its
  date to the preference store together, only when they changed.
  - `StepBaseline` holds the pure specification of one reading (`Observe`) and
    of a sequence of readings (`Run`), with the lemmas about them.
  - `MainActivity.StepTracker` is the listener itself: a class whose two fields
    the handler updates in place, proved against `Observe`.
- **Workout log** (add screen and main screen). The log is one serialized
  array under the key `workout_list`, newest first.
  - Saving refuses an empty duration. Otherwise it builds the new record and
    copies the old entries behind it into a new array. It writes nothing when
    the stored array does not parse.
  - The main screen reads back at most five entries in stored order. It stops
    at the first entry that is not an object or lacks `type` or `duration`,
    and a missing `url` reads as `""`.
  - `WorkoutLog` holds the stored format and the specification functions
    (`Save`, `Shown`, `RecentView`) with their lemmas. `AddActivity` and
    `MainActivity.LoadRecentActivities` are the imperative code proved against
    them.
- `Preferences.SharedPrefs` is the key-value store with its three keys
  (`steps_baseline`, `steps_last_date`, `workout_list`). `None` means a key
  was never written.

Points where the code's behaviour is easy to misread:

- An entry missing `type` or `duration` does not empty the whole list. The
  exception is thrown inside the loop, after the earlier entries were already
  added, so the screen shows the decodable prefix up to that entry, capped at
  five (`Shown`).
- The empty-duration check is made by `saveWorkout` itself (`Save`,
  `AddScreen.SaveWorkout`).
- Nothing ties "baseline is -1" to "date is empty": the two keys are read
  separately with their own defaults. The model assumes no such invariant.
  Every branch is defined for any stored pair.

## Model

| member | source | states |
|---|---|---|
| `StepBaseline.Observe` | app/src/main/java/com/example/msufitness/MainActivity.java:133-161 | After any reading the baseline is set (not -1), at or below the reading and dated today. The count shown is exactly reading minus new baseline, so the clamp never fires. The pair is saved iff it changed iff the branch is not steady. Every saving branch shows 0. On the same date the new baseline is min(old baseline, reading). |
| `StepBaseline.FirstRunSetsBaseline` | app/src/main/java/com/example/msufitness/MainActivity.java:136-140 | Unset baseline: baseline := reading, date := today, saved, 0 shown |
| `StepBaseline.DayRolloverResets` | app/src/main/java/com/example/msufitness/MainActivity.java:142-146 | Set baseline on another date: baseline := reading, date := today, saved, 0 shown, whatever the old baseline was |
| `StepBaseline.RebootLowersBaseline` | app/src/main/java/com/example/msufitness/MainActivity.java:148-151 | Same date, reading strictly below baseline: baseline := reading, date kept, saved, 0 shown |
| `StepBaseline.SteadyCountsFromBaseline` | app/src/main/java/com/example/msufitness/MainActivity.java:153-161 | Same date, reading at or above baseline (equality is not a reboot): state unchanged, nothing saved, reading minus baseline shown |
| `StepBaseline.Scenarios` | app/src/main/java/com/example/msufitness/MainActivity.java:126-161 | Four example readings: 500 on a first run, 620 steady (120 shown), 10 as a reboot, 50 on the next day |
| `StepBaseline.RunAppend` | app/src/main/java/com/example/msufitness/MainActivity.java:126-165 | Readings are processed in arrival order: one more reading extends a run by one step |
| `StepBaseline.SameDayBaselineIsRunningMin` | app/src/main/java/com/example/msufitness/MainActivity.java:148-155 | Within one date, once set, the baseline is the running minimum of the readings and the date never moves |
| `StepBaseline.NewDayBaselineIsLowestReading` | app/src/main/java/com/example/msufitness/MainActivity.java:136-155 | After the readings of a new day (or the first readings ever) the baseline is the lowest reading of that day, dated that day |
| `StepBaseline.StepsTodayFromLowestReading` | app/src/main/java/com/example/msufitness/MainActivity.java:136-161 | On a new day the count shown for the latest reading is that reading minus the day's lowest reading |
| `StepBaseline.NoRebootCountsFromFirstReading` | app/src/main/java/com/example/msufitness/MainActivity.java:142-161 | With a non-decreasing counter, the count shown is the latest reading minus the day's first reading |
| `MainActivity.StepTracker.Load` | app/src/main/java/com/example/msufitness/MainActivity.java:83-84 | The baseline and date are read from the store with defaults -1 and "", so the in-memory pair matches the store |
| `MainActivity.StepTracker.SaveStepData` | app/src/main/java/com/example/msufitness/MainActivity.java:173-179 | Both keys are written together with the in-memory pair; the workout list is untouched |
| `MainActivity.StepTracker.OnSensorChanged` | app/src/main/java/com/example/msufitness/MainActivity.java:126-165 | Other sensors change nothing and display nothing. A step reading moves the fields as `Observe` says and displays its count. It writes the new pair iff `Observe` says to save, and leaves the store alone otherwise. It keeps the in-memory pair equal to the stored pair. |
| `MainActivity.LoadRecentActivities` | app/src/main/java/com/example/msufitness/MainActivity.java:193-230 | The layout after a reload is exactly `RecentView` of the stored value |
| `WorkoutLog.Encode` | app/src/main/java/com/example/msufitness/AddActivity.java:109-112 | The object written for a record reads back as that same record, url included |
| `WorkoutLog.Load` | app/src/main/java/com/example/msufitness/MainActivity.java:196-199 | A missing `workout_list` key reads as the empty array; a stored value is read as it is |
| `WorkoutLog.DecodeReadsFields` | app/src/main/java/com/example/msufitness/MainActivity.java:201-204 | `Decode` fails exactly on a non-object or a missing `type` or `duration`; otherwise the record carries those two values and the stored url, or "" when it is missing |
| `WorkoutLog.Shown` | app/src/main/java/com/example/msufitness/MainActivity.java:200-204 | At most `limit` records, and never more than are stored |
| `WorkoutLog.ShownReadsInOrder` | app/src/main/java/com/example/msufitness/MainActivity.java:200-204 | Record i shown is entry i decoded, in stored order. When fewer than both the cap and the stored entries are shown, the next entry is the first that fails to decode. |
| `WorkoutLog.RecentView` | app/src/main/java/com/example/msufitness/MainActivity.java:196-229 | At most 5 children. An unparseable store shows nothing. "No activities yet." appears iff the parsed array is empty (a missing key counts as empty), and then it is the only child. Each item i is stored entry i decoded. When fewer than five items and fewer than the stored entries are shown, the next entry is the first that fails to decode. |
| `WorkoutLog.Save` | app/src/main/java/com/example/msufitness/AddActivity.java:97-138 | An empty duration is refused ("Required") and leaves the store as it was. A non-empty duration over an unparseable store gives `SaveFailed` ("Error saving data") and leaves the store as it was. The save succeeds iff the duration is non-empty and the stored array parses (a missing key reads as empty). A failed save leaves the store as it was. On success the new log is one longer, entry 0 reads back as (type, duration, url), and old entry i is now at i+1. |
| `WorkoutLog.ShownPrefix` | app/src/main/java/com/example/msufitness/MainActivity.java:200 | Reading with a smaller cap shows a prefix of what a larger cap shows |
| `WorkoutLog.ShownSplit` | app/src/main/java/com/example/msufitness/MainActivity.java:200-204 | When the first k entries decode, reading shows them and then what reading the rest with the remaining slots shows |
| `WorkoutLog.ShownAllDecodable` | app/src/main/java/com/example/msufitness/MainActivity.java:200 | When every entry decodes, exactly min(limit, stored) records are shown |
| `WorkoutLog.RecentViewOfNonEmpty` | app/src/main/java/com/example/msufitness/MainActivity.java:200-226 | A non-empty parsed array shows just its readable items, without the "No activities yet." line |
| `WorkoutLog.PrependedView` | app/src/main/java/com/example/msufitness/MainActivity.java:200-226 | A parsed array with one more entry in front shows that entry's record first, then what the rest shows in four slots, a prefix of what the rest shows in five |
| `WorkoutLog.SaveThenLoad` | app/src/main/java/com/example/msufitness/AddActivity.java:119-129 | After a successful save, a reload shows the new record first with its url. The rest is what the old log shows in four slots, a prefix of what it showed before. |
| `WorkoutLog.SavesPrepend` | app/src/main/java/com/example/msufitness/AddActivity.java:116-129 | Starting from no stored key, a series of n saves yields a log of n entries whose entry i is the record saved i saves ago: newest first, none lost or reordered |
| `WorkoutLog.NewestFirstStep` | app/src/main/java/com/example/msufitness/AddActivity.java:121-125 | Putting the newest record's entry in front of the older entries, newest first, gives every record's entry newest first |
| `WorkoutLog.SaveOne` | app/src/main/java/com/example/msufitness/AddActivity.java:119-129 | One save with a non-empty duration over a parsed log stores exactly the record's entry followed by the old entries |
| `WorkoutLog.RecentShowsLatestSaves` | app/src/main/java/com/example/msufitness/MainActivity.java:199-204 | After a series of saves from no stored key, the main screen lists the latest min(5, n) records, newest first |
| `WorkoutLog.SaveScenario` | app/src/main/java/com/example/msufitness/AddActivity.java:121-125 | Saving (Running, 30, "") in front of [A, B] gives [(Running, 30, ""), A, B] |
| `AddActivity.AddScreen.constructor` | app/src/main/java/com/example/msufitness/AddActivity.java:30 | The selected url starts empty |
| `AddActivity.AddScreen.FetchImage` | app/src/main/java/com/example/msufitness/AddActivity.java:67-69 | The button's url is selected before and regardless of the download |
| `AddActivity.AddScreen.SaveWorkout` | app/src/main/java/com/example/msufitness/AddActivity.java:97-138 | Outcome and new `workout_list` are exactly `Save` of the old value with the selected url; the step keys are untouched |
| `AddActivity.CopyBehind` | app/src/main/java/com/example/msufitness/AddActivity.java:121-125 | The new array is the new record followed by every old entry in order |

## Left out

- Sensor registration and unregistration, the permission request, and the
  lifecycle callbacks (`onResume`, `onPause`, `onDestroy`) are Android
  plumbing. The tracker is modelled as receiving whatever events are delivered.
- The "No Sensor" indicator on devices without a step counter is a view
  update with no state behind it.
- Image downloads are network I/O on a worker thread: the executor, handler,
  URL connection and bitmap decoding. Only the url selection they start from
  is modelled.
- Views, toasts, the spinner and its adapter, and the text of list items are
  UI. The chosen type is a parameter of `SaveWorkout`. The layout is returned
  as its list of children, which is possible because the reload clears it
  first.
- `MainActivity.StepTracker.OnSensorChanged`: readings and the baseline are
  integers, so the float arithmetic and the `(int)` truncation of the source
  are not modelled. Step counts are whole numbers, so the truncation never
  drops anything.
- `MainActivity.StepTracker.OnSensorChanged`: the current date is a
  parameter, not `LocalDate.now()`. Dates are compared only for equality.
- The JSON text and the `org.json` parser are not modelled. A stored value
  is either unparseable or a parsed array whose entries may be non-objects
  or lack fields. The parser's coercion of non-string field values to strings
  is not modelled: a present field is a string.
- `SharedPreferences.apply()` commits asynchronously. Here a write takes
  effect at once.
- Two screens saving concurrently could lose an update. The model is
  sequential and does not capture this.
- `finish()` after a successful save is only reflected in the `Saved`
  outcome.
