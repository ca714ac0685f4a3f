/** The main screen: the step-counter listener with its persisted baseline, and
    the reload of the recent-activities list. */
module MainActivity {
  import opened Wrappers
  import opened WorkoutLog
  import opened Preferences
  import opened StepBaseline

  /** The kind of sensor an event comes from. */
  datatype SensorKind = StepCounter | OtherSensor(typeCode: int)

  /** A sensor event; `value` is its first value, which for the step counter is
      the non-negative count since the last reboot. */
  datatype SensorEvent = SensorEvent(kind: SensorKind, value: nat)

  /** The step-tracking part of the main screen: the in-memory baseline and its date. */
  class StepTracker {
    const prefs: SharedPrefs
    var stepsAtReset: int
    var lastSavedDate: string

    function State(): Baseline
      reads this
    {
      Baseline(stepsAtReset, lastSavedDate)
    }

    /** The in-memory pair is what the store gives back for the two keys. */
    predicate Persisted()
      reads this, prefs
    {
      prefs.stepsBaseline.GetOr(UNSET) == stepsAtReset && prefs.stepsLastDate.GetOr("") == lastSavedDate
    }

    /** Screen creation: both fields are read from the store, with -1 and "" as defaults. */
    constructor Load(prefs: SharedPrefs)
      ensures this.prefs == prefs
      ensures stepsAtReset == prefs.stepsBaseline.GetOr(UNSET)
      ensures lastSavedDate == prefs.stepsLastDate.GetOr("")
      ensures Persisted()
    {
      this.prefs := prefs;
      stepsAtReset := prefs.stepsBaseline.GetOr(UNSET);
      lastSavedDate := prefs.stepsLastDate.GetOr("");
    }

    /** Writes the baseline and its date together, in one edit. */
    method SaveStepData()
      modifies prefs
      ensures prefs.stepsBaseline == Some(stepsAtReset) && prefs.stepsLastDate == Some(lastSavedDate)
      ensures prefs.workoutList == old(prefs.workoutList)
      ensures Persisted()
    {
      prefs.stepsBaseline, prefs.stepsLastDate := Some(stepsAtReset), Some(lastSavedDate);
    }

    /** Handles one sensor event on date `today`. Events of other sensors change
        nothing and display nothing. A step-counter reading moves the state as
        `Observe` says, writes the new pair to the store exactly when it
        changed (leaving the store alone otherwise), and returns the count to
        display. */
    method OnSensorChanged(event: SensorEvent, today: string) returns (display: Option<nat>)
      modifies this, prefs
      ensures !event.kind.StepCounter? ==>
        display == None && State() == old(State()) && unchanged(prefs)
      ensures event.kind.StepCounter? ==>
        var o := Observe(old(State()), event.value, today);
        State() == o.next && display == Some(o.steps) &&
        (o.save ==> prefs.stepsBaseline == Some(stepsAtReset) && prefs.stepsLastDate == Some(lastSavedDate)) &&
        (!o.save ==> prefs.stepsBaseline == old(prefs.stepsBaseline) && prefs.stepsLastDate == old(prefs.stepsLastDate))
      ensures prefs.workoutList == old(prefs.workoutList)
      ensures old(Persisted()) ==> Persisted()
    {
      display := None;
      if event.kind.StepCounter? {
        var totalStepsOnDevice := event.value;
        var needToSave := false;
        if stepsAtReset == UNSET {
          // first run ever
          stepsAtReset := totalStepsOnDevice;
          lastSavedDate := today;
          needToSave := true;
        } else if today != lastSavedDate {
          // a new day: the current total becomes the new zero
          stepsAtReset := totalStepsOnDevice;
          lastSavedDate := today;
          needToSave := true;
        } else if totalStepsOnDevice < stepsAtReset {
          // the counter went back: the device rebooted
          stepsAtReset := totalStepsOnDevice;
          needToSave := true;
        }
        if needToSave {
          SaveStepData();
        }
        var currentSessionSteps := totalStepsOnDevice - stepsAtReset;
        if currentSessionSteps < 0 {
          currentSessionSteps := 0;
        }
        display := Some(currentSessionSteps);
      }
    }
  }

  /** Rebuilds the recent-activities list from the store: the layout is cleared,
      then at most five entries are read in stored order, each adding one item,
      until one fails to decode; an empty array adds the "No activities yet."
      line, and an unparseable array leaves the layout empty. Returns the
      layout's children. */
  method LoadRecentActivities(prefs: SharedPrefs) returns (layout: seq<View>)
    ensures layout == RecentView(prefs.workoutList)
  {
    layout := [];
    var jsonList := Load(prefs.workoutList);
    if jsonList.Malformed? {
      return;
    }
    var entries := jsonList.entries;
    var i := 0;
    while i < |entries| && i < RECENT_LIMIT
      invariant 0 <= i <= |entries| && i <= RECENT_LIMIT
      invariant forall k :: 0 <= k < i ==> Decode(entries[k]).Some?
      invariant layout == Items(Shown(entries, i))
    {
      var obj := Decode(entries[i]);
      if obj.None? {
        // the exception ends the walk; the items already added stay
        ShownSplit(entries, i, RECENT_LIMIT);
        return;
      }
      ShownSplit(entries, i, i + 1);
      assert Shown(entries[i..], 1) == [obj.value];
      layout := layout + [Item(obj.value)];
      i := i + 1;
    }
    ShownSplit(entries, i, RECENT_LIMIT);
    if |entries| == 0 {
      layout := layout + [NoActivitiesYet];
    }
  }
}
