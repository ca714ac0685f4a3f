/** The application's private preference store ("MsuFitnessPrefs"), shared by
    the main screen and the add screen. Each field is one key; `None` means the
    key was never written. Writes take effect at once. */
module Preferences {
  import opened Wrappers
  import opened WorkoutLog

  class SharedPrefs {
    /** `steps_baseline`: the counter reading that counts as zero today. */
    var stepsBaseline: Option<int>
    /** `steps_last_date`: the calendar date on which that baseline was set. */
    var stepsLastDate: Option<string>
    /** `workout_list`: the serialized workout log. */
    var workoutList: Option<StoredLog>

    /** A freshly installed application: no key has been written. */
    constructor ()
      ensures stepsBaseline == None && stepsLastDate == None && workoutList == None
    {
      stepsBaseline, stepsLastDate, workoutList := None, None, None;
    }
  }
}
