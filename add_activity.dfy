/** The add screen: choosing an image, and saving a workout in front of the
    stored log. */
module AddActivity {
  import opened Wrappers
  import opened WorkoutLog
  import opened Preferences

  /** The two image buttons and the fixed address each one loads. */
  datatype ImageButton = LoadRun | LoadGym

  const URL_RUN: string := "https://images.unsplash.com/photo-1502904550040-7534597429ae?w=400"
  const URL_GYM: string := "https://images.unsplash.com/photo-1517836357463-d25dfeac3438?w=400"

  function ButtonUrl(button: ImageButton): string {
    match button
    case LoadRun => URL_RUN
    case LoadGym => URL_GYM
  }

  class AddScreen {
    const prefs: SharedPrefs
    /** The url saved with the next workout; empty until an image button is pressed. */
    var selectedImageUrl: string

    constructor (prefs: SharedPrefs)
      ensures this.prefs == prefs && selectedImageUrl == ""
    {
      this.prefs := prefs;
      selectedImageUrl := "";
    }

    /** Pressing an image button remembers its address before the download
        starts, so the address is kept whether or not the image arrives. */
    method FetchImage(button: ImageButton)
      modifies this
      ensures selectedImageUrl == ButtonUrl(button)
    {
      selectedImageUrl := ButtonUrl(button);
    }

    /** Saves a workout of the chosen type and the typed duration with the
        selected url. An empty duration is refused before the store is touched;
        an unparseable stored list makes the save fail with the store as it
        was; otherwise the new record goes in front of the old entries. */
    method SaveWorkout(activityType: string, duration: string) returns (outcome: SaveOutcome)
      modifies prefs
      ensures SaveResult(outcome, prefs.workoutList)
        == Save(old(prefs.workoutList), activityType, duration, selectedImageUrl)
      ensures prefs.stepsBaseline == old(prefs.stepsBaseline) && prefs.stepsLastDate == old(prefs.stepsLastDate)
    {
      if duration == "" {
        return DurationRequired;
      }
      var workout := Encode(WorkoutRecord(activityType, duration, selectedImageUrl));
      var jsonList := Load(prefs.workoutList);
      if jsonList.Malformed? {
        return SaveFailed;
      }
      var newEntries := CopyBehind(workout, jsonList.entries);
      assert newEntries == [workout] + jsonList.entries;
      prefs.workoutList := Some(Parsed(newEntries));
      outcome := Saved;
    }
  }

  /** Builds a new array holding `first` and then, one by one, every old entry. */
  method CopyBehind(first: StoredEntry, entries: seq<StoredEntry>) returns (newEntries: seq<StoredEntry>)
    ensures |newEntries| == |entries| + 1 && newEntries[0] == first
    ensures forall i :: 0 <= i < |entries| ==> newEntries[i + 1] == entries[i]
  {
    newEntries := [first];
    for i := 0 to |entries|
      invariant |newEntries| == i + 1 && newEntries[0] == first
      invariant forall k :: 0 <= k < i ==> newEntries[k + 1] == entries[k]
    {
      newEntries := newEntries + [entries[i]];
    }
  }
}
