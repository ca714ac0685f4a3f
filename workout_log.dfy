/** The persisted workout log stored under the preference key `workout_list`.

    The log is one serialized array of objects `{type, duration, url}`, newest
    first. The JSON text itself is not modelled: a stored value is either
    unparseable (`Malformed`) or a parsed array of entries, and each entry is
    either not an object at all or an object whose three fields may each be
    missing. */
module WorkoutLog {
  import opened Wrappers

  /** One logged workout as the add screen builds it and the main screen shows it. */
  datatype WorkoutRecord = WorkoutRecord(activityType: string, duration: string, url: string)

  /** One element of the stored array. */
  datatype StoredEntry =
    | NotAnObject
    | StoredObject(activityType: Option<string>, duration: Option<string>, url: Option<string>)

  /** The value under `workout_list`, once the text has been handed to the array parser. */
  datatype StoredLog = Malformed | Parsed(entries: seq<StoredEntry>)

  /** Outcome of pressing "save" on the add screen. */
  datatype SaveOutcome =
    | DurationRequired   // empty duration: the field is flagged and nothing else happens
    | Saved              // "Workout Saved!" and the screen closes
    | SaveFailed         // "Error saving data": the stored list did not parse

  /** What one save does: its outcome and the new value under `workout_list`. */
  datatype SaveResult = SaveResult(outcome: SaveOutcome, store: Option<StoredLog>)

  /** The children of the recent-activities layout after a reload. */
  datatype View = Item(record: WorkoutRecord) | NoActivitiesYet

  /** The main screen shows at most this many workouts. */
  const RECENT_LIMIT: nat := 5

  /** `getString("workout_list", "[]")` followed by parsing: a missing key reads as the empty array. */
  function Load(stored: Option<StoredLog>): (log: StoredLog)
    ensures stored.None? ==> log == Parsed([])
    ensures stored.Some? ==> log == stored.value
  {
    stored.GetOr(Parsed([]))
  }

  /** The object the add screen puts into the array for a record. */
  function Encode(r: WorkoutRecord): (e: StoredEntry)
    ensures Decode(e) == Some(r)
  {
    StoredObject(Some(r.activityType), Some(r.duration), Some(r.url))
  }

  /** Reading one entry back: `getJSONObject` fails on a non-object, `getString`
      fails on a missing `type` or `duration`, and `optString("url", "")`
      turns a missing url into the empty string. */
  function Decode(e: StoredEntry): Option<WorkoutRecord> {
    match e
    case NotAnObject => None
    case StoredObject(t, d, u) =>
      if t.Some? && d.Some? then Some(WorkoutRecord(t.value, d.value, u.GetOr(""))) else None
  }

  /** An entry reads back exactly when it is an object holding both `type` and
      `duration`; the record then carries those two values and the stored url,
      or "" when the url is missing. */
  lemma DecodeReadsFields(e: StoredEntry)
    ensures Decode(e).None? <==> e.NotAnObject? || e.activityType.None? || e.duration.None?
    ensures Decode(e).Some? ==>
      e.activityType == Some(Decode(e).value.activityType) && e.duration == Some(Decode(e).value.duration)
    ensures Decode(e).Some? ==> e.url == Some(Decode(e).value.url) || (e.url.None? && Decode(e).value.url == "")
  {
  }

  /** The records shown when reading `entries` in stored order, at most `limit`
      of them, stopping at the first entry that does not decode (the exception
      leaves the entries already added in place). */
  function Shown(entries: seq<StoredEntry>, limit: nat): (shown: seq<WorkoutRecord>)
    ensures |shown| <= limit && |shown| <= |entries|
  {
    if limit == 0 || entries == [] then []
    else match Decode(entries[0])
      case None => []
      case Some(r) => [r] + Shown(entries[1..], limit - 1)
  }

  /** What the reader shows is entry `i` decoded at position `i`, and when it
      shows fewer than both the cap and the stored entries, the entry after the
      last one shown is the first that does not decode. */
  lemma {:induction false} ShownReadsInOrder(entries: seq<StoredEntry>, limit: nat)
    ensures var shown := Shown(entries, limit);
      (forall i :: 0 <= i < |shown| ==> Decode(entries[i]) == Some(shown[i])) &&
      (|shown| < limit && |shown| < |entries| ==> Decode(entries[|shown|]) == None)
  {
    if limit > 0 && entries != [] && Decode(entries[0]).Some? {
      var r := Decode(entries[0]).value;
      var rest := Shown(entries[1..], limit - 1);
      assert Shown(entries, limit) == [r] + rest;
      ShownReadsInOrder(entries[1..], limit - 1);
      forall i | 1 <= i < |rest| + 1 ensures Decode(entries[i]) == Some(([r] + rest)[i]) {
        assert entries[1..][i - 1] == entries[i];
      }
      if |rest| + 1 < limit && |rest| + 1 < |entries| {
        assert entries[1..][|rest|] == entries[|rest| + 1];
      }
    }
  }

  /** One list item per record, in order. */
  function Items(rs: seq<WorkoutRecord>): (views: seq<View>)
    ensures |views| == |rs|
    ensures forall i :: 0 <= i < |rs| ==> views[i] == Item(rs[i])
  {
    seq(|rs|, i requires 0 <= i < |rs| => Item(rs[i]))
  }

  /** The layout the main screen shows for a stored log: nothing when the array
      does not parse; otherwise the shown records, followed by the
      "No activities yet." line when the array is empty. */
  function RecentView(stored: Option<StoredLog>): (views: seq<View>)
    ensures |views| <= RECENT_LIMIT
    ensures Load(stored).Malformed? ==> views == []
    ensures NoActivitiesYet in views <==> Load(stored) == Parsed([])
    ensures Load(stored) == Parsed([]) ==> views == [NoActivitiesYet]
    ensures Load(stored).Parsed? ==>
      var entries := Load(stored).entries;
      |views| < RECENT_LIMIT && |views| < |entries| ==> Decode(entries[|views|]) == None
    ensures Load(stored).Parsed? ==>
      forall i :: 0 <= i < |views| && views[i].Item? ==>
        i < |Load(stored).entries| && Decode(Load(stored).entries[i]) == Some(views[i].record)
  {
    match Load(stored)
    case Malformed => []
    case Parsed(entries) =>
      ShownReadsInOrder(entries, RECENT_LIMIT);
      Items(Shown(entries, RECENT_LIMIT)) + (if |entries| == 0 then [NoActivitiesYet] else [])
  }

  /** What saving a workout does to the value under `workout_list`. */
  function Save(stored: Option<StoredLog>, activityType: string, duration: string, url: string): (res: SaveResult)
    ensures duration == "" ==> res == SaveResult(DurationRequired, stored)
    ensures duration != "" && Load(stored).Malformed? ==> res == SaveResult(SaveFailed, stored)
    ensures res.outcome == Saved <==> duration != "" && Load(stored).Parsed?
    ensures res.outcome != Saved ==> res.store == stored
    ensures res.outcome == Saved ==>
      res.store.Some? && res.store.value.Parsed? &&
      var before := Load(stored).entries;
      var after := res.store.value.entries;
      |after| == |before| + 1 &&
      Decode(after[0]) == Some(WorkoutRecord(activityType, duration, url)) &&
      forall i :: 0 <= i < |before| ==> after[i + 1] == before[i]
  {
    if duration == "" then SaveResult(DurationRequired, stored)
    else match Load(stored)
      case Malformed => SaveResult(SaveFailed, stored)
      case Parsed(entries) =>
        SaveResult(Saved, Some(Parsed([Encode(WorkoutRecord(activityType, duration, url))] + entries)))
  }

  // ---------------------------------------------------------------------------
  // Properties of the log

  /** Reading with a smaller limit shows a prefix of what a larger limit shows. */
  lemma {:induction false} ShownPrefix(entries: seq<StoredEntry>, small: nat, large: nat)
    requires small <= large
    ensures Shown(entries, small) <= Shown(entries, large)
  {
    if small > 0 && entries != [] && Decode(entries[0]).Some? {
      ShownPrefix(entries[1..], small - 1, large - 1);
    }
  }

  /** Reading a log whose first `k` entries decode shows those `k` records
      followed by what reading the rest with the remaining slots shows. */
  lemma {:induction false} ShownSplit(entries: seq<StoredEntry>, k: nat, limit: nat)
    requires k <= limit && k <= |entries|
    requires forall i :: 0 <= i < k ==> Decode(entries[i]).Some?
    ensures Shown(entries, limit) == Shown(entries, k) + Shown(entries[k..], limit - k)
  {
    if k > 0 {
      assert entries[1..][k - 1..] == entries[k..];
      ShownSplit(entries[1..], k - 1, limit - 1);
    }
  }

  /** When every entry decodes, the reader shows exactly the first `limit` of
      them (or all, when fewer are stored). */
  lemma ShownAllDecodable(entries: seq<StoredEntry>, limit: nat)
    requires forall i :: 0 <= i < |entries| ==> Decode(entries[i]).Some?
    ensures |Shown(entries, limit)| == if |entries| < limit then |entries| else limit
  {
    ShownReadsInOrder(entries, limit);
  }

  /** Saving and then reloading the main screen shows the new record first,
      url included, followed by what the old log showed within one fewer slot;
      the older records keep their order and the oldest visible one may drop off. */
  lemma SaveThenLoad(stored: Option<StoredLog>, activityType: string, duration: string, url: string)
    requires Save(stored, activityType, duration, url).outcome == Saved
    ensures var views := RecentView(Save(stored, activityType, duration, url).store);
      var olds := Shown(Load(stored).entries, RECENT_LIMIT);
      |views| >= 1 &&
      views[0] == Item(WorkoutRecord(activityType, duration, url)) &&
      views[1..] == Items(Shown(Load(stored).entries, RECENT_LIMIT - 1)) &&
      views[1..] <= Items(olds)
  {
    var r := WorkoutRecord(activityType, duration, url);
    SaveOne(stored, r);
    PrependedView(Load(stored).entries, r);
  }

  /** The view of a parsed array with one more entry in front: that entry's
      record first, then what the rest shows in one fewer slot. */
  lemma PrependedView(entries: seq<StoredEntry>, r: WorkoutRecord)
    ensures var views := RecentView(Some(Parsed([Encode(r)] + entries)));
      |views| >= 1 &&
      views[0] == Item(r) &&
      views[1..] == Items(Shown(entries, RECENT_LIMIT - 1)) &&
      views[1..] <= Items(Shown(entries, RECENT_LIMIT))
  {
    var saved := [Encode(r)] + entries;
    assert saved[1..] == entries;
    var rest := Shown(entries, RECENT_LIMIT - 1);
    assert Shown(saved, RECENT_LIMIT) == [r] + rest;
    RecentViewOfNonEmpty(saved);
    var views := Items([r] + rest);
    assert views[1..] == Items(rest);
    ShownPrefix(entries, RECENT_LIMIT - 1, RECENT_LIMIT);
    var olds := Shown(entries, RECENT_LIMIT);
    assert Items(rest) == Items(olds)[..|rest|];
  }

  /** A non-empty parsed array shows just its items, without the empty-list line. */
  lemma RecentViewOfNonEmpty(entries: seq<StoredEntry>)
    requires |entries| > 0
    ensures RecentView(Some(Parsed(entries))) == Items(Shown(entries, RECENT_LIMIT))
  {
    assert Items(Shown(entries, RECENT_LIMIT)) + [] == Items(Shown(entries, RECENT_LIMIT));
  }

  /** The log after saving `records` one after the other, starting from `stored`;
      saves with an empty duration leave it as it was. */
  function SaveAll(stored: Option<StoredLog>, records: seq<WorkoutRecord>): Option<StoredLog>
    decreases |records|
  {
    if records == [] then stored
    else
      var last := records[|records| - 1];
      Save(SaveAll(stored, records[..|records| - 1]), last.activityType, last.duration, last.url).store
  }

  /** Starting from no stored log (which reads as the empty array), saving
      records with non-empty durations yields exactly those records, newest
      first: entry `i` is the record saved `i` saves ago, so every save
      prepends and no entry is ever lost or reordered. */
  lemma {:induction false} SavesPrepend(records: seq<WorkoutRecord>)
    requires forall i :: 0 <= i < |records| ==> records[i].duration != ""
    ensures Load(SaveAll(None, records)).Parsed?
    ensures var entries := Load(SaveAll(None, records)).entries;
      |entries| == |records| &&
      forall i :: 0 <= i < |records| ==> entries[i] == Encode(records[|records| - 1 - i])
  {
    if records != [] {
      var n := |records|;
      var init, last := records[..n - 1], records[n - 1];
      SavesPrepend(init);
      var before := Load(SaveAll(None, init)).entries;
      SaveOne(SaveAll(None, init), last);
      NewestFirstStep(records, before);
    }
  }

  /** Putting the newest record's entry in front of the older records' entries,
      newest first, gives all records' entries, newest first. */
  lemma NewestFirstStep(records: seq<WorkoutRecord>, before: seq<StoredEntry>)
    requires |records| > 0 && |before| == |records| - 1
    requires forall i :: 0 <= i < |before| ==> before[i] == Encode(records[..|records| - 1][|records| - 2 - i])
    ensures var after := [Encode(records[|records| - 1])] + before;
      |after| == |records| &&
      forall i :: 0 <= i < |records| ==> after[i] == Encode(records[|records| - 1 - i])
  {
    var n := |records|;
    var after := [Encode(records[n - 1])] + before;
    forall i | 1 <= i < n ensures after[i] == Encode(records[n - 1 - i]) {
      assert after[i] == before[i - 1];
      assert records[..n - 1][n - 2 - (i - 1)] == records[n - 1 - i];
    }
  }

  /** One successful save: the record's entry goes in front of the old entries. */
  lemma SaveOne(stored: Option<StoredLog>, r: WorkoutRecord)
    requires r.duration != "" && Load(stored).Parsed?
    ensures Save(stored, r.activityType, r.duration, r.url).store
      == Some(Parsed([Encode(r)] + Load(stored).entries))
  {
    assert WorkoutRecord(r.activityType, r.duration, r.url) == r;
  }

  /** After saving `records` from an empty store, the main screen lists the
      most recent five, newest first, each with its own url. */
  lemma RecentShowsLatestSaves(records: seq<WorkoutRecord>)
    requires |records| > 0
    requires forall i :: 0 <= i < |records| ==> records[i].duration != ""
    ensures var views := RecentView(SaveAll(None, records));
      |views| == (if |records| < RECENT_LIMIT then |records| else RECENT_LIMIT) &&
      forall i :: 0 <= i < |views| ==> views[i] == Item(records[|records| - 1 - i])
  {
    SavesPrepend(records);
    var entries := Load(SaveAll(None, records)).entries;
    ShownAllDecodable(entries, RECENT_LIMIT);
    ShownReadsInOrder(entries, RECENT_LIMIT);
  }

  /** The example of a save in front of two existing entries. */
  lemma SaveScenario(a: StoredEntry, b: StoredEntry)
    ensures Save(Some(Parsed([a, b])), "Running", "30", "")
      == SaveResult(Saved, Some(Parsed([Encode(WorkoutRecord("Running", "30", "")), a, b])))
  {
    assert [Encode(WorkoutRecord("Running", "30", ""))] + [a, b] == [Encode(WorkoutRecord("Running", "30", "")), a, b];
  }
}
