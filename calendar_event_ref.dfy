/**
 * The reference to a Google Calendar event that the app keeps in Firebase,
 * and its decoding from a snapshot. The clock reading used as a default is
 * a parameter.
 */
module CalendarEventRefModel {
  import opened Wrappers
  import opened Text
  import opened Snapshots

  datatype CalendarEventRef = CalendarEventRef(
    uuid: string,
    googleEventId: string,
    lastSyncTimestamp: int,
    isSynced: bool,
    needsUpdate: bool,
    isDeleted: bool,
    taskId: Option<string>)

  /** A Boolean field: its text compared with `true` ignoring case, or `default` when missing or null. */
  function Flag(m: Snapshot, key: string, default: bool): (r: bool)
    ensures Field(m, key).None? ==> r == default
    ensures Field(m, key).Some? ==> (r <==> ToBoolean(Field(m, key).value))
  {
    match Field(m, key)
    case None => default
    case Some(s) => ToBoolean(s)
  }

  /** The `lastSyncTimestamp` decoding: a number as a `Long`, a string parsed with the clock as the fallback, otherwise the clock. */
  function DecodeTimestamp(v: Option<Value>, now: int): (r: int)
    ensures v.Some? && v.value.Long? ==> r == v.value.n
    ensures v.Some? && v.value.Double? ==> r == Clamp(v.value.whole, Int64Min, Int64Max)
    ensures v.Some? && v.value.Str? ==> r == ToLongOrNull(v.value.s).GetOr(now)
    ensures v.None? || v.value.Bool? || v.value.Null? || v.value.Other? ==> r == now
  {
    match v
    case Some(Long(n)) => n
    case Some(Double(_, whole)) => Clamp(whole, Int64Min, Int64Max)
    case Some(Str(s)) => ToLongOrNull(s).GetOr(now)
    case _ => now
  }

  /** The snapshot keys under which the decoder looks for the two `is` flags. */
  datatype FlagKeys = FlagKeys(synced: string, deleted: string)

  /** The keys `fromSnapshot` reads as written. */
  const AsWritten := FlagKeys("isSynced", "isDeleted")

  /** The bean names under which Firebase stores the two flags. */
  const BeanNames := FlagKeys("synced", "deleted")

  /**
   * `CalendarEventRef.fromSnapshot`, with the keys of the two Boolean
   * properties whose names start with `is` as a parameter: the source reads
   * them under `AsWritten`.
   */
  function FromSnapshot(m: Snapshot, now: int, keys: FlagKeys): (r: CalendarEventRef)
    ensures r.uuid == Field(m, "uuid").GetOr("")
    ensures r.googleEventId == Field(m, "googleEventId").GetOr("")
    ensures r.taskId == Field(m, "taskId")
    ensures r.lastSyncTimestamp == DecodeTimestamp(Lookup(m, "lastSyncTimestamp"), now)
    ensures r.isSynced == Flag(m, keys.synced, true)
    ensures r.needsUpdate == Flag(m, "needsUpdate", false)
    ensures r.isDeleted == Flag(m, keys.deleted, false)
  {
    CalendarEventRef(
      uuid := Field(m, "uuid").GetOr(""),
      googleEventId := Field(m, "googleEventId").GetOr(""),
      lastSyncTimestamp := DecodeTimestamp(Lookup(m, "lastSyncTimestamp"), now),
      isSynced := Flag(m, keys.synced, true),
      needsUpdate := Flag(m, "needsUpdate", false),
      isDeleted := Flag(m, keys.deleted, false),
      taskId := Field(m, "taskId"))
  }

  /** An empty snapshot decodes to the defaults, with the clock as the timestamp. */
  lemma EmptySnapshotDefaults(now: int)
    ensures FromSnapshot(map[], now, AsWritten) == CalendarEventRef("", "", now, true, false, false, None)
  {
  }

  /** A present flag is true exactly when its text is `true` in some letter case. */
  lemma FlagTextExamples(m: Snapshot)
    ensures Flag(m[ "isSynced" := Str("FALSE") ], "isSynced", true) == false
    ensures Flag(m[ "isDeleted" := Bool(true) ], "isDeleted", false) == true
    ensures Flag(m[ "needsUpdate" := Str("yes") ], "needsUpdate", false) == false
  {
    ToBooleanExamples();
    assert Lower("FALSE")[0] == 'f';
  }

  /**
   * The snapshot Firebase stores for a reference: every non-null property,
   * with `isSynced` and `isDeleted` under the bean names `synced` and
   * `deleted`, as it does for `Task.isRecurring`.
   */
  function ToSnapshot(r: CalendarEventRef): Snapshot
  {
    var m := map["uuid" := Str(r.uuid), "googleEventId" := Str(r.googleEventId),
                 "lastSyncTimestamp" := Long(r.lastSyncTimestamp), "synced" := Bool(r.isSynced),
                 "needsUpdate" := Bool(r.needsUpdate), "deleted" := Bool(r.isDeleted)];
    PutText(m, "taskId", r.taskId)
  }

  /**
   * The reference that `markAsDeleted` stores comes back from the decoder as
   * written as not deleted and, when it was unsynced, as synced.
   */
  lemma DeletedFlagLost(r: CalendarEventRef, now: int)
    requires r.isDeleted
    ensures !FromSnapshot(ToSnapshot(r), now, AsWritten).isDeleted
    ensures FromSnapshot(ToSnapshot(r), now, AsWritten).isSynced
  {
    var m := ToSnapshot(r);
    assert "isDeleted" !in m && "isSynced" !in m;
  }

  /** A concrete instance: a deleted, unsynced reference. */
  lemma DeletedFlagLostExample()
    ensures var r := CalendarEventRef("r1", "g1", 5, false, true, true, None);
            FromSnapshot(ToSnapshot(r), 0, AsWritten) != r
  {
    DeletedFlagLost(CalendarEventRef("r1", "g1", 5, false, true, true, None), 0);
  }

  /** `m` holds the properties of `r` the way Firebase writes them. */
  predicate Describes(m: Snapshot, r: CalendarEventRef)
  {
    && Lookup(m, "uuid") == Some(Str(r.uuid))
    && Lookup(m, "googleEventId") == Some(Str(r.googleEventId))
    && Lookup(m, "lastSyncTimestamp") == Some(Long(r.lastSyncTimestamp))
    && Lookup(m, "synced") == Some(Bool(r.isSynced))
    && Lookup(m, "needsUpdate") == Some(Bool(r.needsUpdate))
    && Lookup(m, "deleted") == Some(Bool(r.isDeleted))
    && Field(m, "taskId") == r.taskId
  }

  lemma ToSnapshotDescribes(r: CalendarEventRef)
    ensures Describes(ToSnapshot(r), r)
  {
    var m0 := map["uuid" := Str(r.uuid), "googleEventId" := Str(r.googleEventId),
                  "lastSyncTimestamp" := Long(r.lastSyncTimestamp), "synced" := Bool(r.isSynced),
                  "needsUpdate" := Bool(r.needsUpdate), "deleted" := Bool(r.isDeleted)];
    assert "synced" != "taskId" by {
      assert "synced"[0] != "taskId"[0];
    }
    assert "taskId" !in m0;
    PutTextSame(m0, "taskId", r.taskId);
    PutTextKeeps(m0, "taskId", r.taskId, "uuid");
    PutTextKeeps(m0, "taskId", r.taskId, "googleEventId");
    PutTextKeeps(m0, "taskId", r.taskId, "lastSyncTimestamp");
    PutTextKeeps(m0, "taskId", r.taskId, "synced");
    PutTextKeeps(m0, "taskId", r.taskId, "needsUpdate");
    PutTextKeeps(m0, "taskId", r.taskId, "deleted");
  }

  lemma DecodeDescribed(m: Snapshot, r: CalendarEventRef, now: int)
    requires Describes(m, r)
    ensures FromSnapshot(m, now, BeanNames) == r
  {
    ToBooleanExamples();
  }

  /** Read under the bean names, the decoder gives back every stored reference, whatever the clock says. */
  lemma FixedRoundTrip(r: CalendarEventRef, now: int)
    ensures FromSnapshot(ToSnapshot(r), now, BeanNames) == r
  {
    ToSnapshotDescribes(r);
    DecodeDescribed(ToSnapshot(r), r, now);
  }
}
