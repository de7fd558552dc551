/**
 * The job-status store as a value: the key-value table of job records and
 * the table each store operation leaves behind. `StatusDatabase.Database`
 * performs these operations in place and is proved against these functions.
 */
module JobStore {
  import opened Results
  import opened JobKeys
  import opened JobRecords

  type Store = map<string, JobRecord>

  /** The table after job `jobType/id` is queued: a fresh record, whatever was there before. */
  function AfterQueued(s: Store, jobType: string, id: string): (s': Store)
    ensures CreateKey(jobType, id) in s'
    ensures s'[CreateKey(jobType, id)] == JobRecord([], CreateKey(jobType, id), Queued)
    ensures forall k :: k != CreateKey(jobType, id) ==> (k in s' <==> k in s)
    ensures forall k :: k in s && k != CreateKey(jobType, id) ==> s'[k] == s[k]
  {
    s[CreateKey(jobType, id) := QueuedRecord(jobType, id)]
  }

  /** The table after a progress report for job `jobType/id`, or why it was refused. */
  function AfterInProgress(s: Store, jobType: string, id: string, p: Progress): (r: Result<Store, StoreError>)
    ensures CreateKey(jobType, id) !in s ==> r == Err(RecordNotFound)
    ensures CreateKey(jobType, id) in s ==>
      (r.Ok? <==> 1 <= p.currentSample <= SlotCount(s[CreateKey(jobType, id)], p))
    ensures r.Err? && CreateKey(jobType, id) in s ==> r.error == IndexOutOfRange
    ensures r.Ok? ==> r.value.Keys == s.Keys
    ensures r.Ok? ==> forall k :: k in s && k != CreateKey(jobType, id) ==> r.value[k] == s[k]
    ensures r.Ok? ==>
      r.value[CreateKey(jobType, id)] == WithProgress(s[CreateKey(jobType, id)], CreateKey(jobType, id), p).value
  {
    var key := CreateKey(jobType, id);
    if key !in s then
      Err(RecordNotFound)
    else
      match WithProgress(s[key], key, p)
      case Ok(rec) => Ok(s[key := rec])
      case Err(e) => Err(e)
  }

  /** The table after job `jobType/id` is marked done, or why it was refused. */
  function AfterDone(s: Store, jobType: string, id: string): (r: Result<Store, StoreError>)
    ensures r.Err? <==> CreateKey(jobType, id) !in s
    ensures r.Err? ==> r.error == RecordNotFound
    ensures r.Ok? ==> r.value.Keys == s.Keys
    ensures r.Ok? ==> forall k :: k in s && k != CreateKey(jobType, id) ==> r.value[k] == s[k]
    ensures r.Ok? ==>
      var before, after := s[CreateKey(jobType, id)], r.value[CreateKey(jobType, id)];
      after.status == Complete && after.images == before.images && after.resultUrl == before.resultUrl
  {
    var key := CreateKey(jobType, id);
    if key !in s then Err(RecordNotFound) else Ok(s[key := Completed(s[key])])
  }

  /** The table after the sweep: the complete records, and nothing else. */
  function AfterDeleteIncomplete(s: Store): (s': Store)
    ensures forall k :: k in s' <==> k in s && s[k].status == Complete
    ensures forall k :: k in s' ==> s'[k] == s[k]
  {
    map k | k in s && s[k].status == Complete :: s[k]
  }

  /** Every record the store holds is well formed for its key. */
  ghost predicate WellFormedStore(s: Store)
  {
    forall k :: k in s ==> WellFormed(k, s[k])
  }

  /** The result path of every record in a well-formed store is its own key. */
  lemma ResultUrlIsKey(s: Store, k: string)
    requires WellFormedStore(s) && k in s
    ensures s[k].resultUrl == k
  {
  }

  lemma AfterQueuedWellFormed(s: Store, jobType: string, id: string)
    requires WellFormedStore(s)
    ensures WellFormedStore(AfterQueued(s, jobType, id))
  {
    QueuedRecordWellFormed(jobType, id);
  }

  lemma AfterInProgressWellFormed(s: Store, jobType: string, id: string, p: Progress)
    requires WellFormedStore(s)
    ensures AfterInProgress(s, jobType, id, p).Ok? ==> WellFormedStore(AfterInProgress(s, jobType, id, p).value)
  {
    var key := CreateKey(jobType, id);
    if key in s {
      WithProgressWellFormed(s[key], key, p);
    }
  }

  lemma AfterDoneWellFormed(s: Store, jobType: string, id: string)
    requires WellFormedStore(s)
    ensures AfterDone(s, jobType, id).Ok? ==> WellFormedStore(AfterDone(s, jobType, id).value)
  {
    var key := CreateKey(jobType, id);
    if key in s {
      CompletedWellFormed(s[key], key);
    }
  }

  lemma AfterDeleteIncompleteWellFormed(s: Store)
    requires WellFormedStore(s)
    ensures WellFormedStore(AfterDeleteIncomplete(s))
  {
  }

  /** Marking a job done twice leaves the same table as marking it done once. */
  lemma AfterDoneIdempotent(s: Store, jobType: string, id: string)
    ensures AfterDone(s, jobType, id).Ok? ==>
      AfterDone(AfterDone(s, jobType, id).value, jobType, id) == AfterDone(s, jobType, id)
  {
    var key := CreateKey(jobType, id);
    if key in s {
      var once := s[key := Completed(s[key])];
      CompletedIdempotent(s[key]);
      assert once[key := Completed(once[key])] == once;
    }
  }

  /** A second sweep right after the first deletes nothing. */
  lemma AfterDeleteIncompleteIdempotent(s: Store)
    ensures AfterDeleteIncomplete(AfterDeleteIncomplete(s)) == AfterDeleteIncomplete(s)
  {
  }

  /** Queueing a job again resets it, even after it completed. */
  lemma RequeueResetsCompleted(s: Store, jobType: string, id: string)
    requires CreateKey(jobType, id) in s && s[CreateKey(jobType, id)].status == Complete
    ensures AfterQueued(s, jobType, id)[CreateKey(jobType, id)].status == Queued
    ensures AfterQueued(s, jobType, id)[CreateKey(jobType, id)].images == []
  {
  }

  /** A progress report for a completed job reopens it. */
  lemma ProgressReopensCompleted(s: Store, jobType: string, id: string, p: Progress)
    requires CreateKey(jobType, id) in s && s[CreateKey(jobType, id)].status == Complete
    requires 1 <= p.currentSample <= SlotCount(s[CreateKey(jobType, id)], p)
    ensures AfterInProgress(s, jobType, id, p).Ok?
    ensures AfterInProgress(s, jobType, id, p).value[CreateKey(jobType, id)].status == InProgress
  {
  }

  /** A job marked done before any progress report is reopened by one, and gets its slots. */
  lemma DoneBeforeProgressReopens()
    ensures
      var key := CreateKey("t", "x");
      var done := AfterDone(AfterQueued(map[], "t", "x"), "t", "x");
      var reported := AfterInProgress(done.value, "t", "x", Progress(1, 0.5, 2));
      && done.Ok? && done.value[key].status == Complete && done.value[key].images == []
      && reported.Ok? && reported.value[key].status == InProgress
      && |reported.value[key].images| == 2
  {
  }

  /**
   * A text-to-image job "abc" with two samples: queued, first sample half
   * done, then done.
   */
  lemma TextToImageScenario()
    ensures
      var key := "text-to-image/abc";
      var queued := AfterQueued(map[], "text-to-image", "abc");
      var started := AfterInProgress(queued, "text-to-image", "abc", Progress(1, 0.5, 2));
      && queued == map[key := JobRecord([], key, Queued)]
      && started.Ok?
      && started.value[key] == JobRecord(
           [ImageSlot("text-to-image/abc/1.png", 0.5), ImageSlot("text-to-image/abc/2.png", 0.0)],
           key, InProgress)
      && AfterDone(started.value, "text-to-image", "abc").Ok?
      && AfterDone(started.value, "text-to-image", "abc").value[key].status == Complete
  {
    var key := "text-to-image/abc";
    assert CreateKey("text-to-image", "abc") == key;
    assert DecimalString(1) == "1";
    assert DecimalString(2) == "2";
    assert ImageUrl(key, 1) == "text-to-image/abc/1.png";
    assert ImageUrl(key, 2) == "text-to-image/abc/2.png";
  }
}
