/**
 * The job-status database: one key-value table of job records, updated in
 * place by the operations `createDatabase` hands out. Each method is proved
 * to leave the table that the matching `JobStore` function describes, and to
 * keep every record well formed.
 */
module StatusDatabase {
  import opened Results
  import opened JobKeys
  import opened JobRecords
  import opened JobStore

  class Database {
    /** The records held by the underlying key-value store, by key. */
    var db: Store

    ghost predicate Valid()
      reads this
    {
      WellFormedStore(db)
    }

    /** Opens the store; `contents` stands for whatever its directory already holds. */
    constructor Open(contents: Store)
      ensures db == contents
      ensures WellFormedStore(contents) ==> Valid()
    {
      db := contents;
    }

    /** The record of job `jobType/id`, or `None` when there is none. */
    function GetStatus(jobType: string, id: string): (r: Option<JobRecord>)
      reads this
      ensures r.Some? <==> CreateKey(jobType, id) in db
      ensures r.Some? ==> r.value == db[CreateKey(jobType, id)]
      ensures Valid() && r.Some? ==> r.value.resultUrl == CreateKey(jobType, id)
    {
      var key := CreateKey(jobType, id);
      if key in db then Some(db[key]) else None
    }

    method SetStatusToQueued(jobType: string, id: string)
      modifies this
      ensures db == AfterQueued(old(db), jobType, id)
      ensures old(Valid()) ==> Valid()
    {
      var key := CreateKey(jobType, id);
      db := db[key := JobRecord([], jobType + "/" + id, Queued)];
      if old(Valid()) {
        AfterQueuedWellFormed(old(db), jobType, id);
      }
    }

    method SetStatusToInProgress(jobType: string, id: string, p: Progress) returns (r: Outcome<StoreError>)
      modifies this
      ensures AfterInProgress(old(db), jobType, id, p).Ok? ==>
        r == Pass && db == AfterInProgress(old(db), jobType, id, p).value
      ensures AfterInProgress(old(db), jobType, id, p).Err? ==>
        r == Fail(AfterInProgress(old(db), jobType, id, p).error) && db == old(db)
      ensures old(Valid()) ==> Valid()
    {
      var key := CreateKey(jobType, id);
      if key !in db {
        return Fail(RecordNotFound);
      }
      var result := db[key];
      result := result.(status := InProgress);
      if |result.images| == 0 {
        var i := 0;
        while i < p.totalSamples
          invariant 0 <= i && (p.totalSamples <= 0 ==> i == 0) && (0 < p.totalSamples ==> i <= p.totalSamples)
          invariant result == db[key].(status := InProgress, images := InitialImages(key, i))
        {
          result := result.(images := result.images + [ImageSlot(ImageUrl(key, i + 1), 0.0)]);
          i := i + 1;
        }
      }
      var slot := p.currentSample - 1;
      if !(0 <= slot < |result.images|) {
        return Fail(IndexOutOfRange);
      }
      result := result.(images := result.images[slot := result.images[slot].(progress := p.progress)]);
      db := db[key := result];
      if old(Valid()) {
        AfterInProgressWellFormed(old(db), jobType, id, p);
      }
      return Pass;
    }

    method SetStatusToDone(jobType: string, id: string) returns (r: Outcome<StoreError>)
      modifies this
      ensures AfterDone(old(db), jobType, id).Ok? ==> r == Pass && db == AfterDone(old(db), jobType, id).value
      ensures AfterDone(old(db), jobType, id).Err? ==> r == Fail(RecordNotFound) && db == old(db)
      ensures old(Valid()) ==> Valid()
    {
      var key := CreateKey(jobType, id);
      if key !in db {
        return Fail(RecordNotFound);
      }
      var result := db[key];
      result := result.(status := Complete);
      db := db[key := result];
      if old(Valid()) {
        AfterDoneWellFormed(old(db), jobType, id);
      }
      return Pass;
    }

    /** Deletes every record whose status is not complete, in one batch. */
    method DeleteIncomplete()
      modifies this
      ensures db == AfterDeleteIncomplete(old(db))
      ensures old(Valid()) ==> Valid()
    {
      var deleteOperations: seq<string> := [];
      var unvisited := db.Keys;
      while unvisited != {}
        invariant unvisited <= db.Keys
        invariant forall k :: k in deleteOperations <==> k in db && k !in unvisited && db[k].status != Complete
        decreases unvisited
      {
        var key :| key in unvisited;
        if db[key].status != Complete {
          deleteOperations := deleteOperations + [key];
        }
        unvisited := unvisited - {key};
      }
      db := db - (set k | k in deleteOperations);
      if old(Valid()) {
        AfterDeleteIncompleteWellFormed(old(db));
      }
    }
  }
}
