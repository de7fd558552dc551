/**
 * Job records and the change each store operation makes to one record.
 *
 * A record is the JSON value stored under a job's key: a status, the job's
 * result path and one slot per image, each slot a url and a progress value.
 * A record read from the store is a fresh copy, so the in-place edits the
 * store makes to it before writing it back are modelled on values here.
 */
module JobRecords {
  import opened Results
  import opened JobKeys

  datatype Status = Queued | InProgress | Complete

  /** One image of a job; the progress value is only stored, never computed on. */
  datatype ImageSlot = ImageSlot(url: string, progress: real)

  datatype JobRecord = JobRecord(images: seq<ImageSlot>, resultUrl: string, status: Status)

  /** A progress report from the image generator. */
  datatype Progress = Progress(currentSample: int, progress: real, totalSamples: int)

  datatype StoreError =
    | RecordNotFound   // no record under the key
    | IndexOutOfRange  // `currentSample` names no image slot

  /** The record written when a job is queued. */
  function QueuedRecord(jobType: string, id: string): (rec: JobRecord)
    ensures rec.status == Queued && rec.images == []
    ensures rec.resultUrl == CreateKey(jobType, id)
  {
    JobRecord([], jobType + "/" + id, Queued)
  }

  /** The slots built on a job's first progress report: `count` slots, none started. */
  function InitialImages(key: string, count: int): (images: seq<ImageSlot>)
    ensures |images| == if count < 0 then 0 else count
    ensures forall i :: 0 <= i < |images| ==> images[i] == ImageSlot(ImageUrl(key, i + 1), 0.0)
    decreases count
  {
    if count <= 0 then [] else InitialImages(key, count - 1) + [ImageSlot(ImageUrl(key, count), 0.0)]
  }

  /** The number of slots a progress report can address in `rec`. */
  function SlotCount(rec: JobRecord, p: Progress): int
  {
    if rec.images == [] then p.totalSamples else |rec.images|
  }

  /**
   * The record after a progress report for the job stored under `key`: the
   * slots are built if there are none yet, the reported slot takes the new
   * progress and the status becomes in-progress.
   */
  function WithProgress(rec: JobRecord, key: string, p: Progress): (r: Result<JobRecord, StoreError>)
    ensures r.Ok? <==> 1 <= p.currentSample <= SlotCount(rec, p)
    ensures r.Err? ==> r.error == IndexOutOfRange
    ensures r.Ok? ==> r.value.status == InProgress && r.value.resultUrl == rec.resultUrl
    ensures r.Ok? ==> |r.value.images| == SlotCount(rec, p)
    ensures r.Ok? ==> r.value.images[p.currentSample - 1].progress == p.progress
    ensures r.Ok? && rec.images != [] ==>
      forall i :: 0 <= i < |rec.images| ==>
        r.value.images[i].url == rec.images[i].url &&
        (i != p.currentSample - 1 ==> r.value.images[i] == rec.images[i])
    ensures r.Ok? && rec.images == [] ==>
      forall i :: 0 <= i < p.totalSamples ==>
        r.value.images[i].url == ImageUrl(key, i + 1) &&
        (i != p.currentSample - 1 ==> r.value.images[i].progress == 0.0)
  {
    var images := if rec.images == [] then InitialImages(key, p.totalSamples) else rec.images;
    var slot := p.currentSample - 1;
    if 0 <= slot < |images| then
      Ok(JobRecord(images[slot := images[slot].(progress := p.progress)], rec.resultUrl, InProgress))
    else
      Err(IndexOutOfRange)
  }

  /** The record after the job is marked done. */
  function Completed(rec: JobRecord): (r: JobRecord)
    ensures r.status == Complete && r.images == rec.images && r.resultUrl == rec.resultUrl
  {
    rec.(status := Complete)
  }

  /**
   * The shape every record written by the store has: its result path is its
   * key and slot i's url is the url of image i + 1 under that key.
   */
  predicate WellFormed(key: string, rec: JobRecord)
  {
    && rec.resultUrl == key
    && forall i :: 0 <= i < |rec.images| ==> rec.images[i].url == ImageUrl(key, i + 1)
  }

  /** A queued record's result path is the job's key. */
  lemma QueuedRecordWellFormed(jobType: string, id: string)
    ensures WellFormed(CreateKey(jobType, id), QueuedRecord(jobType, id))
  {
  }

  lemma WithProgressWellFormed(rec: JobRecord, key: string, p: Progress)
    requires WellFormed(key, rec)
    ensures WithProgress(rec, key, p).Ok? ==> WellFormed(key, WithProgress(rec, key, p).value)
  {
  }

  lemma CompletedWellFormed(rec: JobRecord, key: string)
    requires WellFormed(key, rec)
    ensures WellFormed(key, Completed(rec))
  {
  }

  /** The slots of a well-formed record have pairwise distinct urls. */
  lemma WellFormedUrlsDistinct(key: string, rec: JobRecord, i: nat, j: nat)
    requires WellFormed(key, rec)
    requires i < j < |rec.images|
    ensures rec.images[i].url != rec.images[j].url
  {
    if rec.images[i].url == rec.images[j].url {
      ImageUrlInjective(key, i + 1, j + 1);
    }
  }

  /** Completing a record twice is completing it once. */
  lemma CompletedIdempotent(rec: JobRecord)
    ensures Completed(Completed(rec)) == Completed(rec)
  {
  }

  /**
   * Once a record has slots, a later report keeps their number whatever
   * `totalSamples` it carries.
   */
  lemma SlotCountFixed(rec: JobRecord, key: string, p: Progress, q: Progress)
    requires WithProgress(rec, key, p).Ok?
    ensures SlotCount(WithProgress(rec, key, p).value, q) == SlotCount(rec, p)
  {
  }
}
