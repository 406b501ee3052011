/** The in-memory job registry of the render service (src/server.ts): the
    `Job` record, the request-validating create step of `POST /render`, the
    lookup of `GET /status/:id`, and the hourly age-based sweep. */
module JobStore {
  import opened Wrappers

  /** Jobs older than this many milliseconds are evicted by the sweep. */
  const RetentionMs: int := 3600000

  const MissingFieldsText: string := "Missing required fields"
  const NotFoundText: string := "Job not found"

  datatype Status = Pending | Processing | Completed | Failed

  datatype Job = Job(
    id: string,
    status: Status,
    videoUrl: Option<string>,
    error: Option<string>,
    createdAt: int)

  /** The `jobs` map, keyed by job id. */
  type Store = map<string, Job>

  /** Position of a status along `pending → processing → completed | failed`. */
  function Rank(s: Status): nat {
    match s
    case Pending => 0
    case Processing => 1
    case Completed => 2
    case Failed => 2
  }

  predicate IsTerminal(s: Status) {
    s == Completed || s == Failed
  }

  /** The fields each status carries: only a completed job has a URL, only a
      failed job may have an error message. */
  predicate Consistent(j: Job) {
    && (j.status == Completed ==> j.videoUrl.Some? && j.error.None?)
    && (j.status == Failed ==> j.videoUrl.None?)
    && (!IsTerminal(j.status) ==> j.videoUrl.None? && j.error.None?)
  }

  /** The fields of a `POST /render` body; `None` is a missing field. */
  datatype RenderBody = RenderBody(script: Option<string>, niche: Option<string>, topic: Option<string>)

  /** A string field that JavaScript treats as true: present and non-empty. */
  predicate Truthy(v: Option<string>) {
    v.Some? && |v.value| > 0
  }

  predicate ValidBody(body: RenderBody) {
    Truthy(body.script) && Truthy(body.niche) && Truthy(body.topic)
  }

  /** The JSON payload of a reply. */
  datatype Reply =
    | ErrorReply(error: string)
    | Accepted(jobId: string)
    | JobRecord(job: Job)

  datatype Response = Response(code: int, reply: Reply)

  /** The job the create step stores. */
  function NewJob(id: string, now: int): Job {
    Job(id, Pending, None, None, now)
  }

  /** `POST /render` up to the start of the background task: reject a body
      with a missing or empty field, otherwise store a pending job under the
      fresh id and accept. `freshId` stands for `randomUUID()` and `now` for
      `Date.now()`. */
  function Submit(store: Store, body: RenderBody, freshId: string, now: int): (r: (Response, Store))
    ensures r.0.code == 400 || r.0.code == 200
    ensures r.0.code == 400 <==> !ValidBody(body)
    ensures r.0.code == 400 ==> r.1 == store && r.0.reply == ErrorReply(MissingFieldsText)
    ensures r.0.code == 200 ==> r.0.reply == Accepted(freshId)
    ensures r.0.code == 200 ==> r.1.Keys == store.Keys + {freshId}
    ensures r.0.code == 200 ==>
              var j := r.1[freshId];
              j.id == freshId && j.status == Pending && j.createdAt == now && j.videoUrl.None? && j.error.None?
    ensures forall k :: k in store && k != freshId ==> k in r.1 && r.1[k] == store[k]
  {
    if !ValidBody(body) then (Response(400, ErrorReply(MissingFieldsText)), store)
    else (Response(200, Accepted(freshId)), store[freshId := NewJob(freshId, now)])
  }

  /** `GET /status/:id`. */
  function Lookup(store: Store, id: string): (r: Response)
    ensures r.code == 404 <==> id !in store
    ensures r.code == 404 ==> r.reply == ErrorReply(NotFoundText)
    ensures r.code != 404 ==> r.code == 200 && r.reply == JobRecord(store[id])
  {
    if id !in store then Response(404, ErrorReply(NotFoundText))
    else Response(200, JobRecord(store[id]))
  }

  /** Whether the sweep at `now` evicts `j` (strict comparison). */
  predicate Expired(j: Job, now: int) {
    now - j.createdAt > RetentionMs
  }

  /** The hourly cleanup at time `now`: drop every job older than the
      retention window, whatever its status. */
  function Sweep(store: Store, now: int): (r: Store)
    ensures forall k :: k in r <==> k in store && !Expired(store[k], now)
    ensures forall k :: k in r ==> r[k] == store[k]
  {
    map k | k in store && !Expired(store[k], now) :: store[k]
  }

  // ---------------------------------------------------------------------
  // Properties

  /** A created job is consistent and takes a fresh slot: the store grows by one. */
  lemma SubmitCreatesFreshJob(store: Store, body: RenderBody, freshId: string, now: int)
    requires ValidBody(body) && freshId !in store
    ensures var (resp, s) := Submit(store, body, freshId, now);
            resp.code == 200 && Consistent(s[freshId]) && |s| == |store| + 1
  {
    var s := Submit(store, body, freshId, now).1;
    assert s.Keys == store.Keys + {freshId};
    assert |s.Keys| == |store.Keys| + 1;
  }

  /** A job exactly one retention window old survives a sweep; one
      millisecond older does not. */
  lemma SweepBoundary(store: Store, id: string, now: int)
    requires id in store
    ensures now - store[id].createdAt == RetentionMs ==> id in Sweep(store, now)
    ensures now - store[id].createdAt == RetentionMs + 1 ==> id !in Sweep(store, now)
  {
  }

  /** A later sweep subsumes an earlier one. */
  lemma SweepLaterSubsumes(store: Store, t1: int, t2: int)
    requires t1 <= t2
    ensures Sweep(Sweep(store, t1), t2) == Sweep(store, t2)
  {
  }

  /** After a sweep evicts a job, polling it answers 404. */
  lemma PollAfterEviction(store: Store, id: string, now: int)
    requires id in store && Expired(store[id], now)
    ensures Lookup(Sweep(store, now), id).code == 404
  {
  }

  /** The sweep neither adds jobs nor alters the ones it keeps, so it
      preserves consistency of every stored job. */
  lemma SweepKeepsConsistency(store: Store, now: int)
    requires forall k :: k in store ==> Consistent(store[k])
    ensures forall k :: k in Sweep(store, now) ==> Consistent(Sweep(store, now)[k])
  {
  }
}
