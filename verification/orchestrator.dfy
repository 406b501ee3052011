/** The background task `processVideo` of src/server.ts together with the
    `.catch` handler the request handler attaches to it, as the sequence of
    store snapshots it produces.

    The task holds the job object it read at the start. Every change it
    makes to that object is followed, with no suspension point in between,
    by `jobs.set(jobId, job)`, and no other code writes under the same id, so
    the object and the stored record agree whenever the record is present and
    the task can be modelled with values. Between the task's suspension points
    (the image fetch, the speech synthesis, the render) the hourly sweep may
    run; those sweeps are the `sweeps` parameter, each given by its `now`. */
module Orchestrator {
  import opened Wrappers
  import opened JobStore
  import OutputLocation

  /** What a failed step threw: an object with or without a string `message`
      (an `Error`, or e.g. a thrown string), or `null`/`undefined`, whose
      `.message` itself throws a `TypeError`. */
  datatype Thrown = Raised(message: Option<string>) | Nullish

  /** How the steps after `processing` ended: the render finished, or some step threw. */
  datatype RenderOutcome = Rendered | Threw(thrown: Thrown)

  /** The snapshots after each sweep run while the task is suspended. */
  function SweepDuring(store: Store, times: seq<int>): (trace: seq<Store>)
    ensures |trace| == |times|
    ensures forall k :: 0 <= k < |trace| ==> forall id :: id in trace[k] ==> id in store && trace[k][id] == store[id]
  {
    if |times| == 0 then []
    else
      var s := Sweep(store, times[0]);
      [s] + SweepDuring(s, times[1..])
  }

  /** The `.catch` attached in `POST /render`: mark the job failed with the
      rejection's message, but only if the record is still stored. */
  function OuterCatch(store: Store, id: string, message: string): (r: Store)
    ensures id in store ==> r.Keys == store.Keys && r[id].status == Failed && r[id].error == Some(message)
    ensures id in store ==> r[id].id == store[id].id && r[id].createdAt == store[id].createdAt
                            && r[id].videoUrl == store[id].videoUrl
    ensures forall k :: k in store && k != id ==> k in r && r[k] == store[k]
    ensures id !in store ==> r == store
  {
    if id in store then store[id := store[id].(status := Failed, error := Some(message))]
    else store
  }

  /** The last statements of the task: the `completed` write after the
      render, or the `catch` block. `held` is the job object the task holds.
      A `null`/`undefined` throw makes `error.message` throw after the status
      was already set on the held object; the task then rejects and the outer
      `.catch` runs with the resulting `TypeError`'s message. */
  function Finish(store: Store, id: string, held: Job, outcome: RenderOutcome, url: string, typeErrorMessage: string): (trace: seq<Store>)
    ensures |trace| >= 1
  {
    match outcome
    case Rendered => [store[id := held.(status := Completed, videoUrl := Some(url))]]
    case Threw(Raised(m)) => [store[id := held.(status := Failed, error := m)]]
    case Threw(Nullish) =>
      var h := held.(status := Failed);
      var s := if id in store then store[id := h] else store;
      [s, OuterCatch(s, id, typeErrorMessage)]
  }

  /** `processVideo(jobId, script, niche, topic)` followed by its `.catch`:
      every store state it leaves behind, in order. An id that is not
      stored makes the task return at once. */
  function ProcessVideo(store: Store, id: string, cwd: string, topic: string, sweeps: seq<int>,
                        outcome: RenderOutcome, typeErrorMessage: string): (trace: seq<Store>)
    ensures |trace| >= 1
  {
    if id !in store then [store]
    else Task(store, id, OutputLocation.VideoUrl(cwd, id, topic), sweeps, outcome, typeErrorMessage)
  }

  /** The task for a stored job whose video will be published at `url`: the
      `processing` write, the sweeps while it is suspended, the final step. */
  function Task(store: Store, id: string, url: string, sweeps: seq<int>,
                outcome: RenderOutcome, typeErrorMessage: string): (trace: seq<Store>)
    requires id in store
    ensures |trace| >= 1
  {
    var held := store[id].(status := Processing);
    var begun := store[id := held];
    var during := SweepDuring(begun, sweeps);
    var before := if |during| == 0 then begun else during[|during| - 1];
    [begun] + during + Finish(before, id, held, outcome, url, typeErrorMessage)
  }

  function Last(trace: seq<Store>): Store
    requires |trace| >= 1
  {
    trace[|trace| - 1]
  }

  /** The job survives every sweep in `times`. */
  predicate Survives(j: Job, times: seq<int>) {
    forall k :: 0 <= k < |times| ==> !Expired(j, times[k])
  }

  // ---------------------------------------------------------------------
  // Properties

  /** The sweeps keep exactly the jobs young enough at every sweep time. */
  lemma {:induction false} SweepDuringKeeps(store: Store, times: seq<int>)
    requires |times| >= 1
    ensures var last := SweepDuring(store, times)[|times| - 1];
            forall id :: id in last <==> id in store && Survives(store[id], times)
  {
    var trace := SweepDuring(store, times);
    if |times| > 1 {
      var s := Sweep(store, times[0]);
      SweepDuringKeeps(s, times[1..]);
      assert trace[|times| - 1] == SweepDuring(s, times[1..])[|times| - 2];
      forall id
        ensures id in trace[|times| - 1] <==> id in store && Survives(store[id], times)
      {
        if id in store && Survives(store[id], times) {
          assert !Expired(store[id], times[0]);
          assert forall k :: 0 <= k < |times[1..]| ==> times[1..][k] == times[k + 1];
        }
        if id in s && Survives(s[id], times[1..]) {
          forall k | 0 <= k < |times|
            ensures !Expired(store[id], times[k])
          {
            if k > 0 {
              assert times[1..][k - 1] == times[k];
            }
          }
        }
      }
    }
  }

  /** Running the task for an id that is not stored changes nothing. */
  lemma ProcessVideoAbsent(store: Store, id: string, cwd: string, topic: string, sweeps: seq<int>,
                           outcome: RenderOutcome, typeErrorMessage: string)
    requires id !in store
    ensures ProcessVideo(store, id, cwd, topic, sweeps, outcome, typeErrorMessage) == [store]
  {
  }

  /** Whatever sweeps ran meanwhile, a finished render leaves the job stored
      as completed with the URL derived from its id and topic, every other
      field as it was. */
  lemma ProcessVideoPublishesUrl(store: Store, id: string, cwd: string, topic: string, sweeps: seq<int>,
                                 typeErrorMessage: string)
    requires id in store
    ensures var last := Last(ProcessVideo(store, id, cwd, topic, sweeps, Rendered, typeErrorMessage));
            && id in last
            && last[id] == store[id].(status := Completed, videoUrl := Some(OutputLocation.VideoUrl(cwd, id, topic)))
  {
    var url := OutputLocation.VideoUrl(cwd, id, topic);
    assert ProcessVideo(store, id, cwd, topic, sweeps, Rendered, typeErrorMessage)
        == Task(store, id, url, sweeps, Rendered, typeErrorMessage);
    RenderedOutcome(store, id, url, sweeps, typeErrorMessage);
  }

  /** The store the final step starts from: the jobs, including the task's
      own `processing` record, that survived every sweep, unchanged. */
  lemma BeforeFinish(store: Store, id: string, sweeps: seq<int>)
    requires id in store
    ensures var begun := store[id := store[id].(status := Processing)];
            var during := SweepDuring(begun, sweeps);
            var before := if |during| == 0 then begun else during[|during| - 1];
            && (forall k :: k in before <==> k in begun && Survives(begun[k], sweeps))
            && (forall k :: k in before ==> before[k] == begun[k])
  {
    var begun := store[id := store[id].(status := Processing)];
    if |sweeps| > 0 {
      SweepDuringKeeps(begun, sweeps);
    }
  }

  /** The last snapshot of the task is the last snapshot of its final step,
      taken from the store the sweeps left. */
  lemma LastOfTask(store: Store, id: string, url: string, sweeps: seq<int>,
                           outcome: RenderOutcome, typeErrorMessage: string)
    requires id in store
    ensures var held := store[id].(status := Processing);
            var during := SweepDuring(store[id := held], sweeps);
            var before := if |during| == 0 then store[id := held] else during[|during| - 1];
            var fin := Finish(before, id, held, outcome, url, typeErrorMessage);
            Last(Task(store, id, url, sweeps, outcome, typeErrorMessage)) == fin[|fin| - 1]
  {
    var held := store[id].(status := Processing);
    var begun := store[id := held];
    var during := SweepDuring(begun, sweeps);
    var before := if |during| == 0 then begun else during[|during| - 1];
    var fin := Finish(before, id, held, outcome, url, typeErrorMessage);
    var trace := Task(store, id, url, sweeps, outcome, typeErrorMessage);
    assert trace == [begun] + during + fin;
    assert trace[|trace| - 1] == fin[|fin| - 1];
  }

  /** The job is still in the store the final step starts from exactly when
      it survived every sweep. */
  lemma SurvivalOfHeld(store: Store, id: string, sweeps: seq<int>)
    requires id in store
    ensures var held := store[id].(status := Processing);
            var during := SweepDuring(store[id := held], sweeps);
            var before := if |during| == 0 then store[id := held] else during[|during| - 1];
            id in before <==> Survives(store[id], sweeps)
  {
    var held := store[id].(status := Processing);
    BeforeFinish(store, id, sweeps);
    assert store[id := held][id] == held;
    assert Survives(held, sweeps) <==> Survives(store[id], sweeps) by {
      assert held.createdAt == store[id].createdAt;
    }
  }

  /** A finished render writes the completed record with its URL back, even
      when a sweep evicted the job meanwhile. */
  lemma RenderedOutcome(store: Store, id: string, url: string, sweeps: seq<int>, typeErrorMessage: string)
    requires id in store
    ensures var last := Last(Task(store, id, url, sweeps, Rendered, typeErrorMessage));
            && id in last && last[id].status == Completed
            && last[id].videoUrl == Some(url)
            && last[id].error == store[id].error
            && last[id].id == store[id].id && last[id].createdAt == store[id].createdAt
  {
    LastOfTask(store, id, url, sweeps, Rendered, typeErrorMessage);
    SurvivalOfHeld(store, id, sweeps);
  }

  /** A thrown error writes a failed record carrying its message back, even
      when a sweep evicted the job meanwhile; it never reads `completed`. */
  lemma RaisedOutcome(store: Store, id: string, url: string, sweeps: seq<int>,
                      message: Option<string>, typeErrorMessage: string)
    requires id in store
    ensures var last := Last(Task(store, id, url, sweeps, Threw(Raised(message)), typeErrorMessage));
            && id in last && last[id].status == Failed
            && last[id].error == message
            && last[id].videoUrl == store[id].videoUrl
            && last[id].id == store[id].id && last[id].createdAt == store[id].createdAt
  {
    LastOfTask(store, id, url, sweeps, Threw(Raised(message)), typeErrorMessage);
    SurvivalOfHeld(store, id, sweeps);
  }

  /** A `null` or `undefined` throw leaves a failed record, with the message
      of the `TypeError` it provoked, exactly when the job was not evicted. */
  lemma NullishOutcome(store: Store, id: string, url: string, sweeps: seq<int>, typeErrorMessage: string)
    requires id in store
    ensures var last := Last(Task(store, id, url, sweeps, Threw(Nullish), typeErrorMessage));
            && (id in last <==> Survives(store[id], sweeps))
            && (id in last ==> last[id].status == Failed && last[id].error == Some(typeErrorMessage)
                                && last[id].id == store[id].id && last[id].createdAt == store[id].createdAt)
  {
    LastOfTask(store, id, url, sweeps, Threw(Nullish), typeErrorMessage);
    SurvivalOfHeld(store, id, sweeps);
  }

  /** The two ends are exclusive: a surviving record reads `completed`
      exactly when the render finished, and `failed` otherwise. */
  lemma TaskOutcome(store: Store, id: string, url: string, sweeps: seq<int>,
                            outcome: RenderOutcome, typeErrorMessage: string)
    requires id in store
    ensures var last := Last(Task(store, id, url, sweeps, outcome, typeErrorMessage));
            && (outcome.Threw? ==> (id in last <==> outcome.thrown.Raised? || Survives(store[id], sweeps)))
            && (id in last ==> (last[id].status == Completed <==> outcome == Rendered))
            && (id in last ==> (last[id].status == Failed <==> outcome.Threw?))
  {
    match outcome
    case Rendered => RenderedOutcome(store, id, url, sweeps, typeErrorMessage);
    case Threw(Raised(m)) => RaisedOutcome(store, id, url, sweeps, m, typeErrorMessage);
    case Threw(Nullish) => NullishOutcome(store, id, url, sweeps, typeErrorMessage);
  }

  /** The job lifecycle: a pending job is seen as `processing` first and its
      status never moves backwards afterwards. */
  lemma TaskMonotone(store: Store, id: string, url: string, sweeps: seq<int>,
                     outcome: RenderOutcome, typeErrorMessage: string)
    requires id in store && store[id].status == Pending
    ensures var trace := Task(store, id, url, sweeps, outcome, typeErrorMessage);
            && trace[0][id].status == Processing
            && forall i, j :: 0 <= i < j < |trace| && id in trace[i] && id in trace[j] ==>
                 Rank(trace[i][id].status) <= Rank(trace[j][id].status)
  {
    var trace: seq<Store> := Task(store, id, url, sweeps, outcome, typeErrorMessage);
    var n := TaskPhases(store, id, url, sweeps, outcome, typeErrorMessage);
    forall i, j | 0 <= i < j < |trace| && id in trace[i] && id in trace[j]
      ensures Rank(trace[i][id].status) <= Rank(trace[j][id].status)
    {
    }
  }

  /** The task's snapshots fall in two phases: the first `n` show the job
      `processing`, the rest show it terminal whenever it is present. */
  lemma TaskPhases(store: Store, id: string, url: string, sweeps: seq<int>,
                   outcome: RenderOutcome, typeErrorMessage: string) returns (n: nat)
    requires id in store
    ensures var trace := Task(store, id, url, sweeps, outcome, typeErrorMessage);
            && 1 <= n < |trace|
            && (forall i :: 0 <= i < n && id in trace[i] ==> trace[i][id].status == Processing)
            && (forall i :: n <= i < |trace| && id in trace[i] ==> IsTerminal(trace[i][id].status))
            && id in trace[0]
  {
    var trace: seq<Store> := Task(store, id, url, sweeps, outcome, typeErrorMessage);
    var held := store[id].(status := Processing);
    var begun := store[id := held];
    var during := SweepDuring(begun, sweeps);
    var before := if |during| == 0 then begun else during[|during| - 1];
    var fin := Finish(before, id, held, outcome, url, typeErrorMessage);
    n := 1 + |during|;
    assert trace == [begun] + during + fin;
    forall i | 0 <= i < |trace| && id in trace[i]
      ensures i < n ==> trace[i][id].status == Processing
      ensures i >= n ==> IsTerminal(trace[i][id].status)
    {
      if 0 < i < n {
        assert trace[i] == during[i - 1];
      } else if i >= n {
        assert trace[i] == fin[i - n];
        FinishIsTerminal(before, id, held, outcome, url, typeErrorMessage, i - n);
      }
    }
  }

  /** Every snapshot of the final step that holds the job shows it terminal. */
  lemma FinishIsTerminal(store: Store, id: string, held: Job, outcome: RenderOutcome, url: string,
                         typeErrorMessage: string, k: nat)
    requires k < |Finish(store, id, held, outcome, url, typeErrorMessage)|
    ensures var s := Finish(store, id, held, outcome, url, typeErrorMessage)[k];
            id in s ==> IsTerminal(s[id].status)
  {
    if outcome == Threw(Nullish) {
      var h := held.(status := Failed);
      var s := if id in store then store[id := h] else store;
      assert id in s ==> s[id] == h;
    }
  }

  /** The final step writes only the task's own record. */
  lemma FinishKeepsOthers(store: Store, id: string, held: Job, outcome: RenderOutcome, url: string,
                          typeErrorMessage: string)
    ensures var fin := Finish(store, id, held, outcome, url, typeErrorMessage);
            forall i, k :: 0 <= i < |fin| && k != id ==>
              && (k in fin[i] <==> k in store)
              && (k in store ==> fin[i][k] == store[k])
  {
  }

  /** The task touches no other job: every other record in any snapshot is
      the record it had before. */
  lemma TaskIsolated(store: Store, id: string, url: string, sweeps: seq<int>,
                             outcome: RenderOutcome, typeErrorMessage: string)
    requires id in store
    ensures var trace := Task(store, id, url, sweeps, outcome, typeErrorMessage);
            forall i, k :: 0 <= i < |trace| && k in trace[i] && k != id ==> k in store && trace[i][k] == store[k]
  {
    var trace: seq<Store> := Task(store, id, url, sweeps, outcome, typeErrorMessage);
    var held := store[id].(status := Processing);
    var begun := store[id := held];
    var during := SweepDuring(begun, sweeps);
    var before := if |during| == 0 then begun else during[|during| - 1];
    var fin := Finish(before, id, held, outcome, url, typeErrorMessage);
    assert trace == [begun] + during + fin;
    FinishKeepsOthers(before, id, held, outcome, url, typeErrorMessage);
    forall i, k | 0 <= i < |trace| && k in trace[i] && k != id
      ensures k in store && trace[i][k] == store[k]
    {
      if 0 < i <= |during| {
        assert trace[i] == during[i - 1];
      } else if i > |during| {
        assert trace[i] == fin[i - 1 - |during|];
      }
    }
  }

  /** At the end exactly the other jobs that survived all the sweeps remain. */
  lemma TaskOthersAtEnd(store: Store, id: string, url: string, sweeps: seq<int>,
                                outcome: RenderOutcome, typeErrorMessage: string)
    requires id in store
    ensures var last := Last(Task(store, id, url, sweeps, outcome, typeErrorMessage));
            forall k :: k != id ==> (k in last <==> k in store && Survives(store[k], sweeps))
  {
    var held := store[id].(status := Processing);
    var begun := store[id := held];
    var during := SweepDuring(begun, sweeps);
    var before := if |during| == 0 then begun else during[|during| - 1];
    var fin := Finish(before, id, held, outcome, url, typeErrorMessage);
    LastOfTask(store, id, url, sweeps, outcome, typeErrorMessage);
    BeforeFinish(store, id, sweeps);
    FinishKeepsOthers(before, id, held, outcome, url, typeErrorMessage);
    var last := fin[|fin| - 1];
    forall k | k != id
      ensures k in last <==> k in store && Survives(store[k], sweeps)
    {
      assert k in last <==> k in before;
      assert k in store ==> begun[k] == store[k];
    }
  }

  /** Every record the task leaves for a fresh job has the fields its status
      calls for; in the final store a failed record lacks an error text
      exactly when a non-null value without `message` was thrown (a thrown
      `null` ends with the `TypeError` text instead). */
  lemma TaskConsistent(store: Store, id: string, url: string, sweeps: seq<int>,
                               outcome: RenderOutcome, typeErrorMessage: string)
    requires id in store && store[id] == NewJob(id, store[id].createdAt)
    ensures var trace := Task(store, id, url, sweeps, outcome, typeErrorMessage);
            && (forall i :: 0 <= i < |trace| && id in trace[i] ==> Consistent(trace[i][id]))
            && (id in Last(trace) && Last(trace)[id].status == Failed ==>
                  (Last(trace)[id].error.None? <==> outcome == Threw(Raised(None))))
  {
    var trace: seq<Store> := Task(store, id, url, sweeps, outcome, typeErrorMessage);
    var held := store[id].(status := Processing);
    var begun := store[id := held];
    var during := SweepDuring(begun, sweeps);
    forall i | 0 <= i < |trace| && id in trace[i]
      ensures Consistent(trace[i][id])
    {
      if 0 < i <= |during| {
        assert trace[i] == during[i - 1];
      }
    }
    TaskOutcome(store, id, url, sweeps, outcome, typeErrorMessage);
  }

  /** A valid request with no sweep before the render finishes ends as a
      completed job whose URL names the file derived from its id and topic. */
  lemma SubmitThenRender(store: Store, body: RenderBody, freshId: string, now: int, cwd: string)
    requires ValidBody(body) && |cwd| > 0 && '/' !in freshId && '/' !in body.topic.value
    ensures var created := Submit(store, body, freshId, now).1;
            var last := Last(ProcessVideo(created, freshId, cwd, body.topic.value, [], Rendered, ""));
            && freshId in last && last[freshId].status == Completed && last[freshId].error.None?
            && last[freshId].videoUrl == Some("/out/" + OutputLocation.FileName(freshId, body.topic.value))
  {
    var created := Submit(store, body, freshId, now).1;
    RenderedOutcome(created, freshId, OutputLocation.VideoUrl(cwd, freshId, body.topic.value), [], "");
    OutputLocation.VideoUrlOfPlainTopic(cwd, freshId, body.topic.value);
  }
}
