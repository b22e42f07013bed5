/**
 The concurrency-limited worker pool of the fixture capture, as a state machine. Workers
 share one counter; between two `await`s a worker runs alone, so a step is one worker
 going from one `await` to the next, and a schedule is any order of such steps.
 */
module WorkerPool {
  import opened Common

  /** Where a worker is suspended: on the fetch, on the fixture write, or on its own callback. */
  datatype Worker = Fetching(item: nat) | Writing(item: nat) | Returning(item: nat) | Finished

  /** `n` candidates, the requested limit, and what each candidate's callback will do. */
  datatype Job<R> = Job(n: nat, limit: int, write: bool, fetched: nat -> bool, value: nat -> R)
  {
    /** Workers created: `Array.from` makes none for a negative length. */
    function Workers(): nat {
      Max(0, Min(limit, n))
    }
  }

  /** `statuses`, `captured` and `written` grow in completion order; `started` is every callback call made. */
  datatype Pool<R> = Pool(
    next: nat,
    workers: seq<Worker>,
    results: map<nat, R>,
    statuses: seq<(nat, bool)>,
    captured: seq<nat>,
    written: seq<nat>,
    started: seq<nat>)

  function Upto(k: nat): (s: seq<nat>)
    ensures |s| == k && forall i :: 0 <= i < k ==> s[i] == i
  {
    if k == 0 then [] else Upto(k - 1) + [k - 1]
  }

  /** Every worker runs at once up to its first `await`, in order of creation. */
  function Init<R>(job: Job<R>): Pool<R> {
    var m := job.Workers();
    Pool(m, seq(m, i requires 0 <= i < m => Fetching(i)), map[], [], [], [], Upto(m))
  }

  /** Head of the worker loop: claim the next item, or stop. */
  function Claim<R>(job: Job<R>, s: Pool<R>, w: nat): Pool<R>
    requires w < |s.workers|
  {
    if s.next < job.n then
      s.(next := s.next + 1, workers := s.workers[w := Fetching(s.next)], started := s.started + [s.next])
    else s.(workers := s.workers[w := Finished])
  }

  /** Worker `w` resumes and runs to its next `await`. */
  function Step<R>(job: Job<R>, s: Pool<R>, w: nat): Pool<R>
    requires w < |s.workers| && !s.workers[w].Finished?
  {
    match s.workers[w]
    case Fetching(i) =>
      s.(workers := s.workers[w := if job.fetched(i) && job.write then Writing(i) else Returning(i)],
         statuses := s.statuses + [(i, job.fetched(i))],
         captured := if job.fetched(i) then s.captured + [i] else s.captured)
    case Writing(i) => s.(workers := s.workers[w := Returning(i)], written := s.written + [i])
    case Returning(i) => Claim(job, s.(results := s.results[i := job.value(i)]), w)
  }

  /** A schedule names who resumes next; names of absent or finished workers are skipped. */
  function Run<R>(job: Job<R>, s: Pool<R>, schedule: seq<nat>): Pool<R>
    decreases |schedule|
  {
    if schedule == [] then s
    else if schedule[0] < |s.workers| && !s.workers[schedule[0]].Finished?
    then Run(job, Step(job, s, schedule[0]), schedule[1..])
    else Run(job, s, schedule[1..])
  }

  // ---- the invariant ----

  ghost predicate Busy(ws: seq<Worker>, i: nat) {
    exists a :: 0 <= a < |ws| && !ws[a].Finished? && ws[a].item == i
  }

  ghost predicate InFetch(ws: seq<Worker>, i: nat) {
    exists a :: 0 <= a < |ws| && ws[a] == Fetching(i)
  }

  /** Each claimed item is on one worker only, and a worker stops only when nothing is left. */
  ghost predicate WorkersOk<R>(job: Job<R>, s: Pool<R>) {
    && |s.workers| == job.Workers() && s.next <= job.n && s.started == Upto(s.next)
    && (forall a :: 0 <= a < |s.workers| && !s.workers[a].Finished? ==> s.workers[a].item < s.next)
    && (forall a, b :: 0 <= a < b < |s.workers| && !s.workers[a].Finished? && !s.workers[b].Finished?
                       ==> s.workers[a].item != s.workers[b].item)
    && (forall a :: 0 <= a < |s.workers| && s.workers[a].Finished? ==> s.next == job.n)
    && (job.Workers() > 0 || s.next == 0)
  }

  /** Results are there exactly for the items whose worker has moved on. */
  ghost predicate ResultsOk<R>(job: Job<R>, s: Pool<R>) {
    && (forall i: nat :: i in s.results <==> i < s.next && !Busy(s.workers, i))
    && (forall i: nat :: i in s.results ==> s.results[i] == job.value(i))
  }

  function Oks(statuses: seq<(nat, bool)>): seq<nat> {
    if statuses == [] then []
    else
      var k := |statuses| - 1;
      Oks(statuses[..k]) + if statuses[k].1 then [statuses[k].0] else []
  }

  ghost predicate Reported(statuses: seq<(nat, bool)>, i: nat) {
    exists k :: 0 <= k < |statuses| && statuses[k].0 == i
  }

  /** One status for each item whose fetch has settled; captures are the successful ones, in order. */
  ghost predicate StatusesOk<R>(job: Job<R>, s: Pool<R>) {
    && (forall i: nat :: Reported(s.statuses, i) <==> i < s.next && !InFetch(s.workers, i))
    && (forall k, l :: 0 <= k < l < |s.statuses| ==> s.statuses[k].0 != s.statuses[l].0)
    && (forall k :: 0 <= k < |s.statuses| ==> s.statuses[k].1 == job.fetched(s.statuses[k].0))
    && s.captured == Oks(s.statuses)
  }

  ghost predicate InWrite(ws: seq<Worker>, i: nat) {
    exists a :: 0 <= a < |ws| && ws[a] == Writing(i)
  }

  /** If fixtures are to be written, each captured one is, once, before its callback returns. */
  ghost predicate WrittenOk<R>(job: Job<R>, s: Pool<R>) {
    && (forall i: nat :: InWrite(s.workers, i) ==> job.write && job.fetched(i))
    && (forall i: nat :: i in s.written <==> job.write && job.fetched(i) && i < s.next
                                             && !InFetch(s.workers, i) && !InWrite(s.workers, i))
    && Distinct(s.written)
  }

  ghost predicate Inv<R>(job: Job<R>, s: Pool<R>) {
    WorkersOk(job, s) && ResultsOk(job, s) && StatusesOk(job, s) && WrittenOk(job, s)
  }

  lemma InitInv<R>(job: Job<R>)
    ensures Inv(job, Init(job))
  {
    var s := Init(job);
    forall i: nat | i < s.next ensures Busy(s.workers, i) && InFetch(s.workers, i) {
      assert s.workers[i] == Fetching(i);
    }
  }

  lemma StepWorkers<R>(job: Job<R>, s: Pool<R>, w: nat)
    requires Inv(job, s) && w < |s.workers| && !s.workers[w].Finished?
    ensures WorkersOk(job, Step(job, s, w))
  {
  }

  /** Changing one worker changes who is busy only for the items it had and has. */
  lemma BusyAfter(ws: seq<Worker>, w: nat, v: Worker, i: nat)
    requires w < |ws|
    requires forall a, b :: 0 <= a < b < |ws| && !ws[a].Finished? && !ws[b].Finished? ==> ws[a].item != ws[b].item
    requires !ws[w].Finished?
    ensures Busy(ws[w := v], i) <==> (!v.Finished? && v.item == i) || (Busy(ws, i) && i != ws[w].item)
    ensures InFetch(ws[w := v], i) <==> v == Fetching(i) || (InFetch(ws, i) && i != ws[w].item)
  {
    var ws' := ws[w := v];
    assert ws'[w] == v;
    if Busy(ws, i) {
      var a :| 0 <= a < |ws| && !ws[a].Finished? && ws[a].item == i;
      assert a != w ==> ws'[a] == ws[a];
    }
    if InFetch(ws, i) {
      var a :| 0 <= a < |ws| && ws[a] == Fetching(i);
      assert a != w ==> ws'[a] == ws[a];
    }
  }

  lemma StepResults<R>(job: Job<R>, s: Pool<R>, w: nat)
    requires Inv(job, s) && w < |s.workers| && !s.workers[w].Finished?
    ensures ResultsOk(job, Step(job, s, w))
  {
    var s' := Step(job, s, w);
    var done := s.workers[w].item;
    assert Busy(s.workers, done);
    forall i: nat ensures i in s'.results <==> i < s'.next && !Busy(s'.workers, i) {
      BusyAfter(s.workers, w, s'.workers[w], i);
      assert i in s.results <==> i < s.next && !Busy(s.workers, i);
      assert !Busy(s.workers, s.next);
    }
  }

  lemma StepStatuses<R>(job: Job<R>, s: Pool<R>, w: nat)
    requires Inv(job, s) && w < |s.workers| && !s.workers[w].Finished?
    ensures StatusesOk(job, Step(job, s, w))
  {
    var s' := Step(job, s, w);
    var item := s.workers[w].item;
    if s.workers[w].Fetching? {
      assert InFetch(s.workers, item);
      assert s'.statuses[..|s.statuses|] == s.statuses;
    }
    forall i: nat ensures Reported(s'.statuses, i) <==> i < s'.next && !InFetch(s'.workers, i) {
      BusyAfter(s.workers, w, s'.workers[w], i);
      ReportedAfter(s.statuses, s'.statuses, i);
      assert Reported(s.statuses, i) <==> i < s.next && !InFetch(s.workers, i);
      if InFetch(s.workers, item) {
        var a :| 0 <= a < |s.workers| && s.workers[a] == Fetching(item);
        assert a == w;
      }
    }
    forall k | 0 <= k < |s.statuses| ensures s.workers[w].Fetching? ==> s.statuses[k].0 != item {
      assert Reported(s.statuses, s.statuses[k].0);
    }
  }

  lemma InWriteAfter(ws: seq<Worker>, w: nat, v: Worker, i: nat)
    requires w < |ws| && ws[w] != Writing(i)
    ensures InWrite(ws[w := v], i) <==> v == Writing(i) || InWrite(ws, i)
  {
    var ws' := ws[w := v];
    assert v == Writing(i) ==> ws'[w] == Writing(i);
    if a :| 0 <= a < |ws| && ws[a] == Writing(i) {
      assert ws'[a] == ws[a];
    }
  }

  lemma WriteEnds<R>(job: Job<R>, s: Pool<R>, w: nat, i: nat)
    requires WorkersOk(job, s) && w < |s.workers| && s.workers[w] == Writing(i)
    ensures !InWrite(s.workers[w := Returning(i)], i) && !InFetch(s.workers, i)
  {
    forall a | 0 <= a < |s.workers| && a != w ensures s.workers[a].Finished? || s.workers[a].item != i {
      assert s.workers[w].item == i;
    }
  }

  lemma StepWritten<R>(job: Job<R>, s: Pool<R>, w: nat)
    requires Inv(job, s) && w < |s.workers| && !s.workers[w].Finished?
    ensures WrittenOk(job, Step(job, s, w))
  {
    var s' := Step(job, s, w);
    var v, item := s'.workers[w], s.workers[w].item;
    if s.workers[w].Writing? {
      WriteEnds(job, s, w, item);
      assert InWrite(s.workers, item);
      DistinctJoin(s.written, [item]);
    }
    forall i: nat
      ensures InWrite(s'.workers, i) ==> job.write && job.fetched(i)
      ensures i in s'.written <==> job.write && job.fetched(i) && i < s'.next
                                   && !InFetch(s'.workers, i) && !InWrite(s'.workers, i)
    {
      BusyAfter(s.workers, w, v, i);
      if s.workers[w] != Writing(i) {
        InWriteAfter(s.workers, w, v, i);
      }
      assert i in s.written <==> job.write && job.fetched(i) && i < s.next
                                 && !InFetch(s.workers, i) && !InWrite(s.workers, i);
      FetchIsNoWrite(job, s, w, i);
    }
  }

  /** The item a worker is on is on no other, so it is neither fetched nor written elsewhere. */
  lemma FetchIsNoWrite<R>(job: Job<R>, s: Pool<R>, w: nat, i: nat)
    requires WorkersOk(job, s) && w < |s.workers| && !s.workers[w].Finished?
    ensures i == s.workers[w].item ==> (InFetch(s.workers, i) <==> s.workers[w].Fetching?)
    ensures i == s.workers[w].item ==> (InWrite(s.workers, i) <==> s.workers[w].Writing?)
    ensures InFetch(s.workers, i) || InWrite(s.workers, i) ==> i < s.next
  {
    if a :| 0 <= a < |s.workers| && s.workers[a] == Fetching(i) {
      assert i == s.workers[w].item ==> a == w;
    }
    if a :| 0 <= a < |s.workers| && s.workers[a] == Writing(i) {
      assert i == s.workers[w].item ==> a == w;
    }
  }

  lemma ReportedAfter(before: seq<(nat, bool)>, after: seq<(nat, bool)>, i: nat)
    requires |before| <= |after| <= |before| + 1 && after[..|before|] == before
    ensures Reported(after, i) <==> Reported(before, i) || (|after| > |before| && after[|before|].0 == i)
  {
    forall k | 0 <= k < |before| ensures after[k] == before[k] {
      assert after[..|before|][k] == before[k];
    }
    if Reported(before, i) {
      var k :| 0 <= k < |before| && before[k].0 == i;
      assert after[k].0 == i;
    }
  }

  /** The invariant holds in every state every schedule reaches. */
  lemma {:induction false} RunInv<R>(job: Job<R>, s: Pool<R>, schedule: seq<nat>)
    requires Inv(job, s)
    ensures Inv(job, Run(job, s, schedule))
    decreases |schedule|
  {
    if schedule != [] {
      var w := schedule[0];
      if w < |s.workers| && !s.workers[w].Finished? {
        StepWorkers(job, s, w);
        StepResults(job, s, w);
        StepStatuses(job, s, w);
        StepWritten(job, s, w);
        RunInv(job, Step(job, s, w), schedule[1..]);
      } else {
        RunInv(job, s, schedule[1..]);
      }
    }
  }

  // ---- termination ----

  function Weight(w: Worker): nat {
    match w
    case Fetching(_) => 3
    case Writing(_) => 2
    case Returning(_) => 1
    case Finished => 0
  }

  function TotalWeight(ws: seq<Worker>): nat {
    if ws == [] then 0 else Weight(ws[0]) + TotalWeight(ws[1..])
  }

  /** Steps any schedule can still make. */
  function Remaining<R>(job: Job<R>, s: Pool<R>): nat
    requires s.next <= job.n
  {
    3 * (job.n - s.next) + TotalWeight(s.workers)
  }

  lemma {:induction false} UpdateWeight(ws: seq<Worker>, w: nat, v: Worker)
    requires w < |ws|
    ensures TotalWeight(ws[w := v]) == TotalWeight(ws) - Weight(ws[w]) + Weight(v)
    decreases w
  {
    if w > 0 {
      UpdateWeight(ws[1..], w - 1, v);
      assert ws[w := v][1..] == ws[1..][w - 1 := v];
    } else {
      assert ws[w := v][1..] == ws[1..];
    }
  }

  /** No schedule runs for ever: each step uses up some of at most three steps per item. */
  lemma StepUsesUp<R>(job: Job<R>, s: Pool<R>, w: nat)
    requires Inv(job, s) && w < |s.workers| && !s.workers[w].Finished?
    ensures Step(job, s, w).next <= job.n
    ensures Remaining(job, Step(job, s, w)) < Remaining(job, s)
  {
    UpdateWeight(s.workers, w, Step(job, s, w).workers[w]);
  }

  // ---- what a finished pool has done ----

  ghost predicate AllFinished<R>(s: Pool<R>) {
    forall a :: 0 <= a < |s.workers| ==> s.workers[a].Finished?
  }

  function Failures(statuses: seq<(nat, bool)>): nat {
    if statuses == [] then 0 else Failures(statuses[..|statuses| - 1]) + if statuses[|statuses| - 1].1 then 0 else 1
  }

  lemma {:induction false} CountsAddUp(statuses: seq<(nat, bool)>)
    ensures |Oks(statuses)| + Failures(statuses) == |statuses|
  {
    if statuses != [] {
      CountsAddUp(statuses[..|statuses| - 1]);
    }
  }

  /** Distinct reported items that are exactly the first `k` number `k`. */
  lemma StatusesNumber(statuses: seq<(nat, bool)>, k: nat)
    requires forall i: nat :: Reported(statuses, i) <==> i < k
    requires forall a, b :: 0 <= a < b < |statuses| ==> statuses[a].0 != statuses[b].0
    ensures |statuses| == k
  {
    var items := seq(|statuses|, a requires 0 <= a < |statuses| => statuses[a].0);
    assert Elements(items) == Elements(Upto(k)) by {
      forall i | i in Elements(items) ensures i in Elements(Upto(k)) {
        var a :| 0 <= a < |items| && items[a] == i;
        assert Reported(statuses, statuses[a].0);
        assert Upto(k)[i] == i;
      }
      forall i | i in Elements(Upto(k)) ensures i in Elements(items) {
        assert Reported(statuses, i);
        var a :| 0 <= a < |statuses| && statuses[a].0 == i;
        assert items[a] == i;
      }
    }
    DistinctCardinality(items);
    DistinctCardinality(Upto(k));
  }

  /** Each item was started once, and every result, status and capture is accounted for. */
  ghost predicate Complete<R>(job: Job<R>, s: Pool<R>) {
    && s.started == Upto(job.n)
    && (forall i: nat :: i in s.results <==> i < job.n)
    && (forall i: nat :: i < job.n ==> s.results[i] == job.value(i))
    && |s.statuses| == job.n && (forall i: nat :: i < job.n ==> Reported(s.statuses, i))
    && s.captured == Oks(s.statuses) && |s.captured| + Failures(s.statuses) == job.n
    && (forall i: nat :: i in s.written <==> job.write && i < job.n && job.fetched(i)) && Distinct(s.written)
  }

  /**
   When every worker of any schedule has stopped, the work is complete exactly when the
   limit allows a worker or there is nothing to do; as many workers ran as the limit and the items allow.
   */
  lemma FinishedPool<R>(job: Job<R>, schedule: seq<nat>)
    requires AllFinished(Run(job, Init(job), schedule))
    ensures var s := Run(job, Init(job), schedule);
            && |s.workers| == (if job.limit <= 0 then 0 else if job.limit < job.n then job.limit else job.n)
            && (Complete(job, s) <==> job.limit >= 1 || job.n == 0)
  {
    var s := Run(job, Init(job), schedule);
    InitInv(job);
    RunInv(job, Init(job), schedule);
    if job.limit >= 1 || job.n == 0 {
      if job.n > 0 {
        assert s.workers[0].Finished?;
      }
      assert s.next == job.n;
      FinishedIsComplete(job, s);
    } else {
      assert s.next == 0;
    }
  }

  lemma FinishedIsComplete<R>(job: Job<R>, s: Pool<R>)
    requires Inv(job, s) && AllFinished(s) && s.next == job.n
    ensures Complete(job, s)
  {
    CountsAddUp(s.statuses);
    StatusesNumber(s.statuses, job.n);
  }
}
