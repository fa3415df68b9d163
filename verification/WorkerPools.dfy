/** The worker pool (`worker_pool.go`) as interleaved steps of the owner, the workers and a collector. */
module WorkerPools {
  import opened Occurrences

  datatype Worker<J, G> = Idle | Running(job: J) | Holding(result: G) | Finished

  /** `todo` are the jobs the owner has still to add, `added` those it has added, `sent` all results
      sent so far; the channels hold `queue` and `results`. */
  datatype State<J, G> = State(numWorkers: nat, capacity: nat, todo: seq<J>, added: seq<J>, queue: seq<J>, closed: bool,
                               workers: seq<Worker<J, G>>, results: seq<G>, sent: seq<G>, resultsClosed: bool)

  /** The owner spawns workers, adds jobs, closes the queue and waits; worker `i` takes a job, runs it,
      sends the result, or returns; a result is collected. */
  datatype Action = Spawn | AddJob | Close | WaitReturns | Take(i: nat) | Run(i: nat) | Send(i: nat) | Return(i: nat) |
    Collect

  /** A step may have to wait, and a send on a closed channel panics. */
  datatype Outcome<J, G> = Blocked | Panicked | Ok(s: State<J, G>)

  function Do<J, G>(s: State<J, G>, a: Action, f: J -> G): Outcome<J, G> {
    match a
    case Spawn =>
      if |s.workers| < s.numWorkers && !s.resultsClosed then Ok(s.(workers := s.workers + [Idle])) else Blocked
    case AddJob =>
      if s.todo == [] then Blocked
      else if s.closed then Panicked
      else if |s.queue| >= s.capacity then Blocked
      else Ok(s.(todo := s.todo[1..], added := s.added + [s.todo[0]], queue := s.queue + [s.todo[0]]))
    case Close =>
      if s.todo == [] && !s.closed then Ok(s.(closed := true)) else Blocked
    case WaitReturns =>
      if s.closed && |s.workers| == s.numWorkers && !s.resultsClosed &&
        (forall k :: 0 <= k < |s.workers| ==> s.workers[k].Finished?)
      then Ok(s.(resultsClosed := true)) else Blocked
    case Take(i) =>
      if i < |s.workers| && s.workers[i].Idle? && s.queue != []
      then Ok(s.(workers := s.workers[i := Running(s.queue[0])], queue := s.queue[1..])) else Blocked
    case Run(i) =>
      if i < |s.workers| && s.workers[i].Running? then Ok(s.(workers := s.workers[i := Holding(f(s.workers[i].job))]))
      else Blocked
    case Send(i) =>
      if i >= |s.workers| || !s.workers[i].Holding? then Blocked
      else if s.resultsClosed then Panicked
      else if |s.results| >= s.capacity then Blocked
      else Ok(s.(workers := s.workers[i := Idle], results := s.results + [s.workers[i].result],
                 sent := s.sent + [s.workers[i].result]))
    case Return(i) =>
      if i < |s.workers| && s.workers[i].Idle? && s.queue == [] && s.closed then
        Ok(s.(workers := s.workers[i := Finished]))
      else Blocked
    case Collect =>
      if s.results != [] then Ok(s.(results := s.results[1..])) else Blocked
  }

  function Init<J, G>(numWorkers: nat, capacity: nat, jobs: seq<J>): State<J, G> {
    State(numWorkers, capacity, jobs, [], [], false, [], [], [], false)
  }

  /** Every action of the run is possible when its turn comes, except that the last one may panic. */
  function Exec<J, G>(s: State<J, G>, run: seq<Action>, f: J -> G): Outcome<J, G>
    decreases |run|
  {
    if run == [] then Ok(s) else
    var o := Do(s, run[0], f);
    if o.Ok? then Exec(o.s, run[1..], f) else o
  }

  // ----- conservation -----

  function Mapped<J, G>(jobs: seq<J>, f: J -> G): (results: seq<G>)
    ensures |results| == |jobs|
  {
    seq(|jobs|, i requires 0 <= i < |jobs| => f(jobs[i]))
  }

  /** How often a worker owes the result. */
  ghost function Owed<J, G>(w: Worker<J, G>, f: J -> G, g: G): nat {
    match w
    case Running(job) => if f(job) == g then 1 else 0
    case Holding(result) => if result == g then 1 else 0
    case _ => 0
  }

  ghost function AllOwed<J, G>(ws: seq<Worker<J, G>>, f: J -> G, g: G): nat {
    if ws == [] then 0 else AllOwed(ws[..|ws| - 1], f, g) + Owed(ws[|ws| - 1], f, g)
  }

  lemma {:induction false} OwedUpdate<J, G>(ws: seq<Worker<J, G>>, i: nat, w: Worker<J, G>, f: J -> G, g: G)
    requires i < |ws|
    ensures AllOwed(ws[i := w], f, g) + Owed(ws[i], f, g) == AllOwed(ws, f, g) + Owed(w, f, g)
  {
    var n := |ws| - 1;
    if i < n {
      OwedUpdate(ws[..n], i, w, f, g);
      assert ws[i := w][..n] == ws[..n][i := w];
    } else {
      assert ws[i := w][..n] == ws[..n];
    }
  }

  /** Each result due for an added job is sent, owed by a worker, or due for a job in the queue. */
  ghost predicate Conserved<J, G(!new)>(s: State<J, G>, f: J -> G) {
    forall g :: Times(Mapped(s.added, f), g) ==
      Times(s.sent, g) + AllOwed(s.workers, f, g) + Times(Mapped(s.queue, f), g)
  }

  /** A worker returns only once the queue is closed and empty, and the results are closed only once
      all workers have returned. */
  ghost predicate Orderly<J, G>(s: State<J, G>) {
    |s.workers| <= s.numWorkers && (s.closed ==> s.todo == []) &&
    (forall k :: 0 <= k < |s.workers| && s.workers[k].Finished? ==> s.closed && s.queue == []) &&
    (s.resultsClosed ==>
      s.closed && |s.workers| == s.numWorkers && forall k :: 0 <= k < |s.workers| ==> s.workers[k].Finished?)
  }

  ghost predicate Inv<J, G(!new)>(s: State<J, G>, f: J -> G) {
    Orderly(s) && Conserved(s, f)
  }

  lemma OrderlyStep<J, G>(s: State<J, G>, a: Action, f: J -> G)
    requires Orderly(s)
    ensures var o := Do(s, a, f); !o.Panicked? && (o.Ok? ==> Orderly(o.s))
  {
  }

  lemma ConservedStep<J, G(!new)>(s: State<J, G>, a: Action, f: J -> G)
    requires Conserved(s, f) && Do(s, a, f).Ok?
    ensures Conserved(Do(s, a, f).s, f)
  {
    var t := Do(s, a, f).s;
    forall g
      ensures Times(Mapped(t.added, f), g) == Times(t.sent, g) + AllOwed(t.workers, f, g) + Times(Mapped(t.queue, f), g)
    {
      assert Times(Mapped(s.added, f), g) == Times(s.sent, g) + AllOwed(s.workers, f, g) + Times(Mapped(s.queue, f), g);
      ConservedFor(s, a, f, g);
    }
  }

  lemma ConservedFor<J, G>(s: State<J, G>, a: Action, f: J -> G, g: G)
    requires Times(Mapped(s.added, f), g) == Times(s.sent, g) + AllOwed(s.workers, f, g) + Times(Mapped(s.queue, f), g)
    requires Do(s, a, f).Ok?
    ensures var t := Do(s, a, f).s;
      Times(Mapped(t.added, f), g) == Times(t.sent, g) + AllOwed(t.workers, f, g) + Times(Mapped(t.queue, f), g)
  {
    match a
    case Spawn => assert (s.workers + [Idle])[..|s.workers|] == s.workers;
    case AddJob =>
      var j := s.todo[0];
      assert Mapped(s.added + [j], f) == Mapped(s.added, f) + [f(j)] &&
        Mapped(s.queue + [j], f) == Mapped(s.queue, f) + [f(j)];
      TimesSnoc(Mapped(s.added, f), f(j), g);
      TimesSnoc(Mapped(s.queue, f), f(j), g);
    case Take(i) =>
      OwedUpdate(s.workers, i, Running(s.queue[0]), f, g);
      assert Mapped(s.queue, f)[1..] == Mapped(s.queue[1..], f);
    case Run(i) => OwedUpdate(s.workers, i, Holding(f(s.workers[i].job)), f, g);
    case Send(i) =>
      OwedUpdate(s.workers, i, Idle, f, g);
      TimesSnoc(s.sent, s.workers[i].result, g);
    case Return(i) => OwedUpdate(s.workers, i, Finished, f, g);
    case _ =>
  }

  // ----- every run -----

  lemma {:induction false} RunKeeps<J, G(!new)>(s: State<J, G>, run: seq<Action>, f: J -> G)
    requires Inv(s, f)
    ensures !Exec(s, run, f).Panicked?
    ensures var o := Exec(s, run, f); o.Ok? ==>
      Inv(o.s, f) && o.s.added + o.s.todo == s.added + s.todo && o.s.numWorkers == s.numWorkers
    decreases |run|
  {
    if run != [] {
      OrderlyStep(s, run[0], f);
      var o := Do(s, run[0], f);
      if o.Ok? {
        ConservedStep(s, run[0], f);
        AddsInOrder(s, run[0], f);
        RunKeeps(o.s, run[1..], f);
      }
    }
  }

  lemma AddsInOrder<J, G>(s: State<J, G>, a: Action, f: J -> G)
    requires Do(s, a, f).Ok?
    ensures var t := Do(s, a, f).s;
      t.added + t.todo == s.added + s.todo && t.numWorkers == s.numWorkers && t.capacity == s.capacity
  {
    if a.AddJob? {
      assert s.todo == [s.todo[0]] + s.todo[1..];
    }
  }

  lemma {:induction false} NothingOwed<J, G>(ws: seq<Worker<J, G>>, f: J -> G, g: G)
    requires forall k :: 0 <= k < |ws| ==> ws[k].Finished?
    ensures AllOwed(ws, f, g) == 0
  {
    if ws != [] { NothingOwed(ws[..|ws| - 1], f, g); }
  }

  /** No run sends on a closed channel; once Wait has returned, the results sent are those of exactly
      the jobs, each as often as it is due. */
  lemma PoolIsSafe<J, G(!new)>(numWorkers: nat, capacity: nat, jobs: seq<J>, run: seq<Action>, f: J -> G)
    ensures !Exec(Init(numWorkers, capacity, jobs), run, f).Panicked?
    ensures var o := Exec(Init(numWorkers, capacity, jobs), run, f);
      o.Ok? && o.s.resultsClosed && numWorkers >= 1 ==> forall g :: Times(o.s.sent, g) == Times(Mapped(jobs, f), g)
  {
    var s0 := Init<J, G>(numWorkers, capacity, jobs);
    RunKeeps(s0, run, f);
    var o := Exec(s0, run, f);
    if o.Ok? && o.s.resultsClosed && numWorkers >= 1 {
      var s := o.s;
      assert s.workers[0].Finished?;
      assert s.added == s.added + s.todo == [] + jobs == jobs;
      forall g
        ensures Times(s.sent, g) == Times(Mapped(jobs, f), g)
      {
        NothingOwed(s.workers, f, g);
        assert Times(Mapped(s.added, f), g) ==
          Times(s.sent, g) + AllOwed(s.workers, f, g) + Times(Mapped(s.queue, f), g);
      }
    }
  }

  // ----- progress -----

  /** No more results are under way than jobs were added. */
  function Busy<J, G>(ws: seq<Worker<J, G>>): nat {
    if ws == [] then 0 else
    Busy(ws[..|ws| - 1]) + (if ws[|ws| - 1].Running? || ws[|ws| - 1].Holding? then 1 else 0)
  }

  lemma {:induction false} BusyUpdate<J, G>(ws: seq<Worker<J, G>>, i: nat, w: Worker<J, G>)
    requires i < |ws|
    ensures Busy(ws[i := w]) + (if ws[i].Running? || ws[i].Holding? then 1 else 0) ==
            Busy(ws) + (if w.Running? || w.Holding? then 1 else 0)
  {
    var n := |ws| - 1;
    if i < n {
      BusyUpdate(ws[..n], i, w);
      assert ws[i := w][..n] == ws[..n][i := w];
    } else {
      assert ws[i := w][..n] == ws[..n];
    }
  }

  ghost predicate Room<J, G>(s: State<J, G>) {
    |s.sent| + Busy(s.workers) + |s.queue| == |s.added| && |s.results| <= |s.sent| && |s.added| + |s.todo| <= s.capacity
  }

  lemma RoomStep<J, G>(s: State<J, G>, a: Action, f: J -> G)
    requires Room(s) && Do(s, a, f).Ok?
    ensures Room(Do(s, a, f).s)
  {
    match a
    case Spawn => assert (s.workers + [Idle])[..|s.workers|] == s.workers;
    case Take(i) => BusyUpdate(s.workers, i, Running(s.queue[0]));
    case Run(i) => BusyUpdate(s.workers, i, Holding(f(s.workers[i].job)));
    case Send(i) => BusyUpdate(s.workers, i, Idle);
    case Return(i) => BusyUpdate(s.workers, i, Finished);
    case _ =>
  }

  lemma {:induction false} BusyPositive<J, G>(ws: seq<Worker<J, G>>, i: nat)
    requires i < |ws| && (ws[i].Running? || ws[i].Holding?)
    ensures Busy(ws) > 0
  {
    if i < |ws| - 1 { BusyPositive(ws[..|ws| - 1], i); }
  }

  /** With at least one worker and no more jobs than the channels hold, some step is always possible
      until Wait has returned, even if nobody collects. */
  lemma NeverStuck<J, G>(s: State<J, G>, f: J -> G) returns (a: Action)
    requires Orderly(s) && Room(s) && s.numWorkers >= 1 && !s.resultsClosed
    ensures a != Collect && Do(s, a, f).Ok?
  {
    if |s.workers| < s.numWorkers {
      a := Spawn;
    } else if s.todo != [] {
      a := AddJob;
    } else if !s.closed {
      a := Close;
    } else if i :| 0 <= i < |s.workers| && !s.workers[i].Finished? {
      if s.workers[i].Holding? { BusyPositive(s.workers, i); }
      a := if s.workers[i].Running? then Run(i) else if s.workers[i].Holding? then Send(i)
           else if s.queue != [] then Take(i) else Return(i);
    } else {
      a := WaitReturns;
    }
  }

  /** What the workers have still to do. */
  function WorkLeft<J, G>(ws: seq<Worker<J, G>>): nat {
    if ws == [] then 0 else
    var w := ws[|ws| - 1];
    WorkLeft(ws[..|ws| - 1]) + (match w case Idle => 1 case Running(_) => 4 case Holding(_) => 3 case Finished => 0)
  }

  lemma {:induction false} WorkUpdate<J, G>(ws: seq<Worker<J, G>>, i: nat, w: Worker<J, G>)
    requires i < |ws|
    ensures WorkLeft(ws[i := w]) + WorkLeft([ws[i]]) == WorkLeft(ws) + WorkLeft([w])
  {
    var n := |ws| - 1;
    assert [w][..0] == [] && [ws[i]][..0] == [];
    if i < n {
      WorkUpdate(ws[..n], i, w);
      assert ws[i := w][..n] == ws[..n][i := w];
    } else {
      assert ws[i := w][..n] == ws[..n];
    }
  }

  function Left<J, G>(s: State<J, G>): int {
    5 * |s.todo| + 4 * |s.queue| + WorkLeft(s.workers) + |s.results| + 2 * (s.numWorkers - |s.workers|) +
    (if s.closed then 0 else 1) + (if s.resultsClosed then 0 else 1)
  }

  lemma StepTakesWork<J, G>(s: State<J, G>, a: Action, f: J -> G)
    requires Do(s, a, f).Ok?
    ensures Left(Do(s, a, f).s) < Left(s)
  {
    match a
    case Spawn => assert (s.workers + [Idle])[..|s.workers|] == s.workers;
    case Take(i) => WorkUpdate(s.workers, i, Running(s.queue[0]));
    case Run(i) => WorkUpdate(s.workers, i, Holding(f(s.workers[i].job)));
    case Send(i) => WorkUpdate(s.workers, i, Idle);
    case Return(i) => WorkUpdate(s.workers, i, Finished);
    case _ =>
  }

  /** Every run ends: its length is bounded by the work there is at its start. */
  lemma {:induction false} RunEnds<J, G>(s: State<J, G>, run: seq<Action>, f: J -> G)
    requires Exec(s, run, f).Ok? && |s.workers| <= s.numWorkers
    ensures |run| <= Left(s)
    decreases |run|
  {
    if run != [] {
      StepTakesWork(s, run[0], f);
      RunEnds(Do(s, run[0], f).s, run[1..], f);
    }
  }

  lemma {:induction false} RunKeepsRoom<J, G>(s: State<J, G>, run: seq<Action>, f: J -> G)
    requires Orderly(s) && Room(s) && Exec(s, run, f).Ok?
    ensures Orderly(Exec(s, run, f).s) && Room(Exec(s, run, f).s) && Exec(s, run, f).s.numWorkers == s.numWorkers
    decreases |run|
  {
    if run != [] {
      OrderlyStep(s, run[0], f);
      RoomStep(s, run[0], f);
      RunKeepsRoom(Do(s, run[0], f).s, run[1..], f);
    }
  }

  /** From the start: no run gets stuck before Wait has returned, and none is longer than its bound. */
  lemma PoolFinishes<J, G>(numWorkers: nat, capacity: nat, jobs: seq<J>, run: seq<Action>, f: J -> G)
    requires numWorkers >= 1 && |jobs| <= capacity && Exec(Init(numWorkers, capacity, jobs), run, f).Ok?
    ensures |run| <= 5 * |jobs| + 2 * numWorkers + 2
    ensures var s := Exec(Init(numWorkers, capacity, jobs), run, f).s;
      s.resultsClosed || exists a :: a != Collect && Do(s, a, f).Ok?
  {
    var s0 := Init<J, G>(numWorkers, capacity, jobs);
    RunEnds(s0, run, f);
    RunKeepsRoom(s0, run, f);
    var s := Exec(s0, run, f).s;
    if !s.resultsClosed {
      var a := NeverStuck(s, f);
    }
  }
}
