/** The indexing worker pool (processDocumentGroups in backend/cmd/rag-cli/main.go) as interleaved atomic
    steps of one publisher, the workers, and the caller's context. */
module WorkerPool {
  import opened Lists

  /** What a worker is doing. `Busy(j)` processes group `j`; `Sending(j)` has processed it. */
  datatype Worker = Waiting | Got(job: nat) | Busy(job: nat) | Sending(job: nat) | Gone

  datatype Publisher = Publishing | Closed

  /** One run over `groups` document groups. `next` is the group published next; `results` and `raised` list
      the groups whose result was sent, and those that raised an error (with the error); `dropped` the groups
      that were taken but not processed. */
  datatype Pool<E> = Pool(
    groups: nat, publisher: Publisher, next: nat, workers: seq<Worker>,
    parentCancelled: bool, cancelled: bool, firstErr: Err<E>,
    results: seq<nat>, raised: seq<(nat, E)>, dropped: seq<nat>)

  datatype Err<E> = NoError | Error(value: E)

  datatype Step<E> =
    | Publish(w: nat)            // the publisher hands group `next` to a waiting worker
    | StopPublishing             // it notices the cancelled context
    | Close                      // it has published everything
    | Check(w: nat)              // a worker looks at the context before processing
    | Finish(w: nat)             // it processes its group successfully
    | Fail(w: nat, error: E)     // or not
    | Send(w: nat)               // it puts the result into the buffered channel
    | Leave(w: nat)              // it finds the job channel closed
    | CancelParent               // the caller's context ends

  function Start<E>(groups: nat, workers: nat): Pool<E> {
    var w := if workers > groups then groups else workers;
    Pool(groups, Publishing, 0, seq(w, i => Waiting), false, false, NoError, [], [], [])
  }

  predicate Is<E>(p: Pool<E>, w: nat, state: Worker -> bool) {
    w < |p.workers| && state(p.workers[w])
  }

  predicate Enabled<E>(p: Pool<E>, s: Step<E>) {
    match s
    case Publish(w) => p.publisher.Publishing? && p.next < p.groups && Is(p, w, (x: Worker) => x.Waiting?)
    case StopPublishing => p.publisher.Publishing? && p.next < p.groups && p.cancelled
    case Close => p.publisher.Publishing? && p.next == p.groups
    case Check(w) => Is(p, w, (x: Worker) => x.Got?)
    case Finish(w) => Is(p, w, (x: Worker) => x.Busy?)
    case Fail(w, _) => Is(p, w, (x: Worker) => x.Busy?)
    case Send(w) => Is(p, w, (x: Worker) => x.Sending?) && |p.results| < p.groups
    case Leave(w) => Is(p, w, (x: Worker) => x.Waiting?) && p.publisher.Closed?
    case CancelParent => !p.parentCancelled
  }

  function Next<E>(p: Pool<E>, s: Step<E>): Pool<E>
    requires Enabled(p, s)
  {
    match s
    case Publish(w) => p.(next := p.next + 1, workers := p.workers[w := Got(p.next)])
    case StopPublishing => p.(publisher := Closed)
    case Close => p.(publisher := Closed)
    case Check(w) =>
      var j := p.workers[w].job;
      if p.cancelled then p.(workers := p.workers[w := Gone], dropped := p.dropped + [j])
      else p.(workers := p.workers[w := Busy(j)])
    case Finish(w) => p.(workers := p.workers[w := Sending(p.workers[w].job)])
    case Fail(w, e) =>
      var q := p.(workers := p.workers[w := Gone], raised := p.raised + [(p.workers[w].job, e)]);
      if p.firstErr.NoError? then q.(firstErr := Error(e), cancelled := true) else q
    case Send(w) => p.(workers := p.workers[w := Waiting], results := p.results + [p.workers[w].job])
    case Leave(w) => p.(workers := p.workers[w := Gone])
    case CancelParent => p.(parentCancelled := true, cancelled := true)
  }

  /** The function returns once the publisher is done and every worker has left. */
  predicate Finished<E>(p: Pool<E>) {
    p.publisher.Closed? && forall w | 0 <= w < |p.workers| :: p.workers[w].Gone?
  }

  // ----- Conservation: every published group is in exactly one place -----

  function One(w: Worker, j: nat): nat {
    match w
    case Got(k) => if k == j then 1 else 0
    case Busy(k) => if k == j then 1 else 0
    case Sending(k) => if k == j then 1 else 0
    case _ => 0
  }

  /** How many workers hold group `j`. */
  function HeldCount(workers: seq<Worker>, j: nat): nat {
    if workers == [] then 0 else HeldCount(workers[..|workers| - 1], j) + One(workers[|workers| - 1], j)
  }

  function Count(jobs: seq<nat>, j: nat): nat {
    if jobs == [] then 0 else Count(jobs[..|jobs| - 1], j) + if jobs[|jobs| - 1] == j then 1 else 0
  }

  function RaisedJobs<E>(raised: seq<(nat, E)>): (r: seq<nat>)
    ensures |r| == |raised|
  {
    seq(|raised|, i requires 0 <= i < |raised| => raised[i].0)
  }

  /** In how many places group `j` is: in the hands of workers, sent, failed or dropped. */
  function Places<E>(p: Pool<E>, j: nat): nat {
    HeldCount(p.workers, j) + Count(p.results, j) + Count(RaisedJobs(p.raised), j) + Count(p.dropped, j)
  }

  ghost predicate OncePlaced<E>(p: Pool<E>) {
    forall j: nat :: Places(p, j) == if j < p.next then 1 else 0
  }

  lemma {:induction false} HeldUpdate(workers: seq<Worker>, w: nat, x: Worker, j: nat)
    requires w < |workers|
    ensures HeldCount(workers[w := x], j) == HeldCount(workers, j) - One(workers[w], j) + One(x, j)
    decreases |workers|
  {
    var n := |workers| - 1;
    if w == n {
      assert workers[w := x][..n] == workers[..n];
    } else {
      HeldUpdate(workers[..n], w, x, j);
      assert workers[w := x][..n] == workers[..n][w := x];
    }
  }

  lemma CountSnoc(jobs: seq<nat>, k: nat, j: nat)
    ensures Count(jobs + [k], j) == Count(jobs, j) + if k == j then 1 else 0
  {
    assert (jobs + [k])[..|jobs|] == jobs;
  }

  lemma RaisedSnoc<E>(raised: seq<(nat, E)>, k: nat, e: E, j: nat)
    ensures Count(RaisedJobs(raised + [(k, e)]), j) == Count(RaisedJobs(raised), j) + if k == j then 1 else 0
  {
    assert RaisedJobs(raised + [(k, e)]) == RaisedJobs(raised) + [k];
    CountSnoc(RaisedJobs(raised), k, j);
  }

  /** A step moves groups around; only publishing brings a new one in. */
  lemma StepMovesGroups<E>(p: Pool<E>, s: Step<E>, j: nat)
    requires Enabled(p, s)
    ensures Places(Next(p, s), j) == Places(p, j) + if s.Publish? && j == p.next then 1 else 0
  {
    hide HeldCount, Count, RaisedJobs;
    match s
    case Publish(w) => HeldUpdate(p.workers, w, Got(p.next), j);
    case Check(w) =>
      HeldUpdate(p.workers, w, Gone, j);
      HeldUpdate(p.workers, w, Busy(p.workers[w].job), j);
      CountSnoc(p.dropped, p.workers[w].job, j);
    case Finish(w) => HeldUpdate(p.workers, w, Sending(p.workers[w].job), j);
    case Fail(w, e) =>
      HeldUpdate(p.workers, w, Gone, j);
      RaisedSnoc(p.raised, p.workers[w].job, e, j);
    case Send(w) =>
      HeldUpdate(p.workers, w, Waiting, j);
      CountSnoc(p.results, p.workers[w].job, j);
    case Leave(w) => HeldUpdate(p.workers, w, Gone, j);
    case _ =>
  }

  /** No step loses a group or hands it out twice. */
  lemma StepConserves<E>(p: Pool<E>, s: Step<E>)
    requires Enabled(p, s) && OncePlaced(p)
    ensures OncePlaced(Next(p, s))
  {
    forall j: nat
      ensures Places(Next(p, s), j) == if j < Next(p, s).next then 1 else 0
    {
      StepMovesGroups(p, s, j);
    }
    hide Places;
  }

  lemma {:induction false} NothingHeld(workers: seq<Worker>, j: nat)
    requires forall w | 0 <= w < |workers| :: One(workers[w], j) == 0
    ensures HeldCount(workers, j) == 0
    decreases |workers|
  {
    if workers != [] {
      NothingHeld(workers[..|workers| - 1], j);
    }
  }

  lemma {:induction false} CountIsMultiplicity(jobs: seq<nat>, j: nat)
    ensures Count(jobs, j) == multiset(jobs)[j]
    decreases |jobs|
  {
    if jobs != [] {
      CountIsMultiplicity(jobs[..|jobs| - 1], j);
      assert jobs == jobs[..|jobs| - 1] + [jobs[|jobs| - 1]];
    }
  }

  // ----- Causes: errors, cancellation and departures -----

  ghost predicate Causes<E>(p: Pool<E>) {
    && p.next <= p.groups
    && (p.cancelled <==> p.parentCancelled || p.firstErr.Error?)
    && (p.raised != [] <==> p.firstErr.Error?)
    && (p.firstErr.Error? ==> p.firstErr.value == p.raised[0].1)
    && (p.dropped != [] ==> p.cancelled)
    && (p.publisher.Closed? && p.next < p.groups ==> p.cancelled)
    && (forall w | 0 <= w < |p.workers| && p.workers[w].Gone? :: p.cancelled || p.publisher.Closed?)
    && (p.groups > 0 ==> |p.workers| > 0)
  }

  lemma StepKeepsCauses<E>(p: Pool<E>, s: Step<E>)
    requires Causes(p) && Enabled(p, s)
    ensures Causes(Next(p, s))
  {
  }

  // ----- Runs -----

  predicate Runs<E>(p: Pool<E>, steps: seq<Step<E>>)
    decreases |steps|, 0
  {
    steps == [] || (Runs(p, steps[..|steps| - 1]) && Enabled(After(p, steps[..|steps| - 1]), steps[|steps| - 1]))
  }

  function After<E>(p: Pool<E>, steps: seq<Step<E>>): Pool<E>
    requires Runs(p, steps)
    decreases |steps|, 1
  {
    if steps == [] then p else Next(After(p, steps[..|steps| - 1]), steps[|steps| - 1])
  }

  lemma {:induction false} RunsKeepInvariants<E>(groups: nat, workers: nat, steps: seq<Step<E>>)
    requires workers > 0 && Runs(Start(groups, workers), steps)
    ensures var p := After(Start(groups, workers), steps);
            p.groups == groups && Causes(p) && OncePlaced(p)
    decreases |steps|
  {
    if steps == [] {
      forall j: nat ensures Places(Start<E>(groups, workers), j) == 0 {
        NothingHeld(Start<E>(groups, workers).workers, j);
      }
    } else {
      var init, last := steps[..|steps| - 1], steps[|steps| - 1];
      RunsKeepInvariants(groups, workers, init);
      StepKeepsCauses(After(Start(groups, workers), init), last);
      StepConserves(After(Start(groups, workers), init), last);
    }
  }

  // ----- No deadlock, and an end -----

  lemma {:induction false} CountWithout(jobs: seq<nat>, i: nat, j: nat)
    requires i < |jobs|
    ensures Count(jobs, j) == Count(Without(jobs, i), j) + if jobs[i] == j then 1 else 0
    decreases |jobs|
  {
    hide Count;
    var n := |jobs| - 1;
    CountGrows(jobs, j);
    if i == n {
      assert Without(jobs, i) == jobs[..n];
    } else {
      CountWithout(jobs[..n], i, j);
      CountGrows(Without(jobs, i), j);
      assert Without(jobs, i)[..n - 1] == Without(jobs[..n], i);
    }
  }

  lemma CountGrows(jobs: seq<nat>, j: nat)
    requires jobs != []
    ensures var n := |jobs| - 1; Count(jobs, j) == Count(jobs[..n], j) + if jobs[n] == j then 1 else 0
  {
  }

  /** A list of groups below `n`, none of them twice, has at most `n` elements. */
  lemma {:induction false} CountedOnce(jobs: seq<nat>, n: nat)
    requires forall j: nat :: Count(jobs, j) <= if j < n then 1 else 0
    ensures |jobs| <= n
    decreases n
  {
    if jobs != [] {
      var k := |jobs| - 1;
      assert Count(jobs, jobs[k]) > 0;
      if i :| 0 <= i < |jobs| && jobs[i] == n - 1 {
        forall j: nat
          ensures Count(Without(jobs, i), j) <= if j < n - 1 then 1 else 0
        {
          CountWithout(jobs, i, j);
        }
        CountedOnce(Without(jobs, i), n - 1);
      } else {
        CountIsMultiplicity(jobs, n - 1);
        CountedOnce(jobs, n - 1);
      }
    }
  }

  /** A result can always be sent: the buffer has room for every group. */
  lemma SendNeverBlocks<E>(p: Pool<E>, w: nat)
    requires Causes(p) && OncePlaced(p) && Is(p, w, (x: Worker) => x.Sending?)
    ensures Enabled(p, Send(w))
  {
    var job := p.workers[w].job;
    var jobs := p.results + [job];
    forall j: nat
      ensures Count(jobs, j) <= if j < p.next then 1 else 0
    {
      CountSnoc(p.results, job, j);
      HeldUpdate(p.workers, w, Gone, j);
      assert Places(p, j) == if j < p.next then 1 else 0;
    }
    CountedOnce(jobs, p.next);
  }

  /** Some step of the pool itself is possible. */
  ghost predicate CanMove<E(!new)>(p: Pool<E>) {
    exists s: Step<E> :: !s.CancelParent? && Enabled(p, s)
  }

  lemma WorkerCanMove<E(!new)>(p: Pool<E>, w: nat)
    requires Causes(p) && OncePlaced(p) && w < |p.workers|
    requires (p.workers[w].Got? || p.workers[w].Busy? || p.workers[w].Sending?)
    ensures CanMove(p)
  {
    match p.workers[w]
    case Got(_) => assert Enabled(p, Check(w));
    case Busy(_) => assert Enabled(p, Finish(w));
    case Sending(_) => SendNeverBlocks(p, w);
  }

  lemma WaiterCanMove<E(!new)>(p: Pool<E>, w: nat)
    requires Causes(p) && w < |p.workers| && p.workers[w].Waiting?
    ensures CanMove(p)
  {
    if p.publisher.Closed? {
      assert Enabled(p, Leave(w));
    } else if p.next < p.groups {
      assert Enabled(p, Publish(w));
    } else {
      assert Enabled(p, Close);
    }
  }

  lemma PublisherCanMove<E(!new)>(p: Pool<E>)
    requires Causes(p) && p.groups > 0 && p.publisher.Publishing? && forall w | 0 <= w < |p.workers| ::
               p.workers[w].Gone?
    ensures CanMove(p)
  {
    assert p.workers[0].Gone?;
    if p.next < p.groups {
      assert Enabled(p, StopPublishing);
    } else {
      assert Enabled(p, Close);
    }
  }

  /** From every reachable state that is not the end, some step of the pool itself is possible; the publisher
      never waits for workers that are all gone. */
  lemma NoDeadlock<E(!new)>(groups: nat, workers: nat, steps: seq<Step<E>>)
    requires groups > 0 && workers > 0 && Runs(Start(groups, workers), steps)
    ensures var p := After(Start(groups, workers), steps); Finished(p) || CanMove(p)
  {
    var p := After(Start(groups, workers), steps);
    RunsKeepInvariants(groups, workers, steps);
    hide Causes, OncePlaced, CanMove;
    if w: nat :| w < |p.workers| && (p.workers[w].Got? || p.workers[w].Busy? || p.workers[w].Sending?) {
      WorkerCanMove(p, w);
    } else if w: nat :| w < |p.workers| && p.workers[w].Waiting? {
      WaiterCanMove(p, w);
    } else if p.publisher.Publishing? {
      PublisherCanMove(p);
    }
  }

  function Rank(w: Worker): nat {
    match w
    case Got(_) => 4
    case Busy(_) => 3
    case Sending(_) => 2
    case Waiting => 1
    case Gone => 0
  }

  function Ranks(workers: seq<Worker>): nat {
    if workers == [] then 0 else Ranks(workers[..|workers| - 1]) + Rank(workers[|workers| - 1])
  }

  lemma {:induction false} RanksUpdate(workers: seq<Worker>, w: nat, x: Worker)
    requires w < |workers|
    ensures Ranks(workers[w := x]) == Ranks(workers) - Rank(workers[w]) + Rank(x)
    decreases |workers|
  {
    var n := |workers| - 1;
    if w == n {
      assert workers[w := x][..n] == workers[..n];
    } else {
      RanksUpdate(workers[..n], w, x);
      assert workers[w := x][..n] == workers[..n][w := x];
    }
  }

  /** How many steps are left at most. */
  function StepsLeft<E>(p: Pool<E>): int {
    4 * (p.groups - p.next) + Ranks(p.workers) + (if p.publisher.Publishing? then 1 else 0)
    + (if p.parentCancelled then 0 else 1)
  }

  lemma EveryStepCounts<E>(p: Pool<E>, s: Step<E>)
    requires Enabled(p, s)
    ensures StepsLeft(Next(p, s)) < StepsLeft(p)
  {
    hide Ranks;
    match s
    case Publish(w) => RanksUpdate(p.workers, w, Got(p.next));
    case Check(w) =>
      RanksUpdate(p.workers, w, Gone);
      RanksUpdate(p.workers, w, Busy(p.workers[w].job));
    case Finish(w) => RanksUpdate(p.workers, w, Sending(p.workers[w].job));
    case Fail(w, _) => RanksUpdate(p.workers, w, Gone);
    case Send(w) => RanksUpdate(p.workers, w, Waiting);
    case Leave(w) => RanksUpdate(p.workers, w, Gone);
    case _ =>
  }

  lemma {:induction false} WaitingRanks(n: nat)
    ensures Ranks(seq(n, i => Waiting)) == n
  {
    if n > 0 {
      WaitingRanks(n - 1);
      assert seq(n, i => Waiting)[..n - 1] == seq(n - 1, i => Waiting);
    }
  }

  lemma {:induction false} RunsCountDown<E>(groups: nat, workers: nat, steps: seq<Step<E>>)
    requires Runs(Start(groups, workers), steps)
    ensures StepsLeft(After(Start(groups, workers), steps)) + |steps| <= StepsLeft(Start<E>(groups, workers))
    decreases |steps|
  {
    if steps != [] {
      var init := steps[..|steps| - 1];
      RunsCountDown(groups, workers, init);
      EveryStepCounts(After(Start(groups, workers), init), steps[|steps| - 1]);
    }
  }

  /** However the steps interleave, there are at most 4 per group, one per worker and two more. */
  lemma EveryRunEnds<E>(groups: nat, workers: nat, steps: seq<Step<E>>)
    requires workers > 0 && Runs(Start(groups, workers), steps)
    ensures |steps| <= 4 * groups + (if workers > groups then groups else workers) + 2
  {
    RunsCountDown(groups, workers, steps);
    RunsKeepInvariants(groups, workers, steps);
    WaitingRanks(if workers > groups then groups else workers);
  }

  // ----- What the caller gets -----

  /** The sum of a per-group count over a list of groups, as the final loop adds it up. */
  function Total(jobs: seq<nat>, count: nat -> int): int {
    if jobs == [] then 0 else Total(jobs[..|jobs| - 1], count) + count(jobs[|jobs| - 1])
  }

  function AllGroups(n: nat): seq<nat> {
    seq(n, i => i)
  }

  /** The sum, added from the first job on. */
  function Added(jobs: seq<nat>, count: nat -> int): int {
    if jobs == [] then 0 else count(jobs[0]) + Added(jobs[1..], count)
  }

  lemma {:induction false} AddedGrows(jobs: seq<nat>, j: nat, count: nat -> int)
    ensures Added(jobs + [j], count) == Added(jobs, count) + count(j)
    decreases |jobs|
  {
    if jobs == [] {
      assert [j][1..] == [];
    } else {
      assert (jobs + [j])[1..] == jobs[1..] + [j];
      AddedGrows(jobs[1..], j, count);
    }
  }

  lemma {:induction false} TotalIsSum(jobs: seq<nat>, count: nat -> int)
    ensures Total(jobs, count) == Added(jobs, count)
    decreases |jobs|
  {
    if jobs != [] {
      var n := |jobs| - 1;
      TotalIsSum(jobs[..n], count);
      AddedGrows(jobs[..n], jobs[n], count);
      assert jobs[..n] + [jobs[n]] == jobs;
    }
  }

  lemma {:induction false} TotalWithout(jobs: seq<nat>, i: nat, count: nat -> int)
    requires i < |jobs|
    ensures Total(jobs, count) == Total(Without(jobs, i), count) + count(jobs[i])
    decreases |jobs|
  {
    var n := |jobs| - 1;
    if i == n {
      assert Without(jobs, i) == jobs[..n];
    } else {
      TotalWithout(jobs[..n], i, count);
      assert Without(jobs, i)[..n - 1] == Without(jobs[..n], i);
    }
  }

  lemma MultisetWithout(jobs: seq<nat>, i: nat)
    requires i < |jobs|
    ensures multiset(Without(jobs, i)) == multiset(jobs) - multiset{jobs[i]}
  {
    assert jobs == jobs[..i] + [jobs[i]] + jobs[i + 1..];
  }

  /** A total does not depend on the order in which the results arrived. */
  lemma {:induction false} TotalIsOrderFree(a: seq<nat>, b: seq<nat>, count: nat -> int)
    requires multiset(a) == multiset(b)
    ensures Total(a, count) == Total(b, count)
    decreases |a|
  {
    if a == [] {
      assert |multiset(b)| == 0;
    } else {
      var n := |a| - 1;
      assert Total(a, count) == Total(a[..n], count) + count(a[n]);
      hide Total;
      assert a[n] in multiset(b);
      var i :| 0 <= i < |b| && b[i] == a[n];
      TotalWithout(b, i, count);
      MultisetWithout(b, i);
      assert a == a[..n] + [a[n]];
      assert multiset(a[..n]) == multiset(a) - multiset{a[n]};
      TotalIsOrderFree(a[..n], Without(b, i), count);
    }
  }

  lemma {:induction false} AllGroupsOnce(n: nat, j: nat)
    ensures Count(AllGroups(n), j) == if j < n then 1 else 0
  {
    if n > 0 {
      AllGroupsOnce(n - 1, j);
      assert AllGroups(n)[..n - 1] == AllGroups(n - 1);
    }
  }

  /** The results of a run that raised and dropped nothing, published everything and emptied all hands. */
  lemma ResultsAreAllGroups<E>(p: Pool<E>)
    requires OncePlaced(p) && p.next == p.groups && p.raised == [] && p.dropped == []
    requires forall w | 0 <= w < |p.workers| :: p.workers[w].Gone?
    ensures multiset(p.results) == multiset(AllGroups(p.groups))
  {
    forall j: nat
      ensures multiset(p.results)[j] == multiset(AllGroups(p.groups))[j]
    {
      NothingHeld(p.workers, j);
      CountIsMultiplicity(p.results, j);
      AllGroupsOnce(p.groups, j);
      CountIsMultiplicity(AllGroups(p.groups), j);
      assert Places(p, j) == if j < p.next then 1 else 0;
    }
  }

  /** The end of a run: an error is the first one that some group raised; without an error, and with the caller's
      context alive, every group was processed exactly once and the totals are those of the whole input. */
  lemma NoErrorMeansEverythingOnce<E>(groups: nat, workers: nat, steps: seq<Step<E>>, count: nat -> int)
    requires workers > 0 && Runs(Start(groups, workers), steps)
    requires Finished(After(Start(groups, workers), steps))
    ensures var p := After(Start(groups, workers), steps);
            if p.firstErr.Error? then p.raised != [] && p.firstErr.value == p.raised[0].1
            else p.parentCancelled || (&& multiset(p.results) == multiset(AllGroups(groups))
                                       && Total(p.results, count) == Total(AllGroups(groups), count))
  {
    var p := After(Start(groups, workers), steps);
    RunsKeepInvariants(groups, workers, steps);
    if p.firstErr.NoError? && !p.parentCancelled {
      ResultsAreAllGroups(p);
      TotalIsOrderFree(p.results, AllGroups(groups), count);
    }
  }

  lemma RunSnoc<E>(p: Pool<E>, steps: seq<Step<E>>, s: Step<E>)
    requires Runs(p, steps) && Enabled(After(p, steps), s)
    ensures Runs(p, steps + [s]) && After(p, steps + [s]) == Next(After(p, steps), s)
  {
    assert (steps + [s])[..|steps|] == steps;
  }

  /** The live context is needed, for every number of groups and workers: when the caller's context ends before the
      first job, the pool can end without an error and without any result. */
  lemma CancelledRunReportsNoError<E>(groups: nat, workers: nat) returns (steps: seq<Step<E>>)
    requires groups > 0 && workers > 0
    ensures Runs(Start(groups, workers), steps)
    ensures var p := After(Start(groups, workers), steps); Finished(p) && p.firstErr.NoError? && p.results == []
  {
    var p := Start<E>(groups, workers);
    RunSnoc(p, [], CancelParent);
    RunSnoc(p, [CancelParent], StopPublishing);
    steps := [CancelParent, StopPublishing];
    assert [CancelParent] + [StopPublishing] == steps;
    var gone: nat := 0;
    while gone < |p.workers|
      invariant gone <= |p.workers| && Runs(p, steps)
      invariant var q := After(p, steps);
                && q.publisher.Closed? && q.firstErr.NoError? && q.results == [] && |q.workers| == |p.workers|
                && forall w | 0 <= w < |q.workers| :: q.workers[w] == if w < gone then Gone else Waiting
    {
      RunSnoc(p, steps, Leave(gone));
      steps := steps + [Leave(gone)];
      gone := gone + 1;
    }
  }

  predicate CancelsParent<E>(steps: seq<Step<E>>) {
    exists i :: 0 <= i < |steps| && steps[i].CancelParent?
  }

  lemma OneStepCancels<E>(p: Pool<E>, step: Step<E>)
    requires Enabled(p, step)
    ensures Next(p, step).parentCancelled <==> p.parentCancelled || step.CancelParent?
  {
  }

  lemma {:induction false} OnlyTheCallerCancels<E>(p: Pool<E>, steps: seq<Step<E>>)
    requires Runs(p, steps) && !p.parentCancelled
    ensures After(p, steps).parentCancelled <==> CancelsParent(steps)
    decreases |steps|
  {
    hide Next, Enabled;
    if steps != [] {
      var init, last := steps[..|steps| - 1], steps[|steps| - 1];
      OnlyTheCallerCancels(p, init);
      OneStepCancels(After(p, init), last);
      if CancelsParent(init) {
        var i :| 0 <= i < |init| && init[i].CancelParent?;
        assert steps[i].CancelParent?;
      }
    }
  }

  /** A nil error means a whole result, in every run that ends, exactly when the caller's context cannot be
      cancelled. */
  lemma NilErrorIsCompleteIff<E(!new)>(groups: nat, workers: nat, cancellable: bool)
    requires groups > 0 && workers > 0
    ensures (forall steps: seq<Step<E>> | EndsWithoutError(groups, workers, steps)
             && (cancellable || !CancelsParent(steps)) ::
               multiset(After(Start(groups, workers), steps).results) == multiset(AllGroups(groups)))
            <==> !cancellable
  {
    hide After, Runs, Finished, Start, CancelsParent;
    if cancellable {
      var steps := CancelledRunReportsNoError<E>(groups, workers);
      assert EndsWithoutError(groups, workers, steps);
      assert AllGroups(groups)[groups - 1] in multiset(AllGroups(groups));
    } else {
      forall steps: seq<Step<E>> | EndsWithoutError(groups, workers, steps) && !CancelsParent(steps)
        ensures multiset(After(Start(groups, workers), steps).results) == multiset(AllGroups(groups))
      {
        StartsLive<E>(groups, workers);
        OnlyTheCallerCancels(Start(groups, workers), steps);
        NoErrorMeansEverythingOnce(groups, workers, steps, j => 1);
      }
    }
  }

  predicate EndsWithoutError<E>(groups: nat, workers: nat, steps: seq<Step<E>>) {
    && Runs(Start(groups, workers), steps)
    && Finished(After(Start(groups, workers), steps)) && After(Start(groups, workers), steps).firstErr.NoError?
  }

  lemma StartsLive<E>(groups: nat, workers: nat)
    ensures !Start<E>(groups, workers).parentCancelled
  {
  }
}
