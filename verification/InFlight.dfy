/** The guard around asynchronous translations (enqueueTranslationJobs and translateDocumentAsync in
    backend/internal/services/sql_query_service.go), as interleaved steps of callers and background jobs. */
module InFlight {
  import opened Text
  import opened Documents

  datatype Job = Job(documentID: string, lang: string)

  /** Claimed under the mutex, started as a goroutine, waiting for the translator, about to leave. */
  datatype Phase = Claimed | Started | Translating | Leaving

  datatype Status = Pending | Ready | Failed

  /** `rows` are the translation rows as the jobs see them; `lost` are the rows left pending by an earlier process
      or by a final write that did not go through. */
  datatype State = State(
    inFlight: set<Token>, jobs: map<nat, Job>, phases: map<nat, Phase>, next: nat,
    rows: map<Job, Status>, lost: set<Job>)

  datatype Token = Token(text: string)

  function Key(job: Job): Token { Token(job.documentID + "|" + job.lang) }

  predicate IsProper(job: Job) { job.documentID != "" && Free(job.lang, '|') }

  /** The key tells jobs apart because a language code holds no `|`. */
  lemma KeyIsInjective(a: Job, b: Job)
    requires Free(a.lang, '|') && Free(b.lang, '|')
    ensures Key(a) == Key(b) <==> a == b
  {
    if Key(a) == Key(b) {
      SplitAtLast(a.documentID, b.documentID, a.lang, b.lang, '|');
    }
  }

  lemma CodesAreFree(code: string)
    requires IsCode(code)
    ensures Free(code, '|')
  {
  }

  // ----- Steps -----

  datatype Step =
    | Enqueue(documentID: string, lang: string)
    | Spawn(n: nat)
    | GiveUp(n: nat)                               // no source, or already translated
    | MarkPending(n: nat, written: bool)
    | Conclude(n: nat, ready: bool, written: bool)
    | Leave(n: nat)

  predicate In(s: State, n: nat, phase: Phase) { n in s.jobs && n in s.phases && s.phases[n] == phase }

  predicate Enabled(s: State, step: Step) {
    match step
    case Enqueue(_, lang) => IsCode(lang)
    case Spawn(n) => In(s, n, Claimed)
    case GiveUp(n) => In(s, n, Started)
    case MarkPending(n, _) => In(s, n, Started)
    case Conclude(n, _, _) => In(s, n, Translating)
    case Leave(n) => In(s, n, Leaving)
  }

  function Move(s: State, n: nat, phase: Phase): State { s.(phases := s.phases[n := phase]) }

  function Write(s: State, job: Job, status: Status, written: bool): State {
    if written then s.(rows := s.rows[job := status], lost := s.lost - {job})
    else if status == Pending then s
    else s.(lost := s.lost + {job})
  }

  function Claim(s: State, documentID: string, lang: string): State {
    var job := Job(TrimSpace(documentID), lang);
    if job.documentID == "" || Key(job) in s.inFlight then s
    else s.(inFlight := s.inFlight + {Key(job)}, jobs := s.jobs[s.next := job],
              phases := s.phases[s.next := Claimed], next := s.next + 1)
  }

  function Next(s: State, step: Step): State
    requires Enabled(s, step)
  {
    match step
    case Enqueue(documentID, lang) => Claim(s, documentID, lang)
    case Spawn(n) => Move(s, n, Started)
    case GiveUp(n) => Move(s, n, Leaving)
    case MarkPending(n, written) => Move(Write(s, s.jobs[n], Pending, written), n, Translating)
    case Conclude(n, ready, written) => Move(Write(s, s.jobs[n], if ready then Ready else Failed, written), n, Leaving)
    case Leave(n) => s.(inFlight := s.inFlight - {Key(s.jobs[n])}, jobs := s.jobs - {n},
                         phases := s.phases - {n})
  }

  function Start(rows: map<Job, Status>): State {
    State({}, map[], map[], 0, rows, set j | j in rows && rows[j].Pending?)
  }

  // ----- What every interleaving keeps -----

  /** Jobs are numbered below `next`, proper, and different from one another. */
  ghost predicate Distinct(jobs: map<nat, Job>, next: nat) {
    && (forall n | n in jobs :: n < next && IsProper(jobs[n]))
    && (forall n, m | n in jobs && m in jobs && n != m :: jobs[n] != jobs[m])
  }

  ghost predicate HasKey(jobs: map<nat, Job>, key: Token) {
    exists n :: n in jobs && Key(jobs[n]) == key
  }

  /** The set holds exactly the keys of unfinished jobs. */
  ghost predicate Tracked(inFlight: set<Token>, jobs: map<nat, Job>) {
    forall key :: key in inFlight <==> HasKey(jobs, key)
  }

  ghost predicate IsTranslated(s: State, job: Job) {
    exists n :: In(s, n, Translating) && s.jobs[n] == job
  }

  /** A pending row has a job at work on it, unless a write was lost. */
  ghost predicate PendingIsWatched(s: State) {
    forall j | j in s.rows && s.rows[j].Pending? && j !in s.lost :: IsTranslated(s, j)
  }

  ghost predicate Guarded(s: State) {
    Distinct(s.jobs, s.next) && Tracked(s.inFlight, s.jobs) && PendingIsWatched(s) && s.phases.Keys == s.jobs.Keys
  }

  /** An enqueue call starts nothing exactly when the trimmed id is blank or that document is being translated
      into that language already. */
  lemma EnqueueIsRefusedIff(s: State, documentID: string, lang: string)
    requires Guarded(s) && IsCode(lang)
    ensures Claim(s, documentID, lang) == s
            <==> TrimSpace(documentID) == "" || exists n :: n in s.jobs && s.jobs[n] == Job(TrimSpace(documentID), lang)
  {
    var job := Job(TrimSpace(documentID), lang);
    CodesAreFree(lang);
    if Key(job) in s.inFlight {
      var n :| n in s.jobs && Key(s.jobs[n]) == Key(job);
      KeyIsInjective(s.jobs[n], job);
    }
    hide Key;
  }

  lemma NewJobIsTracked(inFlight: set<Token>, jobs: map<nat, Job>, n: nat, job: Job)
    requires Tracked(inFlight, jobs) && n !in jobs
    ensures Tracked(inFlight + {Key(job)}, jobs[n := job])
  {
    hide Key;
    var jobs' := jobs[n := job];
    assert jobs'[n] == job;
    forall key: Token
      ensures HasKey(jobs', key) <==> HasKey(jobs, key) || key == Key(job)
    {
      if HasKey(jobs, key) {
        var m :| m in jobs && Key(jobs[m]) == key;
        assert jobs'[m] == jobs[m];
      }
    }
    hide HasKey;
  }

  lemma NewJobIsDistinct(inFlight: set<Token>, jobs: map<nat, Job>, next: nat, job: Job)
    requires Distinct(jobs, next) && Tracked(inFlight, jobs) && IsProper(job) && Key(job) !in inFlight
    ensures next !in jobs && Distinct(jobs[next := job], next + 1)
  {
    forall n | n in jobs
      ensures jobs[n] != job
    {
      assert HasKey(jobs, Key(jobs[n]));
    }
    hide Key;
  }

  lemma NextIsUnused(s: State)
    requires Guarded(s)
    ensures s.next !in s.jobs && s.next !in s.phases
  {
    hide Tracked, PendingIsWatched;
  }

  lemma IsProperJob(documentID: string, lang: string)
    requires TrimSpace(documentID) != "" && Free(lang, '|')
    ensures IsProper(Job(TrimSpace(documentID), lang))
  {
    hide TrimSpace;
  }

  lemma StaysTranslated(s: State, documentID: string, lang: string, j: Job)
    requires s.next !in s.jobs && s.next !in s.phases && IsTranslated(s, j)
    ensures IsTranslated(Claim(s, documentID, lang), j)
  {
    hide Key, TrimSpace;
    var n :| In(s, n, Translating) && s.jobs[n] == j;
    var s' := Claim(s, documentID, lang);
    assert In(s', n, Translating) && s'.jobs[n] == j;
  }

  lemma ClaimKeepsGuarded(s: State, documentID: string, lang: string)
    requires Guarded(s) && IsCode(lang)
    ensures Guarded(Claim(s, documentID, lang))
    ensures s.next !in s.jobs && s.next !in s.phases
  {
    hide Distinct, Tracked, IsTranslated, Key, TrimSpace, IsCode;
    var job := Job(TrimSpace(documentID), lang);
    if job.documentID != "" && Key(job) !in s.inFlight {
      CodesAreFree(lang);
      IsProperJob(documentID, lang);
      NewJobIsDistinct(s.inFlight, s.jobs, s.next, job);
      NewJobIsTracked(s.inFlight, s.jobs, s.next, job);
      forall j | IsTranslated(s, j)
        ensures IsTranslated(Claim(s, documentID, lang), j)
      {
        StaysTranslated(s, documentID, lang, j);
      }
    } else {
      NextIsUnused(s);
    }
  }

  lemma QuietMoveKeepsGuarded(s: State, n: nat, phase: Phase)
    requires Guarded(s) && n in s.jobs && !In(s, n, Translating)
    ensures Guarded(Move(s, n, phase))
  {
    forall j | IsTranslated(s, j)
      ensures IsTranslated(Move(s, n, phase), j)
    {
      var m :| In(s, m, Translating) && s.jobs[m] == j;
      assert In(Move(s, n, phase), m, Translating);
    }
    hide IsTranslated, Distinct, Tracked;
  }

  lemma WritingMoveKeepsGuarded(s: State, n: nat, status: Status, written: bool)
    requires Guarded(s) && n in s.jobs
    ensures Guarded(Move(Write(s, s.jobs[n], status, written), n, if status.Pending? then Translating else Leaving))
  {
    var job := s.jobs[n];
    var w := Write(s, job, status, written);
    var s' := Move(w, n, if status.Pending? then Translating else Leaving);
    hide Distinct, Tracked;
    forall j | j in s'.rows && s'.rows[j].Pending? && j !in s'.lost
      ensures IsTranslated(s', j)
    {
      if j == job {
        assert In(s', n, Translating);
      } else {
        var m :| In(s, m, Translating) && s.jobs[m] == j;
        assert In(s', m, Translating);
      }
    }
    hide IsTranslated;
  }

  lemma LeaverIsUntracked(inFlight: set<Token>, jobs: map<nat, Job>, next: nat, n: nat)
    requires Distinct(jobs, next) && Tracked(inFlight, jobs) && n in jobs
    ensures Tracked(inFlight - {Key(jobs[n])}, jobs - {n}) && Distinct(jobs - {n}, next)
  {
    var jobs' := jobs - {n};
    forall m | m in jobs'
      ensures Key(jobs[m]) != Key(jobs[n])
    {
      KeyIsInjective(jobs[m], jobs[n]);
    }
    hide Key;
    forall key: Token
      ensures HasKey(jobs', key) <==> HasKey(jobs, key) && key != Key(jobs[n])
    {
      if HasKey(jobs, key) && key != Key(jobs[n]) {
        var m :| m in jobs && Key(jobs[m]) == key;
        assert jobs'[m] == jobs[m];
      }
    }
    hide HasKey;
  }

  lemma LeaveKeepsGuarded(s: State, n: nat)
    requires Guarded(s) && In(s, n, Leaving)
    ensures Guarded(Next(s, Leave(n)))
  {
    var s' := Next(s, Leave(n));
    LeaverIsUntracked(s.inFlight, s.jobs, s.next, n);
    hide Distinct, Tracked, Key;
    forall j | IsTranslated(s, j)
      ensures IsTranslated(s', j)
    {
      var m :| In(s, m, Translating) && s.jobs[m] == j;
      assert In(s', m, Translating);
    }
    hide IsTranslated;
  }

  lemma StepKeepsGuarded(s: State, step: Step)
    requires Guarded(s) && Enabled(s, step)
    ensures Guarded(Next(s, step))
  {
    hide Guarded, Claim, Write;
    match step
    case Enqueue(documentID, lang) => ClaimKeepsGuarded(s, documentID, lang);
    case Spawn(n) => QuietMoveKeepsGuarded(s, n, Started);
    case GiveUp(n) => QuietMoveKeepsGuarded(s, n, Leaving);
    case MarkPending(n, written) => WritingMoveKeepsGuarded(s, n, Pending, written);
    case Conclude(n, ready, written) => WritingMoveKeepsGuarded(s, n, if ready then Ready else Failed, written);
    case Leave(n) => LeaveKeepsGuarded(s, n);
  }

  // ----- Whole runs -----

  predicate Possible(s: State, steps: seq<Step>)
    decreases |steps|
  {
    steps == [] || (Enabled(s, steps[0]) && Possible(Next(s, steps[0]), steps[1..]))
  }

  function After(s: State, steps: seq<Step>): State
    requires Possible(s, steps)
    decreases |steps|
  {
    if steps == [] then s else After(Next(s, steps[0]), steps[1..])
  }

  lemma {:induction false} StepsKeepGuarded(s: State, steps: seq<Step>)
    requires Guarded(s) && Possible(s, steps)
    ensures Guarded(After(s, steps))
    decreases |steps|
  {
    hide Guarded, Next;
    if steps != [] {
      StepKeepsGuarded(s, steps[0]);
      StepsKeepGuarded(Next(s, steps[0]), steps[1..]);
    }
  }

  /** After any interleaving: the set is the keys of the unfinished jobs, no two of them translate the same
      document into the same language, and every pending row has a job translating it unless a write to it was lost;
      so once no job is left the set is empty and no other row is pending. */
  lemma EveryInterleavingIsGuarded(rows: map<Job, Status>, steps: seq<Step>)
    requires Possible(Start(rows), steps)
    ensures var s := After(Start(rows), steps);
            && (forall key :: key in s.inFlight <==> exists n :: n in s.jobs && Key(s.jobs[n]) == key)
            && (forall n, m | n in s.jobs && m in s.jobs && n != m :: s.jobs[n] != s.jobs[m])
            && (forall j | j in s.rows && s.rows[j].Pending? && j !in s.lost ::
                  exists n :: In(s, n, Translating) && s.jobs[n] == j)
            && (s.jobs == map[] ==> s.inFlight == {} && forall j | j in s.rows && s.rows[j].Pending? :: j in s.lost)
  {
    StepsKeepGuarded(Start(rows), steps);
    hide After, Possible, Key;
  }

  /** What the step makes of a row, if it writes it: pending at the start of a translation, ready after one that worked,
      failed after one that did not. */
  function Outcome(s: State, step: Step, job: Job): Option<Status>
    requires Enabled(s, step)
  {
    match step
    case MarkPending(n, true) => if s.jobs[n] == job then Some(Pending) else None
    case Conclude(n, true, true) => if s.jobs[n] == job then Some(Ready) else None
    case Conclude(n, false, true) => if s.jobs[n] == job then Some(Failed) else None
    case _ => None
  }

  /** What the last write to a row has made of it, if there was any. */
  function LastOutcome(s: State, steps: seq<Step>, job: Job): Option<Status>
    requires Possible(s, steps)
    decreases |steps|
  {
    if steps == [] then None
    else
      var later := LastOutcome(Next(s, steps[0]), steps[1..], job);
      if later.Some? then later else Outcome(s, steps[0], job)
  }

  lemma RowAfterStep(s: State, step: Step, job: Job)
    requires Enabled(s, step)
    ensures var rows, o := Next(s, step).rows, Outcome(s, step, job);
            if o.Some? then job in rows && rows[job] == o.value
            else (job in rows <==> job in s.rows) && (job in rows ==> rows[job] == s.rows[job])
  {
    hide Key, TrimSpace;
  }

  /** After any interleaving a row says what the last write to it said: so it is ready exactly when the last translation
      into it whose result was written has worked, or it was ready before and nothing has been written since. */
  lemma {:induction false} RowsShowLastOutcome(s: State, steps: seq<Step>, job: Job)
    requires Possible(s, steps)
    ensures var rows, o := After(s, steps).rows, LastOutcome(s, steps, job);
            if o.Some? then job in rows && rows[job] == o.value
            else (job in rows <==> job in s.rows) && (job in rows ==> rows[job] == s.rows[job])
    decreases |steps|
  {
    hide Next, Outcome, Enabled;
    if steps != [] {
      RowAfterStep(s, steps[0], job);
      RowsShowLastOutcome(Next(s, steps[0]), steps[1..], job);
    }
  }

  /** Whether the step leaves the row's last result unwritten; a first write that fails leaves nothing. */
  function Loss(s: State, step: Step, job: Job): Option<bool>
    requires Enabled(s, step)
  {
    match step
    case MarkPending(n, true) => if s.jobs[n] == job then Some(false) else None
    case Conclude(n, _, written) => if s.jobs[n] == job then Some(!written) else None
    case _ => None
  }

  function LastLoss(s: State, steps: seq<Step>, job: Job): Option<bool>
    requires Possible(s, steps)
    decreases |steps|
  {
    if steps == [] then None
    else
      var later := LastLoss(Next(s, steps[0]), steps[1..], job);
      if later.Some? then later else Loss(s, steps[0], job)
  }

  lemma LostAfterStep(s: State, step: Step, job: Job)
    requires Enabled(s, step)
    ensures var l := Loss(s, step, job); job in Next(s, step).lost <==> if l.Some? then l.value else job in s.lost
  {
    hide Key, TrimSpace;
  }

  /** A row counts as lost exactly when the last result for it was not written, or, without any write since the start,
      when it was pending then. */
  lemma {:induction false} LostIff(s: State, steps: seq<Step>, job: Job)
    requires Possible(s, steps)
    ensures var l := LastLoss(s, steps, job);
            job in After(s, steps).lost <==> if l.Some? then l.value else job in s.lost
    decreases |steps|
  {
    hide Next, Loss, Enabled;
    if steps != [] {
      LostAfterStep(s, steps[0], job);
      LostIff(Next(s, steps[0]), steps[1..], job);
    }
  }

  // ----- One call -----

  class Queue {
    var state: State

    constructor (rows: map<Job, Status>)
      ensures state == Start(rows)
    {
      state := Start(rows);
    }

    /** A call for several documents that nothing interrupts: afterwards every one of them is being translated,
        and no other job has been touched or added. */
    method EnqueueTranslationJobs(documentIDs: seq<string>, targetLang: string, hasTranslator: bool)
      requires Guarded(state) && IsCode(targetLang)
      modifies this
      ensures Guarded(state) && (!hasTranslator ==> state == old(state))
      ensures hasTranslator ==> forall i | 0 <= i < |documentIDs| && TrimSpace(documentIDs[i]) != "" ::
                                  IsActive(state, Job(TrimSpace(documentIDs[i]), targetLang))
      ensures Grown(old(state), state, documentIDs, targetLang)
    {
      if !hasTranslator || |documentIDs| == 0 {
        return;
      }
      hide Guarded, Key, TrimSpace;
      for i := 0 to |documentIDs|
        invariant Guarded(state)
        invariant forall j | 0 <= j < i && TrimSpace(documentIDs[j]) != "" ::
                    IsActive(state, Job(TrimSpace(documentIDs[j]), targetLang))
        invariant Grown(old(state), state, documentIDs, targetLang)
      {
        var documentID := TrimSpace(documentIDs[i]);
        if documentID == "" {
          continue;
        }
        EnqueueOne(documentIDs, i, targetLang);
      }
    }

    /** One iteration: claim the key under the mutex, then start the goroutine. */
    method EnqueueOne(documentIDs: seq<string>, i: nat, targetLang: string)
      requires Guarded(state) && IsCode(targetLang) && i < |documentIDs| && TrimSpace(documentIDs[i]) != ""
      modifies this
      ensures Guarded(state) && IsActive(state, Job(TrimSpace(documentIDs[i]), targetLang))
      ensures Grown(old(state), state, documentIDs, targetLang)
    {
      hide Guarded, Key, TrimSpace;
      var job, n := Job(TrimSpace(documentIDs[i]), targetLang), state.next;
      EnqueueIsRefusedIff(state, documentIDs[i], targetLang);
      ClaimKeepsGuarded(state, documentIDs[i], targetLang);
      if Key(job) in state.inFlight {
        return;
      }
      state := state.(inFlight := state.inFlight + {Key(job)}, jobs := state.jobs[n := job],
                      phases := state.phases[n := Claimed], next := n + 1);
      QuietMoveKeepsGuarded(state, n, Started);
      state := Move(state, n, Started);
      assert state.jobs[n] == job;
      assert Asked(documentIDs, targetLang, job);
      hide Asked;
    }
  }

  ghost predicate IsActive(s: State, job: Job) {
    exists n :: n in s.jobs && s.jobs[n] == job
  }

  ghost predicate Asked(documentIDs: seq<string>, lang: string, job: Job) {
    exists i :: 0 <= i < |documentIDs| && job == Job(TrimSpace(documentIDs[i]), lang)
  }

  /** Old jobs are as they were; every new one has started and was asked for. */
  ghost predicate Grown(s: State, t: State, documentIDs: seq<string>, lang: string) {
    && (forall n | n in s.jobs :: n in t.jobs && t.jobs[n] == s.jobs[n] && (n in s.phases ==> In(t, n, s.phases[n])))
    && (forall n | n in t.jobs && n !in s.jobs :: In(t, n, Started) && Asked(documentIDs, lang, t.jobs[n]))
    && t.rows == s.rows && t.lost == s.lost
  }
}
