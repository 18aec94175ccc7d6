/** The imperative poll and the step system agree: one uninterrupted poll of the poller class is a run
    of the pipeline with the same table and the same HTTP attempts. */
module PollRun {
  import opened Common
  import opened Storage
  import opened Processing
  import opened Poller
  import opened Pipeline

  lemma {:induction false} Chain(host: string, lib: Library, s: State, steps: seq<Step>, more: seq<Step>)
    requires Runs(host, lib, s, steps) && Runs(host, lib, After(host, lib, s, steps), more)
    ensures Runs(host, lib, s, steps + more)
    ensures After(host, lib, s, steps + more) == After(host, lib, After(host, lib, s, steps), more)
    decreases |steps|
  {
    if steps == [] {
      assert steps + more == more;
    } else {
      assert (steps + more)[1..] == steps[1..] + more;
      Chain(host, lib, Apply(host, lib, s, steps[0]), steps[1..], more);
    }
  }

  lemma One(host: string, lib: Library, s: State, step: Step)
    requires Enabled(s, step)
    ensures Runs(host, lib, s, [step]) && After(host, lib, s, [step]) == Apply(host, lib, s, step)
  {
    assert [step][1..] == [];
  }

  // ------------------------------------------------------------------ one message

  function Sends(n: nat): seq<Step> {
    seq(n, _ => SendOne)
  }

  function MessageSteps(lib: Library, row: Row, a: Answers): seq<Step> {
    if a.jobs.None? then [LookupFails]
    else [Lookup(a.jobs.value)] + Sends(|ResultsFor(lib, row, a)|) + [Save(a.saveOk)]
  }

  lemma {:induction false} SendsRun(host: string, lib: Library, s: State)
    requires s.pc.Sending?
    ensures Runs(host, lib, s, Sends(|s.pc.todo|))
    ensures After(host, lib, s, Sends(|s.pc.todo|)) ==
              s.(pc := s.pc.(todo := []),
                 log := s.log.(attempts := s.log.attempts + Tagged(s.pc.f.id, SendableOf(lib, s.pc.todo))))
    decreases |s.pc.todo|
  {
    var todo := s.pc.todo;
    if todo == [] {
      assert s.log.attempts + [] == s.log.attempts;
    } else {
      var s' := ApplyPoller(lib, s, SendOne);
      SendsRun(host, lib, s');
      SendHead(lib, s.pc.f.id, todo, s.log.attempts);
      assert Sends(|todo|)[1..] == Sends(|todo| - 1);
    }
  }

  /** The table after one message: marked when its lookup and save succeeded. */
  function MarkOne(rows: seq<Row>, f: Fetched, a: Answers): seq<Row> {
    if Succeeds(a) && f.id < |rows| then rows[f.id := f.row.(processed := true)] else rows
  }

  /** Same sessions, transactions and origins; what the poller changed is given. */
  ghost predicate Reaches(s: State, s': State, pc: Pc, rows: seq<Row>, attempts: seq<Attempt>) {
    s'.sessions == s.sessions && s'.txns == s.txns && s'.table.origins == s.table.origins
    && s'.pc == pc && s'.table.rows == rows && s'.log.attempts == attempts
  }

  lemma MessageRun(host: string, lib: Library, s: State, f: Fetched, rest: seq<Fetched>, a: Answers)
    requires s.pc == Working([f] + rest) && f.id < |s.table.rows|
    ensures Runs(host, lib, s, MessageSteps(lib, f.row, a))
    ensures Reaches(s, After(host, lib, s, MessageSteps(lib, f.row, a)), Working(rest), MarkOne(s.table.rows, f, a),
                    s.log.attempts + Tagged(f.id, SendableOf(lib, ResultsFor(lib, f.row, a))))
  {
    assert ([f] + rest)[0] == f && ([f] + rest)[1..] == rest;
    if a.jobs.None? {
      One(host, lib, s, LookupFails);
      assert s.log.attempts + [] == s.log.attempts;
    } else {
      var results := ResultsFor(lib, f.row, a);
      One(host, lib, s, Lookup(a.jobs.value));
      var s1 := ApplyPoller(lib, s, Lookup(a.jobs.value));
      assert s1.pc == Sending(f, results, rest);
      SendsRun(host, lib, s1);
      var s2 := After(host, lib, s1, Sends(|results|));
      One(host, lib, s2, Save(a.saveOk));
      Chain(host, lib, s, [Lookup(a.jobs.value)], Sends(|results|));
      Chain(host, lib, s, [Lookup(a.jobs.value)] + Sends(|results|), [Save(a.saveOk)]);
    }
  }

  /** The steps are a run from s that changes this and no more. */
  ghost predicate Gets(host: string, lib: Library, s: State, steps: seq<Step>, pc: Pc, rows: seq<Row>,
                       attempts: seq<Attempt>)
  {
    Runs(host, lib, s, steps) && Reaches(s, After(host, lib, s, steps), pc, rows, attempts)
  }

  /** A run that has reached a message goes on through it. */
  lemma ThroughMessage(host: string, lib: Library, s: State, steps: seq<Step>, f: Fetched, rest: seq<Fetched>,
                       a: Answers, rows: seq<Row>, before: seq<Attempt>)
    requires f.id < |rows| && Gets(host, lib, s, steps, Working([f] + rest), rows, s.log.attempts + before)
    ensures Gets(host, lib, s, steps + MessageSteps(lib, f.row, a), Working(rest), MarkOne(rows, f, a),
                 s.log.attempts + (before + Tagged(f.id, SendableOf(lib, ResultsFor(lib, f.row, a)))))
  {
    MessageRun(host, lib, After(host, lib, s, steps), f, rest, a);
    Chain(host, lib, s, steps, MessageSteps(lib, f.row, a));
    Regroup(s.log.attempts, before, Tagged(f.id, SendableOf(lib, ResultsFor(lib, f.row, a))));
  }

  // ------------------------------------------------------------------ the whole poll

  function PollSteps(lib: Library, rows: seq<Row>, batch: seq<nat>, answers: seq<Answers>, n: nat): seq<Step>
    requires n <= |batch| == |answers| && forall j | 0 <= j < n :: batch[j] < |rows|
  {
    if n == 0 then [Fetch(batch)]
    else PollSteps(lib, rows, batch, answers, n - 1) + MessageSteps(lib, rows[batch[n - 1]], answers[n - 1])
  }

  ghost function TaggedAttempts(lib: Library, rows: seq<Row>, batch: seq<nat>, answers: seq<Answers>, n: nat)
    : seq<Attempt>
    requires n <= |batch| == |answers| && forall j | 0 <= j < n :: batch[j] < |rows|
  {
    if n == 0 then []
    else
      var now := Tagged(batch[n - 1], SendableOf(lib, ResultsFor(lib, rows[batch[n - 1]], answers[n - 1])));
      TaggedAttempts(lib, rows, batch, answers, n - 1) + now
  }

  /** Without the row ids, these are the attempts of the poller class. */
  lemma {:induction false} AttemptsAgree(lib: Library, rows: seq<Row>, batch: seq<nat>, answers: seq<Answers>, n: nat)
    requires n <= |batch| == |answers| && forall j | 0 <= j < n :: batch[j] < |rows|
    ensures ResultsIn(TaggedAttempts(lib, rows, batch, answers, n)) == AttemptsOf(lib, rows, batch, answers, n)
  {
    if n > 0 {
      AttemptsAgree(lib, rows, batch, answers, n - 1);
      var results := SendableOf(lib, ResultsFor(lib, rows[batch[n - 1]], answers[n - 1]));
      assert ResultsIn(Tagged(batch[n - 1], results)) == results;
      ResultsInAdds(TaggedAttempts(lib, rows, batch, answers, n - 1), Tagged(batch[n - 1], results));
    }
  }

  ghost function ResultsIn(attempts: seq<Attempt>): seq<ProcessResult> {
    seq(|attempts|, i requires 0 <= i < |attempts| => attempts[i].result)
  }

  lemma ResultsInAdds(a: seq<Attempt>, b: seq<Attempt>)
    ensures ResultsIn(a + b) == ResultsIn(a) + ResultsIn(b)
  {
  }

  /** How one more message extends each part of a poll. */
  lemma OneMore(lib: Library, rows: seq<Row>, batch: seq<nat>, answers: seq<Answers>, n: nat)
    requires IsBatch(rows, batch, BATCH_SIZE) && n < |batch| == |answers|
    ensures batch[n] < |Marked(rows, batch, answers, n)|
    ensures var fetched, f, a := FetchedRows(rows, batch), FetchedRows(rows, batch)[n], answers[n];
            && f.id == batch[n] && fetched[n..] == [f] + fetched[n + 1..]
            && Marked(rows, batch, answers, n + 1) == MarkOne(Marked(rows, batch, answers, n), f, a)
            && PollSteps(lib, rows, batch, answers, n + 1)
                == PollSteps(lib, rows, batch, answers, n) + MessageSteps(lib, f.row, a)
            && TaggedAttempts(lib, rows, batch, answers, n + 1)
               == TaggedAttempts(lib, rows, batch, answers, n)
                   + Tagged(f.id, SendableOf(lib, ResultsFor(lib, f.row, a)))
  {
  }

  lemma FetchRun(host: string, lib: Library, s: State, batch: seq<nat>)
    requires s.pc.Idle? && IsBatch(s.table.rows, batch, BATCH_SIZE)
    ensures Gets(host, lib, s, [Fetch(batch)], Working(FetchedRows(s.table.rows, batch)[0..]), s.table.rows,
                 s.log.attempts + [])
  {
    One(host, lib, s, Fetch(batch));
    assert FetchedRows(s.table.rows, batch)[0..] == FetchedRows(s.table.rows, batch);
    assert s.log.attempts + [] == s.log.attempts;
  }

  lemma {:induction false} BatchRun(host: string, lib: Library, s: State, batch: seq<nat>, answers: seq<Answers>,
                                    n: nat)
    requires s.pc.Idle? && IsBatch(s.table.rows, batch, BATCH_SIZE) && n <= |batch| == |answers|
    ensures Gets(host, lib, s, PollSteps(lib, s.table.rows, batch, answers, n),
                 Working(FetchedRows(s.table.rows, batch)[n..]),
                 Marked(s.table.rows, batch, answers, n),
                 s.log.attempts + TaggedAttempts(lib, s.table.rows, batch, answers, n))
  {
    if n == 0 {
      FetchRun(host, lib, s, batch);
    } else {
      var rows, m := s.table.rows, n - 1;
      var fetched := FetchedRows(rows, batch);
      BatchRun(host, lib, s, batch, answers, m);
      OneMore(lib, rows, batch, answers, m);
      ThroughMessage(host, lib, s, PollSteps(lib, rows, batch, answers, m), fetched[m], fetched[n..], answers[m],
                     Marked(rows, batch, answers, m), TaggedAttempts(lib, rows, batch, answers, m));
    }
  }

  /** From an idle poller, the steps of one uninterrupted poll end in exactly the table and the HTTP
      attempts that PollAndProcess promises, and leave the SMTP side alone. */
  lemma PollIsARun(host: string, lib: Library, s: State, batch: seq<nat>, answers: seq<Answers>)
    requires s.pc.Idle? && IsBatch(s.table.rows, batch, BATCH_SIZE) && |batch| == |answers|
    ensures var steps := PollSteps(lib, s.table.rows, batch, answers, |batch|) + [EndPoll];
            var s' := After(host, lib, s, steps);
            && Runs(host, lib, s, steps)
            && s'.pc.Idle? && s'.sessions == s.sessions && s'.txns == s.txns && s'.table.origins == s.table.origins
            && s'.table.rows == Marked(s.table.rows, batch, answers, |batch|)
            && ResultsIn(s'.log.attempts) ==
                 ResultsIn(s.log.attempts) + AttemptsOf(lib, s.table.rows, batch, answers, |batch|)
  {
    var rows, n := s.table.rows, |batch|;
    BatchRun(host, lib, s, batch, answers, n);
    var steps := PollSteps(lib, rows, batch, answers, n);
    var s1 := After(host, lib, s, steps);
    assert FetchedRows(rows, batch)[n..] == [];
    One(host, lib, s1, EndPoll);
    Chain(host, lib, s, steps, [EndPoll]);
    AttemptsAgree(lib, rows, batch, answers, n);
    ResultsInAdds(s.log.attempts, TaggedAttempts(lib, rows, batch, answers, n));
  }
}
