/** Store and forward end to end: any number of overlapping SMTP sessions append rows
    (pkg/smtp/server.go) while a single poller fetches, looks up, sends and saves
    (pkg/worker/poller.go, pkg/worker/processor.go, pkg/worker/webhook.go). */
module Pipeline {
  import opened Common
  import opened Storage
  import opened Processing
  import opened Intake
  import opened Poller
  import MailText

  // ------------------------------------------------------------------ state

  datatype Status = Running | Succeeded | Failed

  /** One DATA command: what it was given, and how many of its rows are stored. */
  datatype Txn = Txn(sender: string, rcpts: seq<string>, subject: string, body: string, stored: nat, status: Status)

  datatype Phase = Ready | Storing(txn: nat) | AwaitingReset

  datatype Smtp = Smtp(sender: string, to: seq<string>, phase: Phase)

  /** The table with, for every row, the transaction it came from. */
  datatype Table = Table(rows: seq<Row>, origins: seq<nat>)

  datatype Fetched = Fetched(id: nat, row: Row)

  /** Where the poller stands; `todo` are the results it has not tried to send yet. */
  datatype Pc = Idle | Working(rest: seq<Fetched>) | Sending(f: Fetched, todo: seq<ProcessResult>, rest: seq<Fetched>)

  /** A successful lookup: for which row, and with which jobs. */
  datatype Round = Round(id: nat, msg: Message, jobs: seq<Job>)

  datatype Attempt = Attempt(id: nat, result: ProcessResult)

  datatype Log = Log(rounds: seq<Round>, failedSaves: seq<nat>, attempts: seq<Attempt>)

  datatype State = State(sessions: seq<Smtp>, txns: seq<Txn>, table: Table, pc: Pc, log: Log)

  function Start(sessions: nat): State {
    State(seq(sessions, _ => Smtp("", [], Ready)), [], Table([], []), Idle, Log([], [], []))
  }

  // ------------------------------------------------------------------ steps

  datatype Step =
    | Mail(i: nat, sender: string)
    | Rcpt(i: nat, to: string)
    | Unreadable(i: nat)
    | BeginData(i: nat, text: string)
    | Create(i: nat, now: int, ok: bool)
    | EndData(i: nat)
    | Reset(i: nat)
    | Fetch(batch: seq<nat>)
    | LookupFails
    | Lookup(jobs: seq<Job>)
    | SendOne
    | Save(ok: bool)
    | EndPoll

  ghost predicate Enabled(s: State, step: Step) {
    match step
    case Mail(i, _) => i < |s.sessions| && s.sessions[i].phase.Ready?
    case Rcpt(i, _) => i < |s.sessions| && s.sessions[i].phase.Ready?
    case Unreadable(i) => i < |s.sessions| && s.sessions[i].phase.Ready?
    case BeginData(i, _) => i < |s.sessions| && s.sessions[i].phase.Ready?
    case Create(i, _, _) =>
      i < |s.sessions| && s.sessions[i].phase.Storing? && s.sessions[i].phase.txn < |s.txns|
      && s.txns[s.sessions[i].phase.txn].stored < |s.txns[s.sessions[i].phase.txn].rcpts|
    case EndData(i) =>
      i < |s.sessions| && s.sessions[i].phase.Storing? && s.sessions[i].phase.txn < |s.txns|
      && s.txns[s.sessions[i].phase.txn].stored == |s.txns[s.sessions[i].phase.txn].rcpts|
    case Reset(i) => i < |s.sessions| && !s.sessions[i].phase.Storing?
    case Fetch(batch) => s.pc.Idle? && IsBatch(s.table.rows, batch, BATCH_SIZE)
    case LookupFails => s.pc.Working? && s.pc.rest != []
    case Lookup(_) => s.pc.Working? && s.pc.rest != []
    case SendOne => s.pc.Sending? && s.pc.todo != []
    case Save(_) => s.pc.Sending? && s.pc.todo == [] && s.pc.f.id < |s.table.rows|
    case EndPoll => s.pc.Working? && s.pc.rest == []
  }

  ghost predicate ByPoller(step: Step) {
    step.Fetch? || step.LookupFails? || step.Lookup? || step.SendOne? || step.Save? || step.EndPoll?
  }

  ghost function ApplySmtp(host: string, s: State, step: Step): State
    requires Enabled(s, step) && !ByPoller(step)
  {
    var smtp := s.sessions[step.i];
    match step
    case Mail(i, sender) => s.(sessions := s.sessions[i := smtp.(sender := sender)])
    case Rcpt(i, to) =>
      var email := TrimAngles(to);
      if IsValidEmail(email, "@" + host) then s.(sessions := s.sessions[i := smtp.(to := smtp.to + [email])]) else s
    case Unreadable(i) => s.(sessions := s.sessions[i := smtp.(phase := AwaitingReset)])
    case BeginData(i, text) =>
      var txn := Txn(smtp.sender, smtp.to, MailText.ExtractSubject(text), MailText.ExtractBody(text), 0, Running);
      s.(txns := s.txns + [txn], sessions := s.sessions[i := smtp.(phase := Storing(|s.txns|))])
    case Create(i, now, ok) =>
      var x := smtp.phase.txn;
      var t := s.txns[x];
      if ok then
        s.(table := Table(s.table.rows + [Row(t.rcpts[t.stored], t.sender, t.subject, t.body, false, now)],
                          s.table.origins + [x]),
           txns := s.txns[x := t.(stored := t.stored + 1)])
      else
        s.(txns := s.txns[x := t.(status := Failed)], sessions := s.sessions[i := smtp.(phase := AwaitingReset)])
    case EndData(i) =>
      var x := smtp.phase.txn;
      s.(txns := s.txns[x := s.txns[x].(status := Succeeded)],
         sessions := s.sessions[i := smtp.(phase := AwaitingReset)])
    case Reset(i) => s.(sessions := s.sessions[i := Smtp("", [], Ready)])
  }

  ghost function ApplyPoller(lib: Library, s: State, step: Step): State
    requires Enabled(s, step) && ByPoller(step)
  {
    match step
    case Fetch(batch) => s.(pc := Working(FetchedRows(s.table.rows, batch)))
    case LookupFails => s.(pc := Working(s.pc.rest[1..]))
    case Lookup(jobs) =>
      var f := s.pc.rest[0];
      s.(pc := Sending(f, Results(lib, jobs, MessageOf(f.row)), s.pc.rest[1..]),
         log := s.log.(rounds := s.log.rounds + [Round(f.id, MessageOf(f.row), jobs)]))
    case SendOne =>
      var r := s.pc.todo[0];
      s.(pc := s.pc.(todo := s.pc.todo[1..]),
         log := if Sendable(lib, r) then s.log.(attempts := s.log.attempts + [Attempt(s.pc.f.id, r)]) else s.log)
    case Save(ok) =>
      var f := s.pc.f;
      if ok then
        s.(pc := Working(s.pc.rest),
           table := s.table.(rows := s.table.rows[f.id := f.row.(processed := true)]))
      else s.(pc := Working(s.pc.rest), log := s.log.(failedSaves := s.log.failedSaves + [f.id]))
    case EndPoll => s.(pc := Idle)
  }

  function FetchedRows(rows: seq<Row>, batch: seq<nat>): seq<Fetched>
    requires forall j | 0 <= j < |batch| :: batch[j] < |rows|
  {
    seq(|batch|, j requires 0 <= j < |batch| => Fetched(batch[j], rows[batch[j]]))
  }

  ghost function Apply(host: string, lib: Library, s: State, step: Step): State
    requires Enabled(s, step)
  {
    if ByPoller(step) then ApplyPoller(lib, s, step) else ApplySmtp(host, s, step)
  }

  ghost predicate Runs(host: string, lib: Library, s: State, steps: seq<Step>)
    decreases |steps|
  {
    steps == [] || (Enabled(s, steps[0]) && Runs(host, lib, Apply(host, lib, s, steps[0]), steps[1..]))
  }

  ghost function After(host: string, lib: Library, s: State, steps: seq<Step>): State
    decreases |steps|
  {
    if steps == [] || !Enabled(s, steps[0]) then s
    else After(host, lib, Apply(host, lib, s, steps[0]), steps[1..])
  }

  // ------------------------------------------------------------------ conservation of mail

  /** What of a row never changes. */
  datatype Content = Content(to: string, sender: string, subject: string, body: string)

  function ContentOf(row: Row): Content {
    Content(row.to, row.sender, row.subject, row.body)
  }

  /** The contents of the rows that came from transaction x, in the order of the table. */
  ghost function From(t: Table, x: nat, n: nat): seq<Content>
    requires n <= |t.rows| == |t.origins|
  {
    if n == 0 then []
    else From(t, x, n - 1) + if t.origins[n - 1] == x then [ContentOf(t.rows[n - 1])] else []
  }

  /** One row per accepted recipient, in order, with the same sender, subject and body. */
  ghost function Owed(t: Txn): seq<Content> {
    seq(|t.rcpts|, i requires 0 <= i < |t.rcpts| => Content(t.rcpts[i], t.sender, t.subject, t.body))
  }

  ghost predicate TxnOk(host: string, table: Table, x: nat, t: Txn) {
    && |table.rows| == |table.origins|
    && t.stored <= |t.rcpts|
    && AllLocal(t.rcpts, host)
    && From(table, x, |table.rows|) == Owed(t)[..t.stored]
    && (t.status.Succeeded? ==> t.stored == |t.rcpts|)
    && (t.status.Failed? ==> t.stored < |t.rcpts|)
  }

  ghost predicate TableOk(host: string, table: Table, txns: nat) {
    && |table.rows| == |table.origins|
    && (forall k | 0 <= k < |table.origins| :: table.origins[k] < txns)
    && (forall k | 0 <= k < |table.rows| :: IsValidEmail(table.rows[k].to, "@" + host))
  }

  ghost predicate SessionsOk(host: string, sessions: seq<Smtp>, txns: seq<Txn>) {
    && (forall i | 0 <= i < |sessions| :: AllLocal(sessions[i].to, host))
    && (forall i | 0 <= i < |sessions| :: sessions[i].phase.Storing? ==>
          sessions[i].phase.txn < |txns| && txns[sessions[i].phase.txn].status.Running?)
    && (forall i, j | 0 <= i < j < |sessions| :: sessions[i].phase.Storing? ==> sessions[i].phase != sessions[j].phase)
  }

  ghost predicate MailInv(host: string, s: State) {
    && TableOk(host, s.table, |s.txns|)
    && SessionsOk(host, s.sessions, s.txns)
    && forall x | 0 <= x < |s.txns| :: TxnOk(host, s.table, x, s.txns[x])
  }

  /** From depends on nothing but origins and contents. */
  lemma {:induction false} FromSame(t: Table, t': Table, x: nat, n: nat)
    requires n <= |t.rows| == |t.origins| && n <= |t'.rows| == |t'.origins|
    requires forall k | 0 <= k < n :: t.origins[k] == t'.origins[k] && ContentOf(t.rows[k]) == ContentOf(t'.rows[k])
    ensures From(t, x, n) == From(t', x, n)
  {
    if n > 0 {
      FromSame(t, t', x, n - 1);
    }
  }

  /** Nothing came from a transaction that has not begun. */
  lemma {:induction false} FromNone(t: Table, x: nat, n: nat)
    requires n <= |t.rows| == |t.origins| && forall k | 0 <= k < n :: t.origins[k] < x
    ensures From(t, x, n) == []
  {
    if n > 0 {
      FromNone(t, x, n - 1);
    }
  }

  lemma SessionsStep(host: string, s: State, step: Step)
    requires MailInv(host, s) && Enabled(s, step) && !ByPoller(step)
    ensures var s' := ApplySmtp(host, s, step); SessionsOk(host, s'.sessions, s'.txns)
  {
  }

  lemma CreateStep(host: string, s: State, i: nat, now: int, ok: bool)
    requires MailInv(host, s) && Enabled(s, Create(i, now, ok))
    ensures var s' := ApplySmtp(host, s, Create(i, now, ok));
            && TableOk(host, s'.table, |s'.txns|)
            && forall x | 0 <= x < |s'.txns| :: TxnOk(host, s'.table, x, s'.txns[x])
  {
    var s' := ApplySmtp(host, s, Create(i, now, ok));
    var mine := s.sessions[i].phase.txn;
    var t := s.txns[mine];
    var n := |s.table.rows|;
    assert TxnOk(host, s.table, mine, t);
    assert t.rcpts[t.stored] in t.rcpts;
    forall x | 0 <= x < |s'.txns|
      ensures TxnOk(host, s'.table, x, s'.txns[x])
    {
      assert TxnOk(host, s.table, x, s.txns[x]);
      FromSame(s.table, s'.table, x, n);
      if ok && x == mine {
        assert Owed(t) == Owed(s'.txns[x]);
        assert Owed(t)[..t.stored + 1] == Owed(t)[..t.stored] + [Owed(t)[t.stored]];
      }
    }
  }

  lemma OtherSmtpStep(host: string, s: State, step: Step)
    requires MailInv(host, s) && Enabled(s, step) && !ByPoller(step) && !step.Create?
    ensures var s' := ApplySmtp(host, s, step);
            && TableOk(host, s'.table, |s'.txns|)
            && forall x | 0 <= x < |s'.txns| :: TxnOk(host, s'.table, x, s'.txns[x])
  {
    var s' := ApplySmtp(host, s, step);
    forall x | 0 <= x < |s'.txns|
      ensures TxnOk(host, s'.table, x, s'.txns[x])
    {
      if x < |s.txns| {
        assert TxnOk(host, s.table, x, s.txns[x]);
        assert Owed(s'.txns[x]) == Owed(s.txns[x]);
      } else {
        FromNone(s.table, x, |s.table.rows|);
        assert Owed(s'.txns[x])[..0] == [];
        assert AllLocal(s.sessions[step.i].to, host);
      }
    }
  }

  // ------------------------------------------------------------------ the poller's books

  function Count(ids: seq<nat>, id: nat): nat {
    if ids == [] then 0 else Count(ids[..|ids| - 1], id) + if ids[|ids| - 1] == id then 1 else 0
  }

  function CountRounds(rounds: seq<Round>, id: nat): nat {
    if rounds == [] then 0 else CountRounds(rounds[..|rounds| - 1], id) + if rounds[|rounds| - 1].id == id then 1 else 0
  }

  ghost function Tagged(id: nat, results: seq<ProcessResult>): seq<Attempt> {
    seq(|results|, i requires 0 <= i < |results| => Attempt(id, results[i]))
  }

  /** The attempts a round owes: one for each sendable result, in order. */
  ghost function AttemptsOfRound(lib: Library, r: Round): seq<Attempt> {
    Tagged(r.id, SendableOf(lib, Results(lib, r.jobs, r.msg)))
  }

  ghost function AttemptsOwed(lib: Library, rounds: seq<Round>): seq<Attempt> {
    if rounds == [] then []
    else AttemptsOwed(lib, rounds[..|rounds| - 1]) + AttemptsOfRound(lib, rounds[|rounds| - 1])
  }

  ghost function StillToSend(lib: Library, pc: Pc): seq<Attempt> {
    if pc.Sending? then Tagged(pc.f.id, SendableOf(lib, pc.todo)) else []
  }

  function Queue(pc: Pc): seq<Fetched> {
    match pc
    case Idle => []
    case Working(rest) => rest
    case Sending(f, _, rest) => [f] + rest
  }

  /** The poller's copies are what the table holds, unprocessed, and of different rows. */
  ghost predicate CopiesOk(rows: seq<Row>, queue: seq<Fetched>) {
    && (forall j | 0 <= j < |queue| ::
          queue[j].id < |rows| && rows[queue[j].id] == queue[j].row && !queue[j].row.processed)
    && (forall j, k | 0 <= j < k < |queue| :: queue[j].id != queue[k].id)
  }

  /** Rounds whose lookup succeeded = failed saves + 1 if processed (+ 1 for the round under way). */
  ghost predicate Balanced(rows: seq<Row>, pc: Pc, log: Log, id: nat) {
    CountRounds(log.rounds, id) ==
      Count(log.failedSaves, id)
      + (if id < |rows| && rows[id].processed then 1 else 0)
      + (if pc.Sending? && pc.f.id == id then 1 else 0)
  }

  ghost predicate RoundsOk(rows: seq<Row>, rounds: seq<Round>) {
    forall k | 0 <= k < |rounds| :: rounds[k].id < |rows| && rounds[k].msg == MessageOf(rows[rounds[k].id])
  }

  ghost predicate PollInv(lib: Library, s: State) {
    && CopiesOk(s.table.rows, Queue(s.pc))
    && RoundsOk(s.table.rows, s.log.rounds)
    && (forall id: nat :: Balanced(s.table.rows, s.pc, s.log, id))
    && s.log.attempts + StillToSend(lib, s.pc) == AttemptsOwed(lib, s.log.rounds)
  }

  lemma CopiesTail(rows: seq<Row>, queue: seq<Fetched>)
    requires CopiesOk(rows, queue) && queue != []
    ensures CopiesOk(rows, queue[1..])
  {
  }

  /** Saving the head of the queue leaves the copies of the others up to date. */
  lemma CopiesSave(rows: seq<Row>, queue: seq<Fetched>, rounds: seq<Round>)
    requires CopiesOk(rows, queue) && queue != [] && RoundsOk(rows, rounds)
    ensures var f := queue[0];
            var rows' := rows[f.id := f.row.(processed := true)];
            CopiesOk(rows', queue[1..]) && RoundsOk(rows', rounds)
  {
    var f := queue[0];
    var rows' := rows[f.id := f.row.(processed := true)];
    forall k | 0 <= k < |rounds|
      ensures rounds[k].id < |rows'| && rounds[k].msg == MessageOf(rows'[rounds[k].id])
    {
    }
  }

  lemma CopiesFetch(rows: seq<Row>, batch: seq<nat>)
    requires IsBatch(rows, batch, BATCH_SIZE)
    ensures CopiesOk(rows, FetchedRows(rows, batch))
  {
  }

  lemma CopiesStep(lib: Library, s: State, step: Step)
    requires PollInv(lib, s) && Enabled(s, step) && ByPoller(step)
    ensures var s' := ApplyPoller(lib, s, step);
            CopiesOk(s'.table.rows, Queue(s'.pc)) && RoundsOk(s'.table.rows, s'.log.rounds)
  {
    var rows, queue := s.table.rows, Queue(s.pc);
    match step
    case Fetch(batch) => CopiesFetch(rows, batch);
    case LookupFails => CopiesTail(rows, queue);
    case Lookup(jobs) =>
      assert [s.pc.rest[0]] + s.pc.rest[1..] == s.pc.rest;
      assert queue[0] == s.pc.rest[0];
    case SendOne =>
    case Save(ok) =>
      assert queue[0] == s.pc.f && queue[1..] == s.pc.rest;
      CopiesTail(rows, queue);
      CopiesSave(rows, queue, s.log.rounds);
    case EndPoll =>
  }

  lemma BalanceStep(lib: Library, s: State, step: Step, id: nat)
    requires PollInv(lib, s) && Enabled(s, step) && ByPoller(step)
    ensures var s' := ApplyPoller(lib, s, step); Balanced(s'.table.rows, s'.pc, s'.log, id)
  {
    assert Balanced(s.table.rows, s.pc, s.log, id);
    var queue := Queue(s.pc);
    match step
    case Lookup(jobs) =>
      var f := s.pc.rest[0];
      var round := Round(f.id, MessageOf(f.row), jobs);
      assert (s.log.rounds + [round])[..|s.log.rounds|] == s.log.rounds;
    case Save(ok) =>
      var f := s.pc.f;
      assert queue[0] == f;
      assert (s.log.failedSaves + [f.id])[..|s.log.failedSaves|] == s.log.failedSaves;
    case _ =>
  }

  lemma AttemptsStep(lib: Library, s: State, step: Step)
    requires PollInv(lib, s) && Enabled(s, step) && ByPoller(step)
    ensures var s' := ApplyPoller(lib, s, step);
            s'.log.attempts + StillToSend(lib, s'.pc) == AttemptsOwed(lib, s'.log.rounds)
  {
    match step
    case Lookup(jobs) =>
      var f := s.pc.rest[0];
      var round := Round(f.id, MessageOf(f.row), jobs);
      assert (s.log.rounds + [round])[..|s.log.rounds|] == s.log.rounds;
      assert s.log.attempts + [] == s.log.attempts;
    case SendOne =>
      SendHead(lib, s.pc.f.id, s.pc.todo, s.log.attempts);
    case Save(ok) =>
      assert SendableOf(lib, s.pc.todo) == [];
    case _ =>
  }

  lemma TaggedCons(id: nat, r: ProcessResult, rest: seq<ProcessResult>)
    ensures Tagged(id, [r] + rest) == [Attempt(id, r)] + Tagged(id, rest)
  {
  }

  lemma SendHead(lib: Library, id: nat, todo: seq<ProcessResult>, attempts: seq<Attempt>)
    requires todo != []
    ensures attempts + Tagged(id, SendableOf(lib, todo)) ==
              (if Sendable(lib, todo[0]) then attempts + [Attempt(id, todo[0])] else attempts)
              + Tagged(id, SendableOf(lib, todo[1..]))
  {
    var rest := SendableOf(lib, todo[1..]);
    if Sendable(lib, todo[0]) {
      TaggedCons(id, todo[0], rest);
      Regroup(attempts, [Attempt(id, todo[0])], Tagged(id, rest));
    } else {
      assert SendableOf(lib, todo) == [] + rest == rest;
    }
  }

  /** An SMTP step leaves the poller's books alone: rows are only appended, and unprocessed. */
  lemma SmtpKeepsBooks(host: string, lib: Library, s: State, step: Step)
    requires PollInv(lib, s) && Enabled(s, step) && !ByPoller(step)
    ensures PollInv(lib, ApplySmtp(host, s, step))
  {
    var s' := ApplySmtp(host, s, step);
    assert s'.pc == s.pc && s'.log == s.log;
    assert |s.table.rows| <= |s'.table.rows|;
    assert forall k | 0 <= k < |s.table.rows| :: s'.table.rows[k] == s.table.rows[k];
    assert forall k | |s.table.rows| <= k < |s'.table.rows| :: !s'.table.rows[k].processed;
    forall id: nat
      ensures Balanced(s'.table.rows, s'.pc, s'.log, id)
    {
      assert Balanced(s.table.rows, s.pc, s.log, id);
    }
  }

  /** A poller step leaves the mail alone: it changes no row but for its mark. */
  lemma PollerKeepsMail(host: string, lib: Library, s: State, step: Step)
    requires MailInv(host, s) && PollInv(lib, s) && Enabled(s, step) && ByPoller(step)
    ensures MailInv(host, ApplyPoller(lib, s, step))
  {
    var s' := ApplyPoller(lib, s, step);
    if step.Save? {
      assert Queue(s.pc)[0] == s.pc.f;
    }
    assert forall k | 0 <= k < |s.table.rows| :: ContentOf(s'.table.rows[k]) == ContentOf(s.table.rows[k]);
    forall x | 0 <= x < |s'.txns|
      ensures TxnOk(host, s'.table, x, s'.txns[x])
    {
      assert TxnOk(host, s.table, x, s.txns[x]);
      FromSame(s.table, s'.table, x, |s.table.rows|);
    }
  }

  ghost predicate Inv(host: string, lib: Library, s: State) {
    MailInv(host, s) && PollInv(lib, s)
  }

  lemma InvStep(host: string, lib: Library, s: State, step: Step)
    requires Inv(host, lib, s) && Enabled(s, step)
    ensures Inv(host, lib, Apply(host, lib, s, step))
  {
    if ByPoller(step) {
      CopiesStep(lib, s, step);
      forall id: nat
        ensures var s' := ApplyPoller(lib, s, step); Balanced(s'.table.rows, s'.pc, s'.log, id)
      {
        BalanceStep(lib, s, step, id);
      }
      AttemptsStep(lib, s, step);
      PollerKeepsMail(host, lib, s, step);
    } else {
      SessionsStep(host, s, step);
      SmtpKeepsBooks(host, lib, s, step);
      if step.Create? {
        CreateStep(host, s, step.i, step.now, step.ok);
      } else {
        OtherSmtpStep(host, s, step);
      }
    }
  }

  lemma {:induction false} InvRun(host: string, lib: Library, s: State, steps: seq<Step>)
    requires Inv(host, lib, s) && Runs(host, lib, s, steps)
    ensures Inv(host, lib, After(host, lib, s, steps))
    decreases |steps|
  {
    if steps != [] {
      InvStep(host, lib, s, steps[0]);
      InvRun(host, lib, Apply(host, lib, s, steps[0]), steps[1..]);
    }
  }

  // ------------------------------------------------------------------ the promises

  lemma Reachable(host: string, lib: Library, sessions: nat, steps: seq<Step>)
    requires Runs(host, lib, Start(sessions), steps)
    ensures Inv(host, lib, After(host, lib, Start(sessions), steps))
  {
    assert AttemptsOwed(lib, []) == [];
    InvRun(host, lib, Start(sessions), steps);
  }

  // What the clients asked for, read off the steps of a run alone.

  /** The sender of session i: that of its last MAIL since its last reset. */
  ghost function SenderOf(steps: seq<Step>, i: nat): string {
    if steps == [] then ""
    else
      var front, last := steps[..|steps| - 1], steps[|steps| - 1];
      if last == Reset(i) then ""
      else if last.Mail? && last.i == i then last.sender
      else SenderOf(front, i)
  }

  /** The recipients of session i: those of its RCPTs since its last reset that are local, in order. */
  ghost function RecipientsOf(host: string, steps: seq<Step>, i: nat): seq<string> {
    if steps == [] then []
    else
      var front, last := steps[..|steps| - 1], steps[|steps| - 1];
      if last == Reset(i) then []
      else if last.Rcpt? && last.i == i && IsValidEmail(TrimAngles(last.to), "@" + host) then
        RecipientsOf(host, front, i) + [TrimAngles(last.to)]
      else RecipientsOf(host, front, i)
  }

  /** What session i did last. */
  ghost function LastOf(steps: seq<Step>, i: nat): Option<Step> {
    if steps == [] then None
    else
      var last := steps[|steps| - 1];
      if !ByPoller(last) && last.i == i then Some(last) else LastOf(steps[..|steps| - 1], i)
  }

  /** A session takes commands at first, after a MAIL, a RCPT and a reset; it stores from the start of a DATA
      on, while its rows are stored; after the end or the failure of a DATA it waits for the reset. */
  predicate PhaseIs(phase: Phase, last: Option<Step>) {
    match last
    case None => phase.Ready?
    case Some(step) =>
      && (phase.Ready? <==> step.Mail? || step.Rcpt? || step.Reset?)
      && (phase.Storing? <==> step.BeginData? || (step.Create? && step.ok))
      && (phase.AwaitingReset? <==> step.Unreadable? || step.EndData? || (step.Create? && !step.ok))
  }

  /** The content owed for the text of a DATA: one row per recipient. */
  ghost function ContentsFor(sender: string, rcpts: seq<string>, text: string): seq<Content> {
    seq(|rcpts|, k requires 0 <= k < |rcpts| =>
      Content(rcpts[k], sender, MailText.ExtractSubject(text), MailText.ExtractBody(text)))
  }

  /** What each DATA of the run asked for. */
  ghost function Demanded(host: string, steps: seq<Step>): seq<seq<Content>> {
    if steps == [] then []
    else
      var front, last := steps[..|steps| - 1], steps[|steps| - 1];
      Demanded(host, front)
      + if last.BeginData? then
          [ContentsFor(SenderOf(front, last.i), RecipientsOf(host, front, last.i), last.text)]
        else []
  }

  lemma {:induction false} LastStep(host: string, lib: Library, s: State, steps: seq<Step>)
    requires steps != [] && Runs(host, lib, s, steps)
    ensures var front, last := steps[..|steps| - 1], steps[|steps| - 1];
            && Runs(host, lib, s, front) && Enabled(After(host, lib, s, front), last)
            && After(host, lib, s, steps) == Apply(host, lib, After(host, lib, s, front), last)
    decreases |steps|
  {
    if |steps| > 1 {
      assert steps[1..][..|steps| - 2] == steps[..|steps| - 1][1..];
      LastStep(host, lib, Apply(host, lib, s, steps[0]), steps[1..]);
    }
  }

  lemma FrontAndLast(steps: seq<Step>)
    requires steps != []
    ensures steps[..|steps| - 1] + [steps[|steps| - 1]] == steps
  {
  }

  /** The state of sessions and transactions that the clients' commands account for. */
  ghost predicate Accounted(host: string, s: State, steps: seq<Step>) {
    && (forall i | 0 <= i < |s.sessions| ::
          s.sessions[i].sender == SenderOf(steps, i) && s.sessions[i].to == RecipientsOf(host, steps, i))
    && (forall i | 0 <= i < |s.sessions| :: PhaseIs(s.sessions[i].phase, LastOf(steps, i)))
    && |s.txns| == |Demanded(host, steps)|
    && forall x | 0 <= x < |s.txns| :: Owed(s.txns[x]) == Demanded(host, steps)[x]
  }

  lemma AccountedStep(host: string, lib: Library, s: State, front: seq<Step>, last: Step)
    requires Accounted(host, s, front) && Enabled(s, last)
    ensures Accounted(host, Apply(host, lib, s, last), front + [last])
  {
    var s' := Apply(host, lib, s, last);
    var steps := front + [last];
    assert steps[..|steps| - 1] == front;
    forall x | 0 <= x < |s.txns|
      ensures Owed(s'.txns[x]) == Owed(s.txns[x])
    {
    }
    if last.BeginData? {
      var sender, rcpts := SenderOf(front, last.i), RecipientsOf(host, front, last.i);
      assert Owed(s'.txns[|s.txns|]) == ContentsFor(sender, rcpts, last.text);
    }
  }

  /** Over every run each session has the sender, the recipients and the phase its own commands gave it, and
      each DATA owes what it asked for. */
  lemma {:induction false} SessionsFollowCommands(host: string, lib: Library, sessions: nat, steps: seq<Step>)
    requires Runs(host, lib, Start(sessions), steps)
    ensures Accounted(host, After(host, lib, Start(sessions), steps), steps)
    decreases |steps|
  {
    if steps != [] {
      var front, last := steps[..|steps| - 1], steps[|steps| - 1];
      LastStep(host, lib, Start(sessions), steps);
      SessionsFollowCommands(host, lib, sessions, front);
      FrontAndLast(steps);
      AccountedStep(host, lib, After(host, lib, Start(sessions), front), front, last);
    }
  }

  /** Over all overlapping sessions and polls: every stored row is local and comes from a DATA command.
      The rows of the x-th DATA that succeeded are exactly what it asked for: one for each recipient
      its session accepted since its last reset, in order, with the session's sender and the subject
      and body of the text. Those of a DATA that failed are a proper prefix of that. */
  lemma MailIsConserved(host: string, lib: Library, sessions: nat, steps: seq<Step>)
    requires Runs(host, lib, Start(sessions), steps)
    ensures var s := After(host, lib, Start(sessions), steps);
            && |s.table.rows| == |s.table.origins|
            && (forall k | 0 <= k < |s.table.rows| ::
                  IsValidEmail(s.table.rows[k].to, "@" + host) && s.table.origins[k] < |s.txns|)
            && |s.txns| == |Demanded(host, steps)|
            && (forall x | 0 <= x < |s.txns| ::
                  var rows, asked := From(s.table, x, |s.table.rows|), Demanded(host, steps)[x];
                  && (s.txns[x].status.Succeeded? ==> rows == asked)
                  && (s.txns[x].status.Failed? ==> rows < asked)
                  && rows <= asked)
  {
    Reachable(host, lib, sessions, steps);
    SessionsFollowCommands(host, lib, sessions, steps);
    var s := After(host, lib, Start(sessions), steps);
    forall x | 0 <= x < |s.txns|
      ensures var rows, asked := From(s.table, x, |s.table.rows|), Demanded(host, steps)[x];
              && (s.txns[x].status.Succeeded? ==> rows == asked)
              && (s.txns[x].status.Failed? ==> rows < asked)
              && rows <= asked
    {
      assert TxnOk(host, s.table, x, s.txns[x]);
      if s.txns[x].stored == |s.txns[x].rcpts| {
        assert Owed(s.txns[x])[..s.txns[x].stored] == Owed(s.txns[x]);
      }
    }
  }

  /** Every transaction that has neither succeeded nor failed is being stored by a session. */
  ghost predicate RunningAreStored(s: State) {
    forall x | 0 <= x < |s.txns| && s.txns[x].status.Running? ::
      exists i :: 0 <= i < |s.sessions| && s.sessions[i].phase == Storing(x)
  }

  lemma RunningStep(host: string, lib: Library, s: State, step: Step)
    requires RunningAreStored(s) && SessionsOk(host, s.sessions, s.txns) && Enabled(s, step)
    ensures RunningAreStored(Apply(host, lib, s, step))
  {
    var s' := Apply(host, lib, s, step);
    forall x | 0 <= x < |s'.txns| && s'.txns[x].status.Running?
      ensures exists i :: 0 <= i < |s'.sessions| && s'.sessions[i].phase == Storing(x)
    {
      if x < |s.txns| {
        assert s.txns[x].status.Running?;
        var i :| 0 <= i < |s.sessions| && s.sessions[i].phase == Storing(x);
        assert s'.sessions[i].phase == Storing(x);
      } else {
        assert s'.sessions[step.i].phase == Storing(x);
      }
    }
  }

  lemma {:induction false} RunningRun(host: string, lib: Library, s: State, steps: seq<Step>)
    requires Inv(host, lib, s) && RunningAreStored(s) && Runs(host, lib, s, steps)
    ensures RunningAreStored(After(host, lib, s, steps))
    decreases |steps|
  {
    if steps != [] {
      RunningStep(host, lib, s, steps[0]);
      InvStep(host, lib, s, steps[0]);
      RunningRun(host, lib, Apply(host, lib, s, steps[0]), steps[1..]);
    }
  }

  /** Over every run a DATA is still undecided exactly while a session is storing its rows. */
  lemma DecidedOnceStored(host: string, lib: Library, sessions: nat, steps: seq<Step>, x: nat)
    requires Runs(host, lib, Start(sessions), steps) && x < |After(host, lib, Start(sessions), steps).txns|
    ensures var s := After(host, lib, Start(sessions), steps);
            s.txns[x].status.Running? <==> exists i :: 0 <= i < |s.sessions| && s.sessions[i].phase == Storing(x)
  {
    Reachable(host, lib, sessions, []);
    Reachable(host, lib, sessions, steps);
    RunningRun(host, lib, Start(sessions), steps);
  }

  /** In the middle of a poll the poller always has a next step, whatever the sessions do. */
  lemma PollIsNeverStuck(host: string, lib: Library, sessions: nat, steps: seq<Step>)
    requires Runs(host, lib, Start(sessions), steps)
    ensures var s := After(host, lib, Start(sessions), steps);
            !s.pc.Idle? ==> exists step :: ByPoller(step) && Enabled(s, step)
  {
    Reachable(host, lib, sessions, steps);
    var s := After(host, lib, Start(sessions), steps);
    match s.pc {
      case Idle =>
      case Working(rest) =>
        var step := if rest == [] then EndPoll else LookupFails;
        assert ByPoller(step) && Enabled(s, step);
      case Sending(f, todo, _) =>
        assert Queue(s.pc)[0] == f;
        var step := if todo == [] then Save(true) else SendOne;
        assert ByPoller(step) && Enabled(s, step);
    }
  }

  /** The places of the DATA commands in a run. */
  ghost function DataSteps(steps: seq<Step>): (places: seq<nat>)
    ensures forall x | 0 <= x < |places| :: places[x] < |steps| && steps[places[x]].BeginData?
  {
    if steps == [] then []
    else
      var n := |steps| - 1;
      DataSteps(steps[..n]) + if steps[n].BeginData? then [n] else []
  }

  lemma {:induction false} DemandedAt(host: string, steps: seq<Step>)
    ensures |Demanded(host, steps)| == |DataSteps(steps)|
    ensures forall x | 0 <= x < |DataSteps(steps)| ::
              var p := DataSteps(steps)[x];
              Demanded(host, steps)[x] ==
                ContentsFor(SenderOf(steps[..p], steps[p].i), RecipientsOf(host, steps[..p], steps[p].i), steps[p].text)
  {
    if steps != [] {
      var front := steps[..|steps| - 1];
      DemandedAt(host, front);
      forall p | 0 <= p < |front|
        ensures front[..p] == steps[..p]
      {
      }
    }
  }

  /** How many rows before row k have the same origin. */
  ghost function Rank(t: Table, k: nat): nat
    requires k < |t.rows| == |t.origins|
  {
    |From(t, t.origins[k], k)|
  }

  lemma {:induction false} FromAt(t: Table, k: nat, n: nat)
    requires k < n <= |t.rows| == |t.origins|
    ensures var rows := From(t, t.origins[k], n); Rank(t, k) < |rows| && rows[Rank(t, k)] == ContentOf(t.rows[k])
  {
    if k < n - 1 {
      FromAt(t, k, n - 1);
    }
  }

  /** Row by row: each is addressed to the recipient whose turn it was, and carries the sender of its
      session and the subject and body of the text of the DATA command it came from. */
  lemma RowsAreAsAsked(host: string, lib: Library, sessions: nat, steps: seq<Step>, k: nat)
    requires Runs(host, lib, Start(sessions), steps)
    requires k < |After(host, lib, Start(sessions), steps).table.rows|
    ensures var t := After(host, lib, Start(sessions), steps).table;
            && |t.origins| == |t.rows| && t.origins[k] < |DataSteps(steps)|
            && var p := DataSteps(steps)[t.origins[k]];
               var i, asked := steps[p].i, RecipientsOf(host, steps[..p], steps[p].i);
               && Rank(t, k) < |asked| && t.rows[k].to == asked[Rank(t, k)]
               && t.rows[k].sender == SenderOf(steps[..p], i)
               && t.rows[k].subject == MailText.ExtractSubject(steps[p].text)
               && t.rows[k].body == MailText.ExtractBody(steps[p].text)
  {
    MailIsConserved(host, lib, sessions, steps);
    var s := After(host, lib, Start(sessions), steps);
    var x := s.table.origins[k];
    DemandedAt(host, steps);
    FromAt(s.table, k, |s.table.rows|);
    var rows := From(s.table, x, |s.table.rows|);
    assert rows <= Demanded(host, steps)[x];
    assert rows[Rank(s.table, k)] == Demanded(host, steps)[x][Rank(s.table, k)];
  }

  /** A later table: the old rows are still there, with the same origin and content, and what was
      processed still is. */
  ghost predicate Extends(t: Table, t': Table) {
    && |t.rows| == |t.origins| <= |t'.rows| == |t'.origins|
    && forall k | 0 <= k < |t.rows| ::
         && t'.origins[k] == t.origins[k]
         && ContentOf(t'.rows[k]) == ContentOf(t.rows[k])
         && t'.rows[k].createdAt == t.rows[k].createdAt
         && (t.rows[k].processed ==> t'.rows[k].processed)
  }

  lemma {:induction false} RowsKeepTheirOrigin(host: string, lib: Library, s: State, steps: seq<Step>)
    requires Inv(host, lib, s) && Runs(host, lib, s, steps)
    ensures Extends(s.table, After(host, lib, s, steps).table)
    decreases |steps|
  {
    if steps != [] {
      var s' := Apply(host, lib, s, steps[0]);
      InvStep(host, lib, s, steps[0]);
      TableExtends(host, lib, s, steps[0]);
      RowsKeepTheirOrigin(host, lib, s', steps[1..]);
    }
  }

  lemma TableExtends(host: string, lib: Library, s: State, step: Step)
    requires Inv(host, lib, s) && Enabled(s, step)
    ensures Extends(s.table, Apply(host, lib, s, step).table)
  {
    var s' := Apply(host, lib, s, step);
    if step.Save? {
      assert Queue(s.pc)[0] == s.pc.f;
      SaveExtends(s.table, s.pc.f);
    } else {
      assert s'.table == s.table || (step.Create? && s'.table.rows[..|s.table.rows|] == s.table.rows
                                     && s'.table.origins[..|s.table.rows|] == s.table.origins);
      PrefixExtends(s.table, s'.table);
    }
  }

  lemma SaveExtends(t: Table, f: Fetched)
    requires |t.rows| == |t.origins| && f.id < |t.rows| && t.rows[f.id] == f.row
    ensures Extends(t, t.(rows := t.rows[f.id := f.row.(processed := true)]))
    ensures Extends(t, t)
  {
  }

  lemma PrefixExtends(t: Table, t': Table)
    requires |t.rows| == |t.origins| <= |t'.rows| == |t'.origins|
    requires t'.rows[..|t.rows|] == t.rows && t'.origins[..|t.rows|] == t.origins
    ensures Extends(t, t')
  {
    forall k | 0 <= k < |t.rows|
      ensures t'.rows[k] == t.rows[k] && t'.origins[k] == t.origins[k]
    {
      assert t'.rows[..|t.rows|][k] == t.rows[k] && t'.origins[..|t.rows|][k] == t.origins[k];
    }
  }

  /** Poller accounting over every run with failures: for each message the rounds whose lookup
      succeeded are its failed saves, plus one if it is processed, plus the one under way; and the
      HTTP attempts are exactly those that the rounds owe, in order, up to the one under way. */
  lemma PollerAccounts(host: string, lib: Library, sessions: nat, steps: seq<Step>, id: nat)
    requires Runs(host, lib, Start(sessions), steps)
    ensures var s := After(host, lib, Start(sessions), steps);
            && CountRounds(s.log.rounds, id) ==
                 Count(s.log.failedSaves, id) + (if id < |s.table.rows| && s.table.rows[id].processed then 1 else 0)
                 + (if s.pc.Sending? && s.pc.f.id == id then 1 else 0)
            && s.log.attempts + StillToSend(lib, s.pc) == AttemptsOwed(lib, s.log.rounds)
            && (!s.pc.Sending? ==> s.log.attempts == AttemptsOwed(lib, s.log.rounds))
            && (forall k | 0 <= k < |s.log.rounds| ::
                  s.log.rounds[k].id < |s.table.rows|
                  && var row := s.table.rows[s.log.rounds[k].id];
                     s.log.rounds[k].msg == Message(row.sender, row.to, row.subject, row.body))
  {
    Reachable(host, lib, sessions, steps);
    var s := After(host, lib, Start(sessions), steps);
    assert Balanced(s.table.rows, s.pc, s.log, id);
    assert s.log.attempts + [] == s.log.attempts;
  }

  /** A round owes one attempt for its row for each of its jobs that matches, has a payload and gives a
      request, in order. */
  lemma RoundOwes(lib: Library, r: Round)
    ensures exists results :: AttemptEach(lib, r.jobs, r.msg, results) && |AttemptsOfRound(lib, r)| == |results|
              && forall j | 0 <= j < |results| ::
                   AttemptsOfRound(lib, r)[j].id == r.id && AttemptsOfRound(lib, r)[j].result == results[j]
  {
    AttemptsAre(lib, r.jobs, r.msg);
    var results := SendableOf(lib, Results(lib, r.jobs, r.msg));
    assert AttemptEach(lib, r.jobs, r.msg, results);
  }

  /** The answers to the successful lookups of a run. */
  ghost function LookedUp(steps: seq<Step>): seq<seq<Job>> {
    if steps == [] then []
    else
      var last := steps[|steps| - 1];
      LookedUp(steps[..|steps| - 1]) + if last.Lookup? then [last.jobs] else []
  }

  ghost function CountSaves(steps: seq<Step>, ok: bool): nat {
    if steps == [] then 0 else CountSaves(steps[..|steps| - 1], ok) + if steps[|steps| - 1] == Save(ok) then 1 else 0
  }

  function Processed(rows: seq<Row>): nat {
    if rows == [] then 0 else Processed(rows[..|rows| - 1]) + if rows[|rows| - 1].processed then 1 else 0
  }

  lemma {:induction false} ProcessedOneMore(rows: seq<Row>, id: nat)
    requires id < |rows| && !rows[id].processed
    ensures Processed(rows[id := rows[id].(processed := true)]) == Processed(rows) + 1
  {
    var n := |rows| - 1;
    var rows' := rows[id := rows[id].(processed := true)];
    if id < n {
      ProcessedOneMore(rows[..n], id);
      assert rows'[..n] == rows[..n][id := rows[id].(processed := true)];
    } else {
      assert rows'[..n] == rows[..n];
    }
  }

  /** The log and the marks follow the steps of the run: one round for each successful lookup, with its
      jobs; one failed save and one mark for each save that failed and each that succeeded. */
  lemma {:induction false} LogFollowsSteps(host: string, lib: Library, sessions: nat, steps: seq<Step>)
    requires Runs(host, lib, Start(sessions), steps)
    ensures var s := After(host, lib, Start(sessions), steps);
            && |s.log.rounds| == |LookedUp(steps)|
            && (forall k | 0 <= k < |s.log.rounds| :: s.log.rounds[k].jobs == LookedUp(steps)[k])
            && |s.log.failedSaves| == CountSaves(steps, false)
            && Processed(s.table.rows) == CountSaves(steps, true)
    decreases |steps|
  {
    if steps != [] {
      var front, last := steps[..|steps| - 1], steps[|steps| - 1];
      LastStep(host, lib, Start(sessions), steps);
      LogFollowsSteps(host, lib, sessions, front);
      Reachable(host, lib, sessions, front);
      var s := After(host, lib, Start(sessions), front);
      LogStep(host, lib, s, last);
    }
  }

  lemma LogStep(host: string, lib: Library, s: State, step: Step)
    requires Inv(host, lib, s) && Enabled(s, step)
    ensures var s' := Apply(host, lib, s, step);
            && |s'.log.rounds| == |s.log.rounds| + (if step.Lookup? then 1 else 0)
            && (forall k | 0 <= k < |s.log.rounds| :: s'.log.rounds[k] == s.log.rounds[k])
            && (step.Lookup? ==> s'.log.rounds[|s.log.rounds|].jobs == step.jobs)
            && |s'.log.failedSaves| == |s.log.failedSaves| + (if step == Save(false) then 1 else 0)
            && Processed(s'.table.rows) == Processed(s.table.rows) + (if step == Save(true) then 1 else 0)
  {
    var rows, rows' := s.table.rows, Apply(host, lib, s, step).table.rows;
    if step == Save(true) {
      assert Queue(s.pc)[0] == s.pc.f;
      ProcessedOneMore(rows, s.pc.f.id);
    } else if step.Create? && step.ok {
      assert rows'[..|rows|] == rows;
    } else {
      assert rows' == rows;
    }
  }

  /** The results attempted for one message. */
  ghost function AttemptsFor(attempts: seq<Attempt>, id: nat): seq<ProcessResult> {
    if attempts == [] then []
    else
      var first := if attempts[0].id == id then [attempts[0].result] else [];
      first + AttemptsFor(attempts[1..], id)
  }

  lemma {:induction false} AttemptsForAdds(a: seq<Attempt>, b: seq<Attempt>, id: nat)
    ensures AttemptsFor(a + b, id) == AttemptsFor(a, id) + AttemptsFor(b, id)
  {
    if a == [] {
      assert a + b == b;
    } else {
      assert (a + b)[1..] == a[1..] + b;
      AttemptsForAdds(a[1..], b, id);
      var first := if a[0].id == id then [a[0].result] else [];
      Regroup(first, AttemptsFor(a[1..], id), AttemptsFor(b, id));
    }
  }

  lemma {:induction false} AttemptsForTagged(results: seq<ProcessResult>, id: nat, id': nat)
    ensures AttemptsFor(Tagged(id', results), id) == if id == id' then results else []
  {
    if results != [] {
      assert Tagged(id', results)[1..] == Tagged(id', results[1..]);
      AttemptsForTagged(results[1..], id, id');
    }
  }

  lemma AttemptsWithRound(lib: Library, rounds: seq<Round>, last: Round, id: nat)
    ensures AttemptsFor(AttemptsOwed(lib, rounds) + AttemptsOfRound(lib, last), id) ==
              AttemptsFor(AttemptsOwed(lib, rounds), id)
              + if last.id == id then SendableOf(lib, Results(lib, last.jobs, last.msg)) else []
  {
    AttemptsForAdds(AttemptsOwed(lib, rounds), AttemptsOfRound(lib, last), id);
    AttemptsForTagged(SendableOf(lib, Results(lib, last.jobs, last.msg)), id, last.id);
  }

  /** A message with no round was never attempted; one with a single round was attempted as that
      round says. */
  lemma {:induction false} AttemptsOfSingleRound(lib: Library, rounds: seq<Round>, id: nat)
    requires CountRounds(rounds, id) <= 1
    ensures CountRounds(rounds, id) == 0 ==> AttemptsFor(AttemptsOwed(lib, rounds), id) == []
    ensures CountRounds(rounds, id) == 1 ==>
              exists k :: 0 <= k < |rounds| && rounds[k].id == id &&
                AttemptsFor(AttemptsOwed(lib, rounds), id)
                == SendableOf(lib, Results(lib, rounds[k].jobs, rounds[k].msg))
  {
    if rounds != [] {
      var front, last := rounds[..|rounds| - 1], rounds[|rounds| - 1];
      AttemptsOfSingleRound(lib, front, id);
      AttemptsWithRound(lib, front, last, id);
      assert AttemptsOwed(lib, rounds) == AttemptsOwed(lib, front) + AttemptsOfRound(lib, last);
      if last.id == id {
        assert rounds[|rounds| - 1].id == id;
      } else if CountRounds(rounds, id) == 1 {
        var k :| 0 <= k < |front| && front[k].id == id &&
          AttemptsFor(AttemptsOwed(lib, front), id) == SendableOf(lib, Results(lib, front[k].jobs, front[k].msg));
        assert rounds[k] == front[k];
      }
    }
  }

  /** A processed message none of whose saves failed was looked up successfully in exactly one round,
      and its attempts are exactly one for each job of that round that can be sent. */
  lemma ExactlyOnceWithoutFailedSaves(host: string, lib: Library, sessions: nat, steps: seq<Step>, id: nat)
    requires Runs(host, lib, Start(sessions), steps)
    ensures var s := After(host, lib, Start(sessions), steps);
            id < |s.table.rows| && s.table.rows[id].processed && Count(s.log.failedSaves, id) == 0 && !s.pc.Sending? ==>
              && CountRounds(s.log.rounds, id) == 1
              && exists k :: 0 <= k < |s.log.rounds| && s.log.rounds[k].id == id
                   && var row := s.table.rows[id];
                      AttemptEach(lib, s.log.rounds[k].jobs, Message(row.sender, row.to, row.subject, row.body),
                                  AttemptsFor(s.log.attempts, id))
  {
    PollerAccounts(host, lib, sessions, steps, id);
    var s := After(host, lib, Start(sessions), steps);
    if id < |s.table.rows| && s.table.rows[id].processed && Count(s.log.failedSaves, id) == 0 && !s.pc.Sending? {
      AttemptsOfSingleRound(lib, s.log.rounds, id);
      var k :| 0 <= k < |s.log.rounds| && s.log.rounds[k].id == id &&
        AttemptsFor(AttemptsOwed(lib, s.log.rounds), id)
        == SendableOf(lib, Results(lib, s.log.rounds[k].jobs, s.log.rounds[k].msg));
      AttemptsAre(lib, s.log.rounds[k].jobs, s.log.rounds[k].msg);
    }
  }

  function CountJob(results: seq<ProcessResult>, jobId: int): nat {
    if results == [] then 0 else (if results[0].jobId == jobId then 1 else 0) + CountJob(results[1..], jobId)
  }

  /** In a round over jobs with different ids, a job is attempted once if it matches the sender, its
      payload is generated and its request can be built, and otherwise not at all. */
  lemma {:induction false} OneAttemptPerJob(lib: Library, jobs: seq<Job>, msg: Message, jobId: int)
    requires forall j, k | 0 <= j < k < |jobs| :: jobs[j].id != jobs[k].id
    ensures CountJob(SendableOf(lib, Results(lib, jobs, msg)), jobId) ==
              if exists j :: j in jobs && j.id == jobId && lib.matches(j.fromRegex, msg.sender)
                             && lib.generate(j, msg).Some?
                             && lib.canBuild(ProcessResult(j.id, j.url, j.verb, j.headers, lib.generate(j, msg).value,
                                                           j.response, false))
              then 1 else 0
  {
    if jobs != [] {
      var job, rest := jobs[0], jobs[1..];
      OneAttemptPerJob(lib, rest, msg, jobId);
      var first := if lib.matches(job.fromRegex, msg.sender) then [ResultOf(lib, job, msg)] else [];
      SendableOfAdds(lib, first, Results(lib, rest, msg));
      CountJobAdds(SendableOf(lib, first), SendableOf(lib, Results(lib, rest, msg)), jobId);
      assert forall j :: j in jobs <==> j == job || j in rest;
      if job.id == jobId {
        assert forall j | j in rest :: j.id != jobId;
      }
    }
  }

  lemma {:induction false} CountJobAdds(a: seq<ProcessResult>, b: seq<ProcessResult>, jobId: int)
    ensures CountJob(a + b, jobId) == CountJob(a, jobId) + CountJob(b, jobId)
  {
    if a == [] {
      assert a + b == b;
    } else {
      assert (a + b)[1..] == a[1..] + b;
      CountJobAdds(a[1..], b, jobId);
    }
  }
}
