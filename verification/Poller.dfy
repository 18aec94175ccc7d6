/** One poll of the SMTP message poller (pkg/worker/poller.go), and what repeated polls achieve. */
module Poller {
  import opened Common
  import opened Storage
  import opened Processing
  import MailText
  import Doubles

  const BATCH_SIZE: nat := 10

  function Waiting(rows: seq<Row>): set<nat> {
    set i: nat | i < |rows| && !rows[i].processed
  }

  /** What the query returns: unprocessed rows, oldest first, at most `limit` of them, and none
      newer than an unprocessed row it left out. Ties are broken in any way. */
  ghost predicate IsBatch(rows: seq<Row>, batch: seq<nat>, limit: nat) {
    && (forall j | 0 <= j < |batch| :: batch[j] in Waiting(rows))
    && (forall j, k | 0 <= j < k < |batch| :: batch[j] != batch[k])
    && (forall j, k | 0 <= j < k < |batch| :: rows[batch[j]].createdAt <= rows[batch[k]].createdAt)
    && |batch| == (if |Waiting(rows)| < limit then |Waiting(rows)| else limit)
    && (forall j, i | 0 <= j < |batch| && i in Waiting(rows) ::
          i !in batch ==> rows[batch[j]].createdAt <= rows[i].createdAt)
  }

  /** Whatever is in the table, the query has an answer. */
  lemma BatchExists(rows: seq<Row>, limit: nat)
    ensures exists batch :: IsBatch(rows, batch, limit)
  {
    var batch := Oldest(rows, Waiting(rows), limit);
    OldestIs(rows, Waiting(rows), limit);
    assert IsBatch(rows, batch, limit);
  }

  /** Up to n of the given rows, oldest first. */
  ghost function Oldest(rows: seq<Row>, ids: set<nat>, n: nat): seq<nat>
    requires forall i | i in ids :: i < |rows|
    decreases n
  {
    if n == 0 || ids == {} then []
    else
      OldestExists(rows, ids);
      var first :| first in ids && forall i | i in ids :: rows[first].createdAt <= rows[i].createdAt;
      [first] + Oldest(rows, ids - {first}, n - 1)
  }

  lemma OldestExists(rows: seq<Row>, ids: set<nat>)
    requires ids != {} && forall i | i in ids :: i < |rows|
    ensures exists first :: first in ids && forall i | i in ids :: rows[first].createdAt <= rows[i].createdAt
    decreases ids
  {
    var k :| k in ids;
    if ids != {k} {
      var rest := ids - {k};
      assert ids == rest + {k};
      OldestExists(rows, rest);
      var first :| first in rest && forall i | i in rest :: rows[first].createdAt <= rows[i].createdAt;
      var best := if rows[k].createdAt <= rows[first].createdAt then k else first;
      assert forall i | i in ids :: i == k || i in rest;
      assert best in ids && forall i | i in ids :: rows[best].createdAt <= rows[i].createdAt;
    }
  }

  ghost predicate OldestOf(rows: seq<Row>, ids: set<nat>, n: nat, batch: seq<nat>)
    requires forall i | i in ids :: i < |rows|
  {
    && (forall j | 0 <= j < |batch| :: batch[j] in ids)
    && (forall j, k | 0 <= j < k < |batch| :: batch[j] != batch[k])
    && (forall j, k | 0 <= j < k < |batch| :: rows[batch[j]].createdAt <= rows[batch[k]].createdAt)
    && |batch| == (if |ids| < n then |ids| else n)
    && (forall j, i | 0 <= j < |batch| && i in ids :: i !in batch ==> rows[batch[j]].createdAt <= rows[i].createdAt)
  }

  lemma OneMoreOldest(rows: seq<Row>, ids: set<nat>, n: nat, first: nat, rest: seq<nat>)
    requires forall i | i in ids :: i < |rows|
    requires first in ids && forall i | i in ids :: rows[first].createdAt <= rows[i].createdAt
    requires OldestOf(rows, ids - {first}, n, rest)
    ensures OldestOf(rows, ids, n + 1, [first] + rest)
  {
    var batch := [first] + rest;
    assert forall j | 0 < j < |batch| :: batch[j] == rest[j - 1];
    assert forall i | i in ids && i !in batch :: i in ids - {first} && i !in rest;
  }

  lemma {:induction false} OldestIs(rows: seq<Row>, ids: set<nat>, n: nat)
    requires forall i | i in ids :: i < |rows|
    ensures OldestOf(rows, ids, n, Oldest(rows, ids, n))
    decreases n
  {
    if n > 0 && ids != {} {
      var batch := Oldest(rows, ids, n);
      var first := batch[0];
      OldestIs(rows, ids - {first}, n - 1);
      OneMoreOldest(rows, ids, n - 1, first, Oldest(rows, ids - {first}, n - 1));
    }
  }

  /** What the environment answers while one message is worked on. */
  datatype Answers = Answers(jobs: Option<seq<Job>>, replies: seq<Option<int>>, saveOk: bool)

  function MessageOf(row: Row): Message {
    Message(row.sender, row.to, row.subject, row.body)
  }

  function ResultsFor(lib: Library, row: Row, a: Answers): seq<ProcessResult> {
    if a.jobs.None? then [] else Results(lib, a.jobs.value, MessageOf(row))
  }

  ghost predicate Matches(lib: Library, rows: seq<Row>, batch: seq<nat>, answers: seq<Answers>) {
    && |answers| == |batch|
    && forall j | 0 <= j < |batch| ::
         batch[j] < |rows| && |answers[j].replies| == |ResultsFor(lib, rows[batch[j]], answers[j])|
  }

  predicate Succeeds(a: Answers) {
    a.jobs.Some? && a.saveOk
  }

  /** The table after the first n messages of the batch. */
  function Marked(rows: seq<Row>, batch: seq<nat>, answers: seq<Answers>, n: nat): (marked: seq<Row>)
    requires n <= |batch| == |answers|
    ensures |marked| == |rows|
  {
    if n == 0 then rows
    else
      var before := Marked(rows, batch, answers, n - 1);
      var id := batch[n - 1];
      if Succeeds(answers[n - 1]) && id < |rows| then before[id := rows[id].(processed := true)] else before
  }

  /** The HTTP attempts of the first n messages. */
  ghost function AttemptsOf(lib: Library, rows: seq<Row>, batch: seq<nat>, answers: seq<Answers>, n: nat)
    : seq<ProcessResult>
    requires n <= |batch| == |answers| && forall j | 0 <= j < n :: batch[j] < |rows|
  {
    if n == 0 then []
    else
      var now := SendableOf(lib, ResultsFor(lib, rows[batch[n - 1]], answers[n - 1]));
      AttemptsOf(lib, rows, batch, answers, n - 1) + now
  }

  /** The auto-replies for one message: to its sender, for each answered webhook with a reply text. */
  function RepliesTo(address: string, row: Row, webhooks: seq<WebhookResult>): seq<string> {
    if webhooks == [] then []
    else
      var w := webhooks[0];
      var mail := if !w.failed && w.response != "" then
                    [MailText.Printed(address, row.sender, row.subject, w.response)] else [];
      mail + RepliesTo(address, row, webhooks[1..])
  }

  ghost function MailsOf(lib: Library, address: string, rows: seq<Row>, batch: seq<nat>, answers: seq<Answers>, n: nat)
    : seq<string>
    requires n <= |batch| == |answers| && Matches(lib, rows, batch, answers)
  {
    if n == 0 then []
    else
      var row, a := rows[batch[n - 1]], answers[n - 1];
      MailsOf(lib, address, rows, batch, answers, n - 1)
      + RepliesTo(address, row, Processing.Answers(lib, ResultsFor(lib, row, a), a.replies))
  }

  /** Everything a poll changes: the table, the HTTP attempts made, the replies handed over. */
  datatype Effects = Effects(rows: seq<Row>, attempts: seq<ProcessResult>, mails: seq<string>)

  /** What working on one fetched message does. */
  function OneMessage(lib: Library, address: string, e: Effects, id: nat, row: Row, a: Answers): (after: Effects)
    requires |a.replies| == |ResultsFor(lib, row, a)|
    ensures |after.rows| == |e.rows|
  {
    var results := ResultsFor(lib, row, a);
    Effects(if Succeeds(a) && id < |e.rows| then e.rows[id := row.(processed := true)] else e.rows,
            e.attempts + SendableOf(lib, results),
            e.mails + RepliesTo(address, row, Processing.Answers(lib, results, a.replies)))
  }

  /** What working on the first n messages of the batch does. */
  ghost function Polled(lib: Library, address: string, e: Effects, batch: seq<nat>, answers: seq<Answers>, n: nat)
    : (after: Effects)
    requires n <= |batch| && Matches(lib, e.rows, batch, answers)
    ensures |after.rows| == |e.rows|
  {
    if n == 0 then e
    else OneMessage(lib, address, Polled(lib, address, e, batch, answers, n - 1),
                    batch[n - 1], e.rows[batch[n - 1]], answers[n - 1])
  }

  lemma NextMessage(lib: Library, address: string, e: Effects, batch: seq<nat>, answers: seq<Answers>, n: nat,
                    now: Effects)
    requires n < |batch| && Matches(lib, e.rows, batch, answers) && now == Polled(lib, address, e, batch, answers, n)
    ensures var id, a := batch[n], answers[n];
            && id < |e.rows| == |now.rows| && |a.replies| == |ResultsFor(lib, e.rows[id], a)|
            && Polled(lib, address, e, batch, answers, n + 1) == OneMessage(lib, address, now, id, e.rows[id], a)
  {
  }

  /** Read off one by one: the marks, the attempts and the replies of a poll. */
  lemma {:induction false} PolledIs(lib: Library, address: string, e: Effects, batch: seq<nat>,
                                    answers: seq<Answers>, n: nat)
    requires n <= |batch| && Matches(lib, e.rows, batch, answers)
    ensures var after := Polled(lib, address, e, batch, answers, n);
            && after.rows == Marked(e.rows, batch, answers, n)
            && after.attempts == e.attempts + AttemptsOf(lib, e.rows, batch, answers, n)
            && after.mails == e.mails + MailsOf(lib, address, e.rows, batch, answers, n)
  {
    if n > 0 {
      PolledIs(lib, address, e, batch, answers, n - 1);
      var row, a := e.rows[batch[n - 1]], answers[n - 1];
      var results := ResultsFor(lib, row, a);
      Regroup(e.attempts, AttemptsOf(lib, e.rows, batch, answers, n - 1), SendableOf(lib, results));
      Regroup(e.mails, MailsOf(lib, address, e.rows, batch, answers, n - 1),
              RepliesTo(address, row, Processing.Answers(lib, results, a.replies)));
    }
  }

  // ------------------------------------------------------------------ what the poll of each message does

  /** One auto-reply for each result without an error whose request was built and answered and whose job
      has a reply text: that text, to the sender of the message, about its subject. */
  ghost predicate ReplyEach(lib: Library, address: string, row: Row, results: seq<ProcessResult>,
                            replies: seq<Option<int>>, mails: seq<string>)
  {
    && |replies| == |results|
    && OneEach(Zip(results, replies),
               (p: (ProcessResult, Option<int>)) =>
                 !p.0.failed && lib.canBuild(p.0) && p.1.Some? && p.0.response != "",
               (p: (ProcessResult, Option<int>)) =>
                 MailText.Printed(address, row.sender, row.subject, p.0.response),
               mails)
  }

  lemma {:induction false} RepliesAre(lib: Library, address: string, row: Row, results: seq<ProcessResult>,
                                      replies: seq<Option<int>>)
    requires |replies| == |results|
    ensures ReplyEach(lib, address, row, results, replies,
                      RepliesTo(address, row, Processing.Answers(lib, results, replies)))
    decreases |results|
  {
    var good := (p: (ProcessResult, Option<int>)) =>
                  !p.0.failed && lib.canBuild(p.0) && p.1.Some? && p.0.response != "";
    var f := (p: (ProcessResult, Option<int>)) => MailText.Printed(address, row.sender, row.subject, p.0.response);
    if results == [] {
      OneEachOfNone(good, f);
      assert Zip(results, replies) == [];
    } else {
      var rest := RepliesTo(address, row, Processing.Answers(lib, results[1..], replies[1..]));
      RepliesAre(lib, address, row, results[1..], replies[1..]);
      OneMoreInFront((results[0], replies[0]), Zip(results[1..], replies[1..]), good, f, rest);
      ZipTail(results, replies);
      AnswersTail(lib, results, replies);
    }
  }

  lemma AnswersTail(lib: Library, results: seq<ProcessResult>, replies: seq<Option<int>>)
    requires |replies| == |results| && results != []
    ensures Processing.Answers(lib, results, replies)[1..] == Processing.Answers(lib, results[1..], replies[1..])
  {
  }

  /** What is done for one fetched message: nothing when the lookup fails; otherwise the attempts and the
      replies of its jobs. */
  ghost predicate MessageDone(lib: Library, address: string, row: Row, a: Answers, attempts: seq<ProcessResult>,
                              mails: seq<string>)
  {
    match a.jobs
    case None => attempts == [] && mails == []
    case Some(jobs) =>
      var msg := Message(row.sender, row.to, row.subject, row.body);
      && AttemptEach(lib, jobs, msg, attempts)
      && exists results ::
           ResultEach(lib, jobs, msg, results) && ReplyEach(lib, address, row, results, a.replies, mails)
  }

  lemma MessageIsDone(lib: Library, address: string, row: Row, a: Answers)
    requires |a.replies| == |ResultsFor(lib, row, a)|
    ensures MessageDone(lib, address, row, a, Sent(lib, row, a), Replied(lib, address, row, a))
  {
    if a.jobs.Some? {
      var msg := MessageOf(row);
      AttemptsAre(lib, a.jobs.value, msg);
      ResultsAre(lib, a.jobs.value, msg);
      RepliesAre(lib, address, row, ResultsFor(lib, row, a), a.replies);
    }
  }

  /** The attempts and mails of the first n messages are those of each of them, one message after the other. */
  ghost predicate DoneInTurn(lib: Library, address: string, rows: seq<Row>, batch: seq<nat>, answers: seq<Answers>,
                             n: nat, attempts: seq<ProcessResult>, mails: seq<string>)
  {
    InTurns(n, attempts, mails,
            (k: nat, sent: seq<ProcessResult>, replied: seq<string>) =>
              k < |batch| && k < |answers| && batch[k] < |rows|
              && MessageDone(lib, address, rows[batch[k]], answers[k], sent, replied))
  }

  lemma PollIsDoneInTurn(lib: Library, address: string, rows: seq<Row>, batch: seq<nat>, answers: seq<Answers>, n: nat)
    requires n <= |batch| && Matches(lib, rows, batch, answers)
    ensures DoneInTurn(lib, address, rows, batch, answers, n, AttemptsOf(lib, rows, batch, answers, n),
                       MailsOf(lib, address, rows, batch, answers, n))
  {
    var done := (k: nat, sent: seq<ProcessResult>, replied: seq<string>) =>
                  k < |batch| && k < |answers| && batch[k] < |rows|
                  && MessageDone(lib, address, rows[batch[k]], answers[k], sent, replied);
    forall k: nat | k < n
      ensures batch[k] < |rows|
      ensures done(k, Sent(lib, rows[batch[k]], answers[k]), Replied(lib, address, rows[batch[k]], answers[k]))
    {
      MessageIsDone(lib, address, rows[batch[k]], answers[k]);
    }
    PollInTurns(lib, address, rows, batch, answers, n, done);
  }

  ghost function Sent(lib: Library, row: Row, a: Answers): seq<ProcessResult> {
    SendableOf(lib, ResultsFor(lib, row, a))
  }

  ghost function Replied(lib: Library, address: string, row: Row, a: Answers): seq<string> {
    var results := ResultsFor(lib, row, a);
    if |a.replies| == |results| then RepliesTo(address, row, Processing.Answers(lib, results, a.replies)) else []
  }

  lemma {:induction false} PollInTurns(lib: Library, address: string, rows: seq<Row>, batch: seq<nat>,
                                       answers: seq<Answers>, n: nat,
                                       done: (nat, seq<ProcessResult>, seq<string>) -> bool)
    requires n <= |batch| && Matches(lib, rows, batch, answers)
    requires forall k: nat | k < n ::
               batch[k] < |rows|
               && done(k, Sent(lib, rows[batch[k]], answers[k]), Replied(lib, address, rows[batch[k]], answers[k]))
    ensures InTurns(n, AttemptsOf(lib, rows, batch, answers, n), MailsOf(lib, address, rows, batch, answers, n), done)
  {
    if n > 0 {
      PollInTurns(lib, address, rows, batch, answers, n - 1, done);
      var row, a := rows[batch[n - 1]], answers[n - 1];
      OneMoreTurn(n - 1, AttemptsOf(lib, rows, batch, answers, n - 1),
                  MailsOf(lib, address, rows, batch, answers, n - 1), done,
                  Sent(lib, row, a), Replied(lib, address, row, a));
    }
  }

  class SMTPMessagePoller {
    const lib: Library
    const db: Database
    const client: HttpClient
    const fromAddress: string
    var mails: seq<string> // handed to the mail server

    constructor (lib: Library, db: Database, client: HttpClient, fromAddress: string)
      ensures this.lib == lib && this.db == db && this.client == client && this.fromAddress == fromAddress
      ensures mails == []
    {
      this.lib, this.db, this.client, this.fromAddress, mails := lib, db, client, fromAddress, [];
    }

    function State(): Effects
      reads this, db, client
    {
      Effects(db.rows, client.attempts, mails)
    }

    /** The loop over the webhook results. */
    method SendReplies(row: Row, webhooks: seq<WebhookResult>)
      modifies this`mails
      ensures mails == old(mails) + RepliesTo(fromAddress, row, webhooks)
    {
      for n := 0 to |webhooks|
        invariant mails + RepliesTo(fromAddress, row, webhooks[n..])
               == old(mails) + RepliesTo(fromAddress, row, webhooks)
      {
        var result := webhooks[n];
        assert webhooks[n..][1..] == webhooks[n + 1..];
        if result.failed {
          continue;
        } else if result.response != "" {
          var mail := MailText.SendReply(fromAddress, row.sender, row.subject, result.response);
          if mail.Reply? {
            mails := mails + [mail.text];
          }
        }
      }
    }

    /** The body of the loop over the fetched messages. */
    method ProcessOne(id: nat, row: Row, a: Answers)
      requires id < |db.rows| && |a.replies| == |ResultsFor(lib, row, a)|
      modifies this`mails, db, client
      ensures State() == OneMessage(lib, fromAddress, old(State()), id, row, a)
    {
      var smtpMsg := row;
      var msg := Message(smtpMsg.sender, smtpMsg.to, smtpMsg.subject, smtpMsg.body);
      var results := ProcessMessage(lib, msg, a.jobs);
      if results.None? {
        return;
      }
      if |results.value| > 0 {
        var webhooks := SendWebhooks(lib, client, results.value, a.replies);
        SendReplies(smtpMsg, webhooks);
      }
      smtpMsg := smtpMsg.(processed := true);
      var saved := db.Save(id, smtpMsg, a.saveOk);
    }

    /** One poll over the fetched batch: every message of it is looked up once, its sendable results
        are attempted once each, and it is marked when lookup and save both succeed. */
    method PollAndProcess(batch: seq<nat>, answers: seq<Answers>)
      requires IsBatch(db.rows, batch, BATCH_SIZE) && Matches(lib, db.rows, batch, answers)
      modifies this`mails, db, client
      ensures db.rows == Marked(old(db.rows), batch, answers, |batch|)
      ensures client.attempts == old(client.attempts) + AttemptsOf(lib, old(db.rows), batch, answers, |batch|)
      ensures mails == old(mails) + MailsOf(lib, fromAddress, old(db.rows), batch, answers, |batch|)
      ensures DoneInTurn(lib, fromAddress, old(db.rows), batch, answers, |batch|,
                         client.attempts[|old(client.attempts)|..], mails[|old(mails)|..])
    {
      var messages := Find(batch);
      PollIsDoneInTurn(lib, fromAddress, db.rows, batch, answers, |batch|);
      PolledIs(lib, fromAddress, State(), batch, answers, |batch|);
      ProcessAll(batch, messages, answers);
    }

    /** The query, with its answer given as row ids. */
    method Find(batch: seq<nat>) returns (messages: seq<Row>)
      requires forall j | 0 <= j < |batch| :: batch[j] < |db.rows|
      ensures |messages| == |batch| && forall j | 0 <= j < |batch| :: messages[j] == db.rows[batch[j]]
    {
      messages := [];
      for n := 0 to |batch|
        invariant |messages| == n && forall j | 0 <= j < n :: messages[j] == db.rows[batch[j]]
      {
        messages := messages + [db.rows[batch[n]]];
      }
    }

    /** The loop over the fetched messages. */
    method ProcessAll(batch: seq<nat>, messages: seq<Row>, answers: seq<Answers>)
      requires Matches(lib, db.rows, batch, answers)
      requires |messages| == |batch| && forall j | 0 <= j < |batch| :: messages[j] == db.rows[batch[j]]
      modifies this`mails, db, client
      ensures State() == Polled(lib, fromAddress, old(State()), batch, answers, |batch|)
    {
      ghost var start, now := State(), State();
      for n := 0 to |batch|
        invariant State() == now == Polled(lib, fromAddress, start, batch, answers, n)
      {
        var id, smtpMsg, a := batch[n], messages[n], answers[n];
        NextMessage(lib, fromAddress, start, batch, answers, n, now);
        ProcessOne(id, smtpMsg, a);
        now := OneMessage(lib, fromAddress, now, id, smtpMsg, a);
      }
    }
  }

  // ------------------------------------------------------------------ what one poll marks

  /** Row i is among the first n messages of the batch, and its lookup and save succeeded. */
  predicate Successful(batch: seq<nat>, answers: seq<Answers>, n: nat, i: nat)
    requires n <= |batch| == |answers|
  {
    exists j :: 0 <= j < n && batch[j] == i && answers[j].jobs.Some? && answers[j].saveOk
  }

  /** A poll changes nothing but the mark, and marks exactly the messages of the batch whose lookup
      and save both succeeded. */
  lemma {:induction false} MarkedIs(rows: seq<Row>, batch: seq<nat>, answers: seq<Answers>, n: nat)
    requires n <= |batch| == |answers|
    requires forall j | 0 <= j < |batch| :: batch[j] in Waiting(rows)
    requires forall j, k | 0 <= j < k < |batch| :: batch[j] != batch[k]
    ensures var marked := Marked(rows, batch, answers, n);
            forall i | 0 <= i < |rows| ::
              marked[i] == rows[i].(processed := rows[i].processed || Successful(batch, answers, n, i))
  {
    if n > 0 {
      MarkedIs(rows, batch, answers, n - 1);
      var marked := Marked(rows, batch, answers, n);
      var before := Marked(rows, batch, answers, n - 1);
      forall i | 0 <= i < |rows|
        ensures marked[i] == rows[i].(processed := rows[i].processed || Successful(batch, answers, n, i))
      {
        if i == batch[n - 1] && Succeeds(answers[n - 1]) {
          assert 0 <= n - 1 < n && batch[n - 1] == i && Succeeds(answers[n - 1]);
        } else {
          assert marked[i] == before[i];
        }
      }
    }
  }

  ghost predicate NoFailures(answers: seq<Answers>) {
    forall a | a in answers :: Succeeds(a)
  }

  /** Without failures a poll marks min(10, n) of n waiting messages: its batch. */
  lemma FailureFreePoll(rows: seq<Row>, batch: seq<nat>, answers: seq<Answers>)
    requires IsBatch(rows, batch, BATCH_SIZE) && |answers| == |batch| && NoFailures(answers)
    ensures var marked := Marked(rows, batch, answers, |batch|);
            && Waiting(marked) == Waiting(rows) - Elems(batch)
            && |Waiting(marked)| == (if |Waiting(rows)| <= 10 then 0 else |Waiting(rows)| - 10)
  {
    var marked := Marked(rows, batch, answers, |batch|);
    MarkedIs(rows, batch, answers, |batch|);
    forall i | 0 <= i < |rows|
      ensures marked[i].processed <==> rows[i].processed || i in batch
    {
      if i in batch {
        var j :| 0 <= j < |batch| && batch[j] == i;
        assert answers[j] in answers;
      }
    }
    assert Waiting(marked) == Waiting(rows) - Elems(batch);
    DistinctCount(batch);
    assert Elems(batch) <= Waiting(rows);
  }

  /** With failures a poll makes progress exactly when some message of its batch has lookup and save
      both succeed. */
  lemma PollProgress(rows: seq<Row>, batch: seq<nat>, answers: seq<Answers>)
    requires IsBatch(rows, batch, BATCH_SIZE) && |answers| == |batch|
    ensures Marked(rows, batch, answers, |batch|) != rows <==>
            exists j :: 0 <= j < |batch| && answers[j].jobs.Some? && answers[j].saveOk
  {
    var marked := Marked(rows, batch, answers, |batch|);
    MarkedIs(rows, batch, answers, |batch|);
    if j :| 0 <= j < |batch| && Succeeds(answers[j]) {
      assert batch[j] in Waiting(rows) && marked[batch[j]].processed;
    } else {
      assert marked == rows;
    }
  }

  // ------------------------------------------------------------------ repeated polls of a quiet queue

  /** The tables seen between failure-free polls while no mail arrives. */
  ghost predicate QuietPolls(tables: seq<seq<Row>>) {
    && tables != []
    && forall k | 0 < k < |tables| :: FailureFreeStep(tables[k - 1], tables[k])
  }

  ghost predicate FailureFreeStep(rows: seq<Row>, rows': seq<Row>) {
    exists batch, answers ::
      && IsBatch(rows, batch, BATCH_SIZE) && |answers| == |batch| && NoFailures(answers)
      && rows' == Marked(rows, batch, answers, |batch|)
  }

  lemma {:induction false} QuietQueueCount(tables: seq<seq<Row>>, k: nat)
    requires QuietPolls(tables) && k < |tables|
    ensures |Waiting(tables[k])| == var n := |Waiting(tables[0])|; if n <= k * BATCH_SIZE then 0 else n - k * BATCH_SIZE
  {
    if k > 0 {
      QuietQueueCount(tables, k - 1);
      assert FailureFreeStep(tables[k - 1], tables[k]);
      var batch, answers :| IsBatch(tables[k - 1], batch, BATCH_SIZE) && |answers| == |batch| && NoFailures(answers)
                            && tables[k] == Marked(tables[k - 1], batch, answers, |batch|);
      FailureFreePoll(tables[k - 1], batch, answers);
    }
  }

  /** A quiet queue of n messages is drained by its ceil(n/10)-th poll and by no earlier one. */
  lemma QuietQueueDrains(tables: seq<seq<Row>>, k: nat)
    requires QuietPolls(tables) && k < |tables|
    ensures Waiting(tables[k]) == {} <==> k >= Doubles.CeilDiv(|Waiting(tables[0])|, 10)
  {
    QuietQueueCount(tables, k);
    var n := |Waiting(tables[0])|;
    Doubles.CeilDivIs(n, BATCH_SIZE);
    assert |Waiting(tables[k])| == 0 <==> n <= k * BATCH_SIZE;
  }

  // ------------------------------------------------------------------ oldest first

  /** No processed message is newer than an unprocessed one. */
  ghost predicate OldestFirst(rows: seq<Row>) {
    forall i, j | 0 <= i < |rows| && 0 <= j < |rows| && rows[i].processed && !rows[j].processed ::
      rows[i].createdAt <= rows[j].createdAt
  }

  /** No failed message of the batch is older than a marked one. */
  predicate FailsOnNewest(rows: seq<Row>, batch: seq<nat>, answers: seq<Answers>)
    requires |answers| == |batch| && forall j | 0 <= j < |batch| :: batch[j] < |rows|
  {
    forall j, k | 0 <= j < |batch| && 0 <= k < |batch| && !Succeeds(answers[j]) && Succeeds(answers[k]) ::
      rows[batch[k]].createdAt <= rows[batch[j]].createdAt
  }

  /** A poll, with whatever failures, leaves the table oldest first if and only if it fails on no message
      that is older than one it marks. */
  lemma PollKeepsOrder(rows: seq<Row>, batch: seq<nat>, answers: seq<Answers>)
    requires OldestFirst(rows) && IsBatch(rows, batch, BATCH_SIZE) && |answers| == |batch|
    ensures OldestFirst(Marked(rows, batch, answers, |batch|)) <==> FailsOnNewest(rows, batch, answers)
  {
    var marked := Marked(rows, batch, answers, |batch|);
    MarkedIs(rows, batch, answers, |batch|);
    forall j | 0 <= j < |batch|
      ensures marked[batch[j]] == rows[batch[j]].(processed := Succeeds(answers[j]))
    {
      assert batch[j] in Waiting(rows);
    }
    if FailsOnNewest(rows, batch, answers) {
      forall x, y | 0 <= x < |rows| && 0 <= y < |rows| && marked[x].processed && !marked[y].processed
        ensures rows[x].createdAt <= rows[y].createdAt
      {
        LeftIsNewer(rows, batch, answers, x, y);
      }
    }
  }

  /** Of what a poll marks, or finds marked, and what it leaves. */
  lemma LeftIsNewer(rows: seq<Row>, batch: seq<nat>, answers: seq<Answers>, x: nat, y: nat)
    requires OldestFirst(rows) && IsBatch(rows, batch, BATCH_SIZE) && |answers| == |batch|
    requires FailsOnNewest(rows, batch, answers)
    requires x < |rows| && y < |rows| && !rows[y].processed
    requires rows[x].processed || Successful(batch, answers, |batch|, x)
    requires !Successful(batch, answers, |batch|, y)
    ensures rows[x].createdAt <= rows[y].createdAt
  {
    if !rows[x].processed {
      var k :| 0 <= k < |batch| && batch[k] == x && Succeeds(answers[k]);
      assert y in Waiting(rows);
      if j :| 0 <= j < |batch| && batch[j] == y {
        assert !Succeeds(answers[j]);
      }
    }
  }
}
