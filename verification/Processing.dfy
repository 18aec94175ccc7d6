/** From a message to webhook calls (pkg/worker/processor.go, pkg/worker/webhook.go). The job table,
    the regular expressions, the templates and the HTTP client are parameters. */
module Processing {

  import opened Common

  datatype Message = Message(sender: string, to: string, subject: string, body: string)

  datatype Job = Job(id: int, fromRegex: string, url: string, verb: string, headers: map<string, string>,
                     payloadTemplate: string, response: string)

  /** `failed` stands for a non-nil Error. */
  datatype ProcessResult = ProcessResult(jobId: int, url: string, verb: string, headers: map<string, string>,
                                         payload: string, response: string, failed: bool)

  /** The libraries: does a pattern match (a bad pattern is no match), what payload is generated
      (None is an error), can a request be built. */
  datatype Library = Library(matches: (string, string) -> bool, generate: (Job, Message) -> Option<string>,
                             canBuild: ProcessResult -> bool)

  // ------------------------------------------------------------------ which recipients count

  datatype RawMessage = RawMessage(id: string, sender: string, recipients: seq<string>, subject: string)

  /** isValidEmail: the last bytes are "@hostname". */
  predicate IsValidEmail(email: string, hostFull: string) {
    |email| >= |hostFull| && email[|email| - |hostFull|..] == hostFull
  }

  predicate IsAngle(c: char) {
    c == '<' || c == '>'
  }

  /** strings.Trim(s, "<>") */
  function TrimAngles(s: string): (t: string)
    ensures t == "" || (!IsAngle(t[0]) && !IsAngle(t[|t| - 1]))
  {
    if s == "" then ""
    else if IsAngle(s[0]) then TrimAngles(s[1..])
    else if IsAngle(s[|s| - 1]) then TrimAngles(s[..|s| - 1])
    else s
  }

  /** Nothing but angle brackets goes, and all of those at either end. */
  lemma {:induction false} OnlyAnglesGo(s: string) returns (a: string, b: string)
    ensures s == a + TrimAngles(s) + b && (forall c | c in a + b :: IsAngle(c))
    ensures var t := TrimAngles(s); t == "" || (!IsAngle(t[0]) && !IsAngle(t[|t| - 1]))
    decreases |s|
  {
    if s == "" {
      a, b := "", "";
    } else if IsAngle(s[0]) {
      a, b := OnlyAnglesGo(s[1..]);
      a := [s[0]] + a;
    } else if IsAngle(s[|s| - 1]) {
      a, b := OnlyAnglesGo(s[..|s| - 1]);
      assert s == s[..|s| - 1] + [s[|s| - 1]];
      b := b + [s[|s| - 1]];
    } else {
      a, b := "", "";
    }
  }

  /** Both components accept the same addresses: `Rcpt`'s suffix test and isValidEmail hold exactly
      for the addresses that are some local part followed by "@hostname". */
  lemma SameRecipientsAccepted(email: string, host: string)
    ensures IsValidEmail(email, "@" + host) <==> exists local :: email == local + "@" + host
  {
    EndsIn(email, "@" + host);
    forall local
      ensures local + "@" + host == local + ("@" + host)
    {
    }
  }

  lemma EndsIn(email: string, hostFull: string)
    ensures IsValidEmail(email, hostFull) <==> exists local :: email == local + hostFull
  {
    if IsValidEmail(email, hostFull) {
      assert email == email[..|email| - |hostFull|] + hostFull;
    }
  }

  function ValidRecipients(recipients: seq<string>, hostFull: string): seq<string> {
    if recipients == [] then []
    else
      var first := if IsValidEmail(recipients[0], hostFull) then [recipients[0]] else [];
      first + ValidRecipients(recipients[1..], hostFull)
  }

  /** One message for every valid recipient, in order. */
  function Addressed(raw: RawMessage, recipients: seq<string>, body: string): seq<Message> {
    seq(|recipients|, i requires 0 <= i < |recipients| => Message(raw.sender, recipients[i], raw.subject, body))
  }

  /** One message for each of the recipients that ends in `hostFull`, in order. */
  ghost predicate MessageEach(raw: RawMessage, recipients: seq<string>, hostFull: string, body: string,
                              messages: seq<Message>)
  {
    OneEach(recipients, (to: string) => IsValidEmail(to, hostFull),
            (to: string) => Message(raw.sender, to, raw.subject, body), messages)
  }

  lemma {:induction false} MessagesAre(raw: RawMessage, recipients: seq<string>, hostFull: string, body: string)
    ensures MessageEach(raw, recipients, hostFull, body, Addressed(raw, ValidRecipients(recipients, hostFull), body))
  {
    var good := (to: string) => IsValidEmail(to, hostFull);
    var f := (to: string) => Message(raw.sender, to, raw.subject, body);
    if recipients == [] {
      OneEachOfNone(good, f);
      assert Addressed(raw, [], body) == [];
    } else {
      var to, rest := recipients[0], recipients[1..];
      MessagesAre(raw, rest, hostFull, body);
      AddressedAdds(raw, if good(to) then [to] else [], ValidRecipients(rest, hostFull), body);
      OneMoreInFront(to, rest, good, f, Addressed(raw, ValidRecipients(rest, hostFull), body));
      assert [to] + rest == recipients;
    }
  }

  lemma AddressedAdds(raw: RawMessage, a: seq<string>, b: seq<string>, body: string)
    ensures Addressed(raw, a + b, body) == Addressed(raw, a, body) + Addressed(raw, b, body)
  {
  }

  /** The mail API of the fetcher; `body` is what GetMessageBody makes of the fetched envelope, None an error. */
  class Fetcher {
    var fetches: seq<string>

    constructor ()
      ensures fetches == []
    {
      fetches := [];
    }

    method FetchMessage(id: string, body: Option<string>) returns (r: Option<string>)
      modifies this
      ensures fetches == old(fetches) + [id] && r == body
    {
      fetches := fetches + [id];
      return body;
    }
  }

  /** The early check changes no result: the outcome is that of fetching first and then keeping the
      valid recipients; the fetch happens exactly when there is a valid recipient. */
  method ParseRawMessage(raw: RawMessage, hostFull: string, fetcher: Fetcher, body: Option<string>)
    returns (messages: seq<Message>)
    modifies fetcher
    ensures messages ==
              if body.None? then [] else Addressed(raw, ValidRecipients(raw.recipients, hostFull), body.value)
    ensures fetcher.fetches ==
              old(fetcher.fetches)
            + if exists e :: e in raw.recipients && IsValidEmail(e, hostFull) then [raw.id] else []
  {
    messages := [];
    var hasValidRecipient := false;
    for n := 0 to |raw.recipients|
      invariant !hasValidRecipient
      invariant forall k | 0 <= k < n :: !IsValidEmail(raw.recipients[k], hostFull)
    {
      if IsValidEmail(raw.recipients[n], hostFull) {
        hasValidRecipient := true;
        assert raw.recipients[n] in raw.recipients;
        break;
      }
    }
    if !hasValidRecipient {
      NoneValid(raw.recipients, hostFull);
      return;
    }
    var full := fetcher.FetchMessage(raw.id, body);
    if full.None? {
      return;
    }
    ghost var kept: seq<string> := [];
    for n := 0 to |raw.recipients|
      invariant messages == Addressed(raw, kept, full.value)
      invariant kept + ValidRecipients(raw.recipients[n..], hostFull) == ValidRecipients(raw.recipients, hostFull)
    {
      var to := raw.recipients[n];
      assert raw.recipients[n..][1..] == raw.recipients[n + 1..];
      if !IsValidEmail(to, hostFull) {
        continue;
      }
      messages := messages + [Message(raw.sender, to, raw.subject, full.value)];
      kept := kept + [to];
    }
    assert kept == ValidRecipients(raw.recipients, hostFull);
  }

  lemma {:induction false} NoneValid(recipients: seq<string>, hostFull: string)
    requires forall e | e in recipients :: !IsValidEmail(e, hostFull)
    ensures ValidRecipients(recipients, hostFull) == []
  {
    if recipients != [] {
      assert recipients[0] in recipients;
      NoneValid(recipients[1..], hostFull);
    }
  }

  // ------------------------------------------------------------------ from jobs to results

  function ResultOf(lib: Library, job: Job, msg: Message): ProcessResult {
    var payload := lib.generate(job, msg);
    ProcessResult(job.id, job.url, job.verb, job.headers, if payload.None? then "" else payload.value, job.response,
                  payload.None?)
  }

  /** One result for every job whose pattern matches the sender, in order. */
  function Results(lib: Library, jobs: seq<Job>, msg: Message): seq<ProcessResult> {
    if jobs == [] then []
    else
      var first := if lib.matches(jobs[0].fromRegex, msg.sender) then [ResultOf(lib, jobs[0], msg)] else [];
      first + Results(lib, jobs[1..], msg)
  }

  /** `jobs` is the answer of GetActiveJobs for msg.to; None is an error. */
  method ProcessMessage(lib: Library, msg: Message, jobs: Option<seq<Job>>)
    returns (results: Option<seq<ProcessResult>>)
    ensures results == if jobs.None? then None else Some(Results(lib, jobs.value, msg))
  {
    if jobs.None? {
      return None;
    }
    var found: seq<ProcessResult> := [];
    for n := 0 to |jobs.value|
      invariant found + Results(lib, jobs.value[n..], msg) == Results(lib, jobs.value, msg)
    {
      var job := jobs.value[n];
      assert jobs.value[n..][1..] == jobs.value[n + 1..];
      var result := ProcessResult(job.id, job.url, job.verb, job.headers, "", job.response, false);
      if !lib.matches(job.fromRegex, msg.sender) {
        continue;
      }
      var payload := lib.generate(job, msg);
      if payload.None? {
        result := result.(failed := true);
        found := found + [result];
        continue;
      }
      result := result.(payload := payload.value);
      found := found + [result];
    }
    assert found + [] == found;
    return Some(found);
  }

  /** One result for each job whose pattern matches the sender, in order: with the generated payload, or,
      when that fails, failed and without a payload. */
  ghost predicate ResultEach(lib: Library, jobs: seq<Job>, msg: Message, results: seq<ProcessResult>) {
    OneEach(jobs, (job: Job) => lib.matches(job.fromRegex, msg.sender),
            (job: Job) =>
              match lib.generate(job, msg)
              case Some(payload) =>
                ProcessResult(job.id, job.url, job.verb, job.headers, payload, job.response, false)
              case None => ProcessResult(job.id, job.url, job.verb, job.headers, "", job.response, true),
            results)
  }

  lemma {:induction false} ResultsAre(lib: Library, jobs: seq<Job>, msg: Message)
    ensures ResultEach(lib, jobs, msg, Results(lib, jobs, msg))
  {
    var good := (job: Job) => lib.matches(job.fromRegex, msg.sender);
    var f := (job: Job) =>
               match lib.generate(job, msg)
               case Some(payload) =>
                 ProcessResult(job.id, job.url, job.verb, job.headers, payload, job.response, false)
               case None => ProcessResult(job.id, job.url, job.verb, job.headers, "", job.response, true);
    if jobs == [] {
      OneEachOfNone(good, f);
    } else {
      ResultsAre(lib, jobs[1..], msg);
      OneMoreInFront(jobs[0], jobs[1..], good, f, Results(lib, jobs[1..], msg));
      assert [jobs[0]] + jobs[1..] == jobs;
    }
  }

  // ------------------------------------------------------------------ sending

  /** An HTTP attempt is made for a result without an error whose request can be built. */
  predicate Sendable(lib: Library, r: ProcessResult) {
    !r.failed && lib.canBuild(r)
  }

  function SendableOf(lib: Library, results: seq<ProcessResult>): seq<ProcessResult> {
    if results == [] then []
    else
      var first := if Sendable(lib, results[0]) then [results[0]] else [];
      first + SendableOf(lib, results[1..])
  }

  lemma {:induction false} SendableOfAdds(lib: Library, a: seq<ProcessResult>, b: seq<ProcessResult>)
    ensures SendableOf(lib, a + b) == SendableOf(lib, a) + SendableOf(lib, b)
  {
    if a == [] {
      assert a + b == b;
    } else {
      assert (a + b)[1..] == a[1..] + b;
      SendableOfAdds(lib, a[1..], b);
    }
  }

  /** One attempt for each job whose pattern matches the sender, whose payload is generated and whose
      request can be built, in order, with that payload. */
  ghost predicate AttemptEach(lib: Library, jobs: seq<Job>, msg: Message, attempts: seq<ProcessResult>) {
    OneEach(jobs,
            (job: Job) =>
              && lib.matches(job.fromRegex, msg.sender)
              && lib.generate(job, msg).Some?
              && lib.canBuild(ProcessResult(job.id, job.url, job.verb, job.headers, lib.generate(job, msg).value,
                                            job.response, false)),
            (job: Job) =>
              match lib.generate(job, msg)
              case Some(payload) =>
                ProcessResult(job.id, job.url, job.verb, job.headers, payload, job.response, false)
              case None => ProcessResult(job.id, job.url, job.verb, job.headers, "", job.response, true),
            attempts)
  }

  lemma {:induction false} AttemptsAre(lib: Library, jobs: seq<Job>, msg: Message)
    ensures AttemptEach(lib, jobs, msg, SendableOf(lib, Results(lib, jobs, msg)))
  {
    var good := (job: Job) =>
                  && lib.matches(job.fromRegex, msg.sender)
                  && lib.generate(job, msg).Some?
                  && lib.canBuild(ProcessResult(job.id, job.url, job.verb, job.headers, lib.generate(job, msg).value,
                                                job.response, false));
    var f := (job: Job) =>
               match lib.generate(job, msg)
               case Some(payload) =>
                 ProcessResult(job.id, job.url, job.verb, job.headers, payload, job.response, false)
               case None => ProcessResult(job.id, job.url, job.verb, job.headers, "", job.response, true);
    if jobs == [] {
      OneEachOfNone(good, f);
    } else {
      var job, rest := jobs[0], Results(lib, jobs[1..], msg);
      AttemptsAre(lib, jobs[1..], msg);
      OneMoreInFront(job, jobs[1..], good, f, SendableOf(lib, rest));
      var first := if lib.matches(job.fromRegex, msg.sender) then [f(job)] else [];
      SendableOfAdds(lib, first, rest);
      assert SendableOf(lib, first) == if good(job) then [f(job)] else [];
      assert [job] + jobs[1..] == jobs;
    }
  }

  datatype WebhookResult = WebhookResult(jobId: int, status: int, response: string, failed: bool)

  /** The HTTP client records its attempts; a reply is a status, None an error. */
  class HttpClient {
    var attempts: seq<ProcessResult>

    constructor ()
      ensures attempts == []
    {
      attempts := [];
    }

    method Do(result: ProcessResult, reply: Option<int>) returns (r: Option<int>)
      modifies this
      ensures attempts == old(attempts) + [result] && r == reply
    {
      attempts := attempts + [result];
      return reply;
    }
  }

  function Answer(lib: Library, result: ProcessResult, reply: Option<int>): WebhookResult {
    var answered := Sendable(lib, result) && reply.Some?;
    WebhookResult(result.jobId, if answered then reply.value else 0, result.response, !answered)
  }

  method SendWebhook(lib: Library, client: HttpClient, result: ProcessResult, reply: Option<int>)
    returns (w: WebhookResult)
    modifies client
    ensures client.attempts == old(client.attempts) + if !result.failed && lib.canBuild(result) then [result] else []
    ensures w == Answer(lib, result, reply)
    ensures w.jobId == result.jobId && w.response == result.response
    ensures w.failed <==> result.failed || !lib.canBuild(result) || reply.None?
    ensures !w.failed ==> w.status == reply.value
  {
    w := WebhookResult(result.jobId, 0, result.response, false);
    if result.failed {
      w := w.(failed := true);
      return;
    }
    if !lib.canBuild(result) {
      w := w.(failed := true);
      return;
    }
    var resp := client.Do(result, reply);
    if resp.None? {
      w := w.(failed := true);
      return;
    }
    w := w.(status := resp.value);
  }

  /** Every sendable result gets exactly one attempt, in order; every result gets one answer. */
  method SendWebhooks(lib: Library, client: HttpClient, results: seq<ProcessResult>, replies: seq<Option<int>>)
    returns (webhookResults: seq<WebhookResult>)
    requires |replies| == |results|
    modifies client
    ensures client.attempts == old(client.attempts) + SendableOf(lib, results)
    ensures webhookResults == Answers(lib, results, replies)
    ensures |webhookResults| == |results|
    ensures forall i | 0 <= i < |results| ::
              && webhookResults[i].jobId == results[i].jobId && webhookResults[i].response == results[i].response
              && (webhookResults[i].failed <==> results[i].failed || !lib.canBuild(results[i]) || replies[i].None?)
  {
    webhookResults := [];
    for n := 0 to |results|
      invariant client.attempts + SendableOf(lib, results[n..]) == old(client.attempts) + SendableOf(lib, results)
      invariant webhookResults == Answers(lib, results[..n], replies[..n])
    {
      assert results[n..][1..] == results[n + 1..];
      var w := SendWebhook(lib, client, results[n], replies[n]);
      webhookResults := webhookResults + [w];
    }
    assert results[..|results|] == results && replies[..|results|] == replies;
  }

  function Answers(lib: Library, results: seq<ProcessResult>, replies: seq<Option<int>>): seq<WebhookResult>
    requires |replies| == |results|
  {
    seq(|results|, i requires 0 <= i < |results| => Answer(lib, results[i], replies[i]))
  }
}
