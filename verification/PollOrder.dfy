/** Oldest first over whole runs: mail arrives at any moment, also in the middle of a poll
    (pkg/worker/poller.go, pkg/smtp/server.go). */
module PollOrder {
  import opened Processing
  import opened Storage
  import opened Poller
  import opened Pipeline

  predicate InQueue(queue: seq<Fetched>, id: nat) {
    exists j :: 0 <= j < |queue| && queue[j].id == id
  }

  /** No processed message is newer than an unprocessed one; the poller works through its batch from
      the oldest on, and no unprocessed message outside of it is older than one in it. */
  ghost predicate Ordered(rows: seq<Row>, queue: seq<Fetched>) {
    && OldestFirst(rows)
    && (forall j, k | 0 <= j < k < |queue| :: queue[j].row.createdAt <= queue[k].row.createdAt)
    && (forall j, i: nat | 0 <= j < |queue| && i < |rows| && !rows[i].processed ::
          !InQueue(queue, i) ==> queue[j].row.createdAt <= rows[i].createdAt)
  }

  lemma ArrivalOrder(rows: seq<Row>, queue: seq<Fetched>, row: Row)
    requires CopiesOk(rows, queue) && Ordered(rows, queue)
    requires !row.processed && forall r | r in rows :: r.createdAt <= row.createdAt
    ensures Ordered(rows + [row], queue)
  {
    var rows' := rows + [row];
    forall i | 0 <= i < |rows|
      ensures rows'[i] == rows[i] && rows[i].createdAt <= row.createdAt
    {
      assert rows[i] in rows;
    }
    forall j | 0 <= j < |queue|
      ensures queue[j].row.createdAt <= row.createdAt
    {
      assert rows[queue[j].id] == queue[j].row;
    }
  }

  lemma FetchOrder(rows: seq<Row>, batch: seq<nat>)
    requires OldestFirst(rows) && IsBatch(rows, batch, BATCH_SIZE)
    ensures Ordered(rows, FetchedRows(rows, batch))
  {
    var queue := FetchedRows(rows, batch);
    forall k | 0 <= k < |batch|
      ensures InQueue(queue, batch[k])
    {
      assert queue[k].id == batch[k];
    }
    forall j, i: nat | 0 <= j < |queue| && i < |rows| && !rows[i].processed && !InQueue(queue, i)
      ensures queue[j].row.createdAt <= rows[i].createdAt
    {
      assert i in Waiting(rows) && i !in batch;
    }
  }

  /** Marking the head of the queue. */
  lemma SaveOrder(rows: seq<Row>, queue: seq<Fetched>)
    requires CopiesOk(rows, queue) && Ordered(rows, queue) && queue != []
    ensures var f := queue[0];
            Ordered(rows[f.id := f.row.(processed := true)], queue[1..])
  {
    var f, rest := queue[0], queue[1..];
    var rows' := rows[f.id := f.row.(processed := true)];
    forall i: nat | i < |rows| && !rows'[i].processed
      ensures i != f.id && !rows[i].processed && f.row.createdAt <= rows[i].createdAt
      ensures InQueue(queue, i) ==> InQueue(rest, i)
    {
      if InQueue(queue, i) {
        var k :| 0 <= k < |queue| && queue[k].id == i;
        assert k > 0 && rest[k - 1].id == i;
        assert rows[queue[k].id] == queue[k].row;
      }
    }
    assert rows[f.id] == f.row;
    forall i, j | 0 <= i < |rows'| && 0 <= j < |rows'| && rows'[i].processed && !rows'[j].processed
      ensures rows'[i].createdAt <= rows'[j].createdAt
    {
    }
  }

  // ------------------------------------------------------------------ runs

  predicate Stores(step: Step) {
    step.Create? && step.ok
  }

  predicate NoFailures(steps: seq<Step>) {
    forall step | step in steps :: step != LookupFails && step != Save(false)
  }

  /** Rows are created at non-decreasing times. */
  predicate InTimeOrder(steps: seq<Step>) {
    forall j, k | 0 <= j < k < |steps| :: Stores(steps[j]) && Stores(steps[k]) ==> steps[j].now <= steps[k].now
  }

  /** Nothing stored is newer than what the run is going to store. */
  predicate Before(rows: seq<Row>, steps: seq<Step>) {
    forall i, k | 0 <= i < |rows| && 0 <= k < |steps| :: Stores(steps[k]) ==> rows[i].createdAt <= steps[k].now
  }

  lemma OrderStep(host: string, lib: Library, s: State, step: Step)
    requires Inv(host, lib, s) && Ordered(s.table.rows, Queue(s.pc)) && Enabled(s, step)
    requires step != LookupFails && step != Save(false)
    requires Stores(step) ==> forall r | r in s.table.rows :: r.createdAt <= step.now
    ensures var s' := Apply(host, lib, s, step); Ordered(s'.table.rows, Queue(s'.pc))
  {
    var s' := Apply(host, lib, s, step);
    var queue := Queue(s.pc);
    match step
    case Create(_, now, ok) =>
      if ok {
        var row := s'.table.rows[|s.table.rows|];
        assert s'.table.rows == s.table.rows + [row];
        ArrivalOrder(s.table.rows, queue, row);
      }
    case Fetch(batch) => FetchOrder(s.table.rows, batch);
    case Lookup(_) => assert Queue(s'.pc) == queue;
    case Save(_) =>
      assert queue[0] == s.pc.f && queue[1..] == s.pc.rest;
      SaveOrder(s.table.rows, queue);
    case _ =>
  }

  /** The creation times after a step: those there stay, and a row it stores has its time. */
  predicate Times(rows: seq<Row>, rows': seq<Row>, step: Step) {
    && |rows'| == |rows| + (if Stores(step) then 1 else 0)
    && (forall i | 0 <= i < |rows| :: rows'[i].createdAt == rows[i].createdAt)
    && (Stores(step) ==> rows'[|rows|].createdAt == step.now)
  }

  lemma TimesStep(host: string, lib: Library, s: State, step: Step)
    requires Inv(host, lib, s) && Enabled(s, step)
    ensures Times(s.table.rows, Apply(host, lib, s, step).table.rows, step)
  {
    var t, t' := s.table, Apply(host, lib, s, step).table;
    TableExtends(host, lib, s, step);
    forall i | 0 <= i < |t.rows|
      ensures t'.rows[i].createdAt == t.rows[i].createdAt
    {
      assert t'.origins[i] == t.origins[i];
    }
  }

  lemma BeforeRest(rows: seq<Row>, rows': seq<Row>, steps: seq<Step>)
    requires steps != [] && InTimeOrder(steps) && Before(rows, steps) && Times(rows, rows', steps[0])
    ensures Before(rows', steps[1..]) && InTimeOrder(steps[1..])
    ensures NoFailures(steps) ==> NoFailures(steps[1..])
  {
    assert forall step | step in steps[1..] :: step in steps;
    assert forall k | 0 <= k < |steps[1..]| :: steps[1..][k] == steps[k + 1];
  }

  lemma NotNewer(rows: seq<Row>, steps: seq<Step>)
    requires steps != [] && Before(rows, steps) && Stores(steps[0])
    ensures forall r | r in rows :: r.createdAt <= steps[0].now
  {
  }

  /** All that the induction over a run carries along. */
  ghost predicate Going(host: string, lib: Library, s: State, steps: seq<Step>) {
    && Inv(host, lib, s) && Ordered(s.table.rows, Queue(s.pc))
    && NoFailures(steps) && InTimeOrder(steps) && Before(s.table.rows, steps)
  }

  lemma GoingOn(host: string, lib: Library, s: State, steps: seq<Step>)
    requires Going(host, lib, s, steps) && steps != [] && Enabled(s, steps[0])
    ensures Going(host, lib, Apply(host, lib, s, steps[0]), steps[1..])
  {
    assert steps[0] in steps;
    TimesStep(host, lib, s, steps[0]);
    BeforeRest(s.table.rows, Apply(host, lib, s, steps[0]).table.rows, steps);
    if Stores(steps[0]) {
      NotNewer(s.table.rows, steps);
    }
    OrderStep(host, lib, s, steps[0]);
    InvStep(host, lib, s, steps[0]);
  }

  lemma {:induction false} OrderRun(host: string, lib: Library, s: State, steps: seq<Step>)
    requires Going(host, lib, s, steps) && Runs(host, lib, s, steps)
    ensures OldestFirst(After(host, lib, s, steps).table.rows)
    decreases |steps|
  {
    if steps != [] {
      GoingOn(host, lib, s, steps);
      OrderRun(host, lib, Apply(host, lib, s, steps[0]), steps[1..]);
    }
  }

  /** Over every run without failed lookups and saves in which rows are created at non-decreasing times,
      no processed message is newer than an unprocessed one, at any moment: mail may arrive between the
      fetch of a batch and the last save of it. */
  lemma OldestFirstAlways(host: string, lib: Library, sessions: nat, steps: seq<Step>)
    requires Runs(host, lib, Start(sessions), steps) && NoFailures(steps) && InTimeOrder(steps)
    ensures OldestFirst(After(host, lib, Start(sessions), steps).table.rows)
  {
    Reachable(host, lib, sessions, []);
    OrderRun(host, lib, Start(sessions), steps);
  }

  /** In any run, failures or not, a step of an oldest-first table leaves it so unless it marks a message
      while an older one waits, or stores a message older than a processed one. */
  lemma OrderBrokenOnlyBy(host: string, lib: Library, s: State, step: Step)
    requires Inv(host, lib, s) && OldestFirst(s.table.rows) && Enabled(s, step)
    ensures OldestFirst(Apply(host, lib, s, step).table.rows) <==>
            && (step == Save(true) ==>
                  forall r | r in s.table.rows && !r.processed :: s.pc.f.row.createdAt <= r.createdAt)
            && (Stores(step) ==> forall r | r in s.table.rows && r.processed :: r.createdAt <= step.now)
  {
    var rows, rows' := s.table.rows, Apply(host, lib, s, step).table.rows;
    if step == Save(true) {
      assert Queue(s.pc)[0] == s.pc.f;
      MarkOrder(rows, s.pc.f);
    } else if Stores(step) {
      StoreOrder(rows, rows'[|rows|]);
    } else {
      assert rows' == rows;
    }
  }

  lemma MarkOrder(rows: seq<Row>, f: Fetched)
    requires OldestFirst(rows) && f.id < |rows| && rows[f.id] == f.row && !f.row.processed
    ensures OldestFirst(rows[f.id := f.row.(processed := true)]) <==>
            forall r | r in rows && !r.processed :: f.row.createdAt <= r.createdAt
  {
    var rows' := rows[f.id := f.row.(processed := true)];
    if OldestFirst(rows') {
      forall r | r in rows && !r.processed
        ensures f.row.createdAt <= r.createdAt
      {
        var i :| 0 <= i < |rows| && rows[i] == r;
        assert rows'[f.id].processed && rows'[f.id].createdAt == f.row.createdAt;
        assert i != f.id ==> rows'[i] == r;
      }
    }
    if forall r | r in rows && !r.processed :: f.row.createdAt <= r.createdAt {
      forall i, j | 0 <= i < |rows'| && 0 <= j < |rows'| && rows'[i].processed && !rows'[j].processed
        ensures rows'[i].createdAt <= rows'[j].createdAt
      {
        assert rows[j] in rows;
      }
    }
  }

  lemma StoreOrder(rows: seq<Row>, row: Row)
    requires OldestFirst(rows) && !row.processed
    ensures OldestFirst(rows + [row]) <==> forall r | r in rows && r.processed :: r.createdAt <= row.createdAt
  {
    var rows' := rows + [row];
    if OldestFirst(rows') {
      forall r | r in rows && r.processed
        ensures r.createdAt <= row.createdAt
      {
        var i :| 0 <= i < |rows| && rows[i] == r;
        assert rows'[i] == r && rows'[|rows|] == row;
      }
    }
    if forall r | r in rows && r.processed :: r.createdAt <= row.createdAt {
      forall i, j | 0 <= i < |rows'| && 0 <= j < |rows'| && rows'[i].processed && !rows'[j].processed
        ensures rows'[i].createdAt <= rows'[j].createdAt
      {
        assert i < |rows| && rows'[i] == rows[i] && rows[i] in rows;
      }
    }
  }
}
