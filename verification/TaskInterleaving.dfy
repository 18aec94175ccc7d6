/** Overlapping saves over one buffer pool (pkg/services/tasks.go): between the moment a save puts its
    message buffer back and the moment it sends, another save may take that buffer and write to it.
    An encoder hands its output to the buffer in any number of pieces, each of them one write. */
module TaskInterleaving {
  import opened Common

  type Bytes = seq<bv8>

  /** A bytes.Buffer: which backing array it uses, and how much of it. */
  datatype Buf = Buf(arr: nat, len: nat)

  datatype Slice = Slice(arr: nat, len: nat)

  /** Where one Save stands; `k` pieces of the encoding under way are written. */
  datatype Pc =
    | Begin
    | HasTask(t: nat, k: nat)
    | HasBoth(t: nat, m: nat, k: nat)
    | Captured(t: nat, m: nat, body: Slice)
    | Emptied(t: nat, m: nat, body: Slice)
    | TaskPut(m: nat, body: Slice)
    | BothPut(m: nat, body: Slice)
    | Sent
    | Failed

  datatype State = State(arrays: seq<Bytes>, bufs: seq<Buf>, pool: set<nat>, saves: seq<Pc>, queue: seq<(nat, Bytes)>)

  /** What is saved: the pieces in which each task is encoded, and those in which a wrapper is. */
  datatype Work = Work(tasks: seq<seq<Bytes>>, wrap: (nat, Bytes) -> seq<Bytes>)

  /** The pieces of the message of save i. */
  function Pieces(w: Work, i: nat): seq<Bytes>
    requires i < |w.tasks|
  {
    w.wrap(i, Flat(w.tasks[i]))
  }

  function Expected(w: Work, i: nat): Bytes
    requires i < |w.tasks|
  {
    Flat(Pieces(w, i))
  }

  /** `b` is the buffer the pool hands out (|bufs| for a new one), `spare` the unused rest of a newly
      grown array. */
  datatype Step =
    | GetTask(i: nat, b: nat)
    | WriteTask(i: nat, spare: Bytes)
    | GetMsg(i: nat, b: nat)
    | WriteMsg(i: nat, spare: Bytes)
    | Capture(i: nat)
    | EmptyBoth(i: nat)
    | PutTask(i: nat)
    | PutMsg(i: nat)
    | Send(i: nat)
    | Fail(i: nat)

  predicate CanTake(s: State, b: nat) {
    b in s.pool || b == |s.bufs|
  }

  predicate Enabled(w: Work, s: State, step: Step) {
    && step.i < |s.saves| == |w.tasks|
    && var pc := s.saves[step.i];
       match step
       case GetTask(_, b) => pc.Begin? && CanTake(s, b)
       case WriteTask(i, _) => pc.HasTask? && pc.k < |w.tasks[i]|
       case GetMsg(i, b) => pc.HasTask? && pc.k == |w.tasks[i]| && CanTake(s, b)
       case WriteMsg(i, _) => pc.HasBoth? && pc.k < |Wrapping(w, s, i, pc.t)|
       case Capture(i) => pc.HasBoth? && pc.k == |Wrapping(w, s, i, pc.t)|
       case EmptyBoth(_) => pc.Captured?
       case PutTask(_) => pc.Emptied?
       case PutMsg(_) => pc.TaskPut?
       case Send(_) => pc.BothPut?
       case Fail(_) => pc.HasTask? || pc.HasBoth? // an encoding error: the buffers are lost
  }

  /** The encoder of the wrapper reads the task buffer as it is at the moment. */
  function Wrapping(w: Work, s: State, i: nat, t: nat): seq<Bytes> {
    w.wrap(i, Contents(s, t))
  }

  function Take(s: State, b: nat): State {
    if b == |s.bufs| then s.(arrays := s.arrays + [[]], bufs := s.bufs + [Buf(|s.arrays|, 0)])
    else s.(pool := s.pool - {b})
  }

  function ArrayAt(s: State, arr: nat): Bytes {
    if arr < |s.arrays| then s.arrays[arr] else []
  }

  /** What a slice shows of its array at the moment. */
  function Shown(s: State, body: Slice): Bytes {
    var a := ArrayAt(s, body.arr);
    if body.len <= |a| then a[..body.len] else a
  }

  function Contents(s: State, b: nat): Bytes {
    if b < |s.bufs| then Shown(s, Slice(s.bufs[b].arr, s.bufs[b].len)) else []
  }

  /** Writing to the buffer `b`, behind what it holds: in place when the array has room, else into a new
      array that starts with what the buffer holds. */
  function Write(s: State, b: nat, bytes: Bytes, spare: Bytes): State {
    if b >= |s.bufs| || s.bufs[b].arr >= |s.arrays| || s.bufs[b].len > |s.arrays[s.bufs[b].arr]| then s
    else
      var Buf(a, n) := s.bufs[b];
      var end := n + |bytes|;
      if end <= |s.arrays[a]| then
        s.(arrays := s.arrays[a := s.arrays[a][..n] + bytes + s.arrays[a][end..]], bufs := s.bufs[b := Buf(a, end)])
      else
        s.(arrays := s.arrays + [s.arrays[a][..n] + bytes + spare], bufs := s.bufs[b := Buf(|s.arrays|, end)])
  }

  function Emptying(s: State, b: nat): State {
    if b < |s.bufs| then s.(bufs := s.bufs[b := s.bufs[b].(len := 0)]) else s
  }

  function Apply(w: Work, s: State, step: Step): State
    requires Enabled(w, s, step)
  {
    var i := step.i;
    var pc := s.saves[i];
    match step
    case GetTask(_, b) => Take(s, b).(saves := s.saves[i := HasTask(b, 0)])
    case WriteTask(_, spare) => Write(s, pc.t, w.tasks[i][pc.k], spare).(saves := s.saves[i := HasTask(pc.t, pc.k + 1)])
    case GetMsg(_, b) => Take(s, b).(saves := s.saves[i := HasBoth(pc.t, b, 0)])
    case WriteMsg(_, spare) =>
      Write(s, pc.m, Wrapping(w, s, i, pc.t)[pc.k], spare).(saves := s.saves[i := HasBoth(pc.t, pc.m, pc.k + 1)])
    case Capture(_) =>
      var body := if pc.m < |s.bufs| then Slice(s.bufs[pc.m].arr, s.bufs[pc.m].len) else Slice(0, 0);
      s.(saves := s.saves[i := Captured(pc.t, pc.m, body)])
    case EmptyBoth(_) => Emptying(Emptying(s, pc.t), pc.m).(saves := s.saves[i := Emptied(pc.t, pc.m, pc.body)])
    case PutTask(_) => s.(pool := s.pool + {pc.t}, saves := s.saves[i := TaskPut(pc.m, pc.body)])
    case PutMsg(_) => s.(pool := s.pool + {pc.m}, saves := s.saves[i := BothPut(pc.m, pc.body)])
    case Send(_) => s.(queue := s.queue + [(i, Shown(s, pc.body))], saves := s.saves[i := Sent])
    case Fail(_) => s.(saves := s.saves[i := Failed])
  }

  // ------------------------------------------------------------------ ownership

  predicate Owns(pc: Pc, b: nat) {
    match pc
    case HasTask(t, _) => b == t
    case HasBoth(t, m, _) => b == t || b == m
    case Captured(t, m, _) => b == t || b == m
    case Emptied(t, m, _) => b == t || b == m
    case TaskPut(m, _) => b == m
    case _ => false
  }

  ghost predicate MemoryOk(s: State) {
    && (forall b | 0 <= b < |s.bufs| :: s.bufs[b].arr < |s.arrays| && s.bufs[b].len <= |s.arrays[s.bufs[b].arr]|)
    && (forall b, c | 0 <= b < c < |s.bufs| :: s.bufs[b].arr != s.bufs[c].arr)
  }

  /** What a save owns exists and is not in the pool. */
  ghost predicate InUse(s: State, pc: Pc) {
    forall b: nat | Owns(pc, b) :: b < |s.bufs| && b !in s.pool
  }

  ghost predicate Apart(pc: Pc, pc': Pc) {
    forall b: nat | Owns(pc, b) :: !Owns(pc', b)
  }

  /** Every buffer in use belongs to one save only, and not to the pool; the pool's are empty. */
  ghost predicate OwnershipOk(s: State) {
    && (forall b | b in s.pool :: b < |s.bufs| && s.bufs[b].len == 0)
    && (forall i | 0 <= i < |s.saves| :: InUse(s, s.saves[i]))
    && (forall i, j | 0 <= i < j < |s.saves| :: Apart(s.saves[i], s.saves[j]))
  }

  predicate IsEmpty(s: State, b: nat) {
    b < |s.bufs| && s.bufs[b].len == 0
  }

  /** The message buffer `m` uses the array of `body`, and `body` shows the expected message. */
  predicate Holds(s: State, m: nat, body: Slice, message: Bytes) {
    m < |s.bufs| && s.bufs[m].arr == body.arr && body.len == |message| && Shown(s, body) == message
  }

  /** What a save may rely on while its buffers are its own. */
  ghost predicate SaveOk(w: Work, s: State, i: nat)
    requires i < |s.saves| == |w.tasks|
  {
    match s.saves[i]
    case HasTask(t, k) => k <= |w.tasks[i]| && Contents(s, t) == Flat(w.tasks[i][..k])
    case HasBoth(t, m, k) =>
      t != m && Contents(s, t) == Flat(w.tasks[i]) && k <= |Pieces(w, i)| && Contents(s, m) == Flat(Pieces(w, i)[..k])
    case Captured(t, m, body) => t != m && Holds(s, m, body, Expected(w, i))
    case Emptied(t, m, body) => t != m && Holds(s, m, body, Expected(w, i)) && IsEmpty(s, t) && IsEmpty(s, m)
    case TaskPut(m, body) => Holds(s, m, body, Expected(w, i)) && IsEmpty(s, m)
    case BothPut(m, body) => body.len == |Expected(w, i)| <= |ArrayAt(s, body.arr)|
    case _ => true
  }

  ghost predicate Inv(w: Work, s: State) {
    && |s.saves| == |w.tasks|
    && MemoryOk(s) && OwnershipOk(s)
    && forall i | 0 <= i < |s.saves| :: SaveOk(w, s, i)
  }

  // ------------------------------------------------------------------ what each step does to memory

  /** `s'` leaves the buffer `b` and its array as they are. */
  ghost predicate SameBuffer(s: State, s': State, b: nat) {
    && b < |s.bufs| && b < |s'.bufs| && s'.bufs[b] == s.bufs[b]
    && ArrayAt(s', s.bufs[b].arr) == ArrayAt(s, s.bufs[b].arr)
  }

  /** Arrays never shrink. */
  ghost predicate Keeps(s: State, s': State) {
    |s.bufs| <= |s'.bufs| && forall arr: nat :: |ArrayAt(s, arr)| <= |ArrayAt(s', arr)|
  }

  lemma TakeMemory(s: State, b: nat)
    requires MemoryOk(s) && CanTake(s, b) && (forall p | p in s.pool :: p < |s.bufs| && s.bufs[p].len == 0)
    ensures var s' := Take(s, b);
            && MemoryOk(s') && Keeps(s, s') && IsEmpty(s', b)
            && (forall c | 0 <= c < |s.bufs| :: SameBuffer(s, s', c))
  {
  }

  lemma WriteMemory(s: State, b: nat, bytes: Bytes, spare: Bytes)
    requires MemoryOk(s) && b < |s.bufs|
    ensures var s' := Write(s, b, bytes, spare);
            && MemoryOk(s') && Keeps(s, s') && |s'.bufs| == |s.bufs| && Contents(s', b) == Contents(s, b) + bytes
            && s'.bufs[b].len == s.bufs[b].len + |bytes|
            && (forall c | 0 <= c < |s.bufs| && c != b :: SameBuffer(s, s', c))
  {
  }

  lemma EmptyMemory(s: State, b: nat)
    requires MemoryOk(s) && b < |s.bufs|
    ensures var s' := Emptying(s, b);
            && MemoryOk(s') && Keeps(s, s') && |s'.bufs| == |s.bufs| && s'.bufs[b] == Buf(s.bufs[b].arr, 0)
            && s'.arrays == s.arrays && (forall c | 0 <= c < |s.bufs| && c != b :: s'.bufs[c] == s.bufs[c])
  {
  }

  /** A save whose own buffers are left alone stays as it is. */
  lemma SaveFrame(w: Work, s: State, s': State, j: nat)
    requires j < |s.saves| == |s'.saves| == |w.tasks| && s'.saves[j] == s.saves[j]
    requires Keeps(s, s') && forall b: nat | Owns(s.saves[j], b) :: SameBuffer(s, s', b)
    requires SaveOk(w, s, j)
    ensures SaveOk(w, s', j)
  {
    match s.saves[j]
    case HasTask(t, _) => assert Owns(s.saves[j], t);
    case HasBoth(t, m, _) => assert Owns(s.saves[j], t) && Owns(s.saves[j], m);
    case Captured(t, m, body) => assert Owns(s.saves[j], m);
    case Emptied(t, m, body) => assert Owns(s.saves[j], m) && Owns(s.saves[j], t);
    case TaskPut(m, body) => assert Owns(s.saves[j], m);
    case _ =>
  }

  /** The buffers a step of save i may touch: its own, and the one it takes. */
  ghost predicate Touches(s: State, step: Step, b: nat)
    requires step.i < |s.saves|
  {
    Owns(s.saves[step.i], b) || (step.GetTask? && step.b == b) || (step.GetMsg? && step.b == b)
  }

  /** The invariant as far as one save is concerned. */
  ghost predicate Local(w: Work, s: State, i: nat) {
    i < |s.saves| == |w.tasks| && MemoryOk(s) && OwnershipOk(s) && SaveOk(w, s, i)
  }

  lemma OwnsItsBuffers(w: Work, s: State, i: nat)
    requires Local(w, s, i)
    ensures var pc := s.saves[i];
            && (pc.HasTask? || pc.HasBoth? || pc.Captured? || pc.Emptied? ==>
                  Owns(pc, pc.t) && pc.t < |s.bufs| && pc.t !in s.pool)
            && (pc.HasBoth? || pc.Captured? || pc.Emptied? || pc.TaskPut? ==>
                  Owns(pc, pc.m) && pc.m < |s.bufs| && pc.m !in s.pool)
  {
    var pc := s.saves[i];
    if pc.HasTask? || pc.HasBoth? || pc.Captured? || pc.Emptied? {
      assert Owns(pc, pc.t);
    }
    if pc.HasBoth? || pc.Captured? || pc.Emptied? || pc.TaskPut? {
      assert Owns(pc, pc.m);
    }
  }

  lemma MemoryStep(w: Work, s: State, step: Step)
    requires Local(w, s, step.i) && Enabled(w, s, step)
    ensures var s' := Apply(w, s, step);
            && MemoryOk(s') && Keeps(s, s')
            && forall b: nat | b < |s.bufs| && !Touches(s, step, b) :: SameBuffer(s, s', b)
  {
    var pc := s.saves[step.i];
    OwnsItsBuffers(w, s, step.i);
    match step
    case GetTask(_, b) => TakeStep(s, b, Apply(w, s, step));
    case GetMsg(_, b) => TakeStep(s, b, Apply(w, s, step));
    case WriteTask(i, spare) => WriteStep(s, pc.t, w.tasks[i][pc.k], spare, Apply(w, s, step));
    case WriteMsg(i, spare) => WriteStep(s, pc.m, Wrapping(w, s, i, pc.t)[pc.k], spare, Apply(w, s, step));
    case Capture(_) => SameMemory(s, Apply(w, s, step));
    case EmptyBoth(_) => EmptyTwo(s, pc.t, pc.m);
    case PutTask(_) => SameMemory(s, Apply(w, s, step));
    case PutMsg(_) => SameMemory(s, Apply(w, s, step));
    case Send(_) => SameMemory(s, Apply(w, s, step));
    case Fail(_) => SameMemory(s, Apply(w, s, step));
  }

  lemma TakeStep(s: State, b: nat, s': State)
    requires MemoryOk(s) && OwnershipOk(s) && CanTake(s, b)
    requires s'.arrays == Take(s, b).arrays && s'.bufs == Take(s, b).bufs
    ensures MemoryOk(s') && Keeps(s, s') && forall c | 0 <= c < |s.bufs| :: SameBuffer(s, s', c)
  {
    TakeMemory(s, b);
  }

  lemma WriteStep(s: State, b: nat, bytes: Bytes, spare: Bytes, s': State)
    requires MemoryOk(s) && b < |s.bufs|
    requires s'.arrays == Write(s, b, bytes, spare).arrays && s'.bufs == Write(s, b, bytes, spare).bufs
    ensures MemoryOk(s') && Keeps(s, s') && forall c | 0 <= c < |s.bufs| && c != b :: SameBuffer(s, s', c)
  {
    WriteMemory(s, b, bytes, spare);
  }

  lemma SameMemory(s: State, s': State)
    requires MemoryOk(s) && s'.arrays == s.arrays && s'.bufs == s.bufs
    ensures MemoryOk(s') && Keeps(s, s') && forall c | 0 <= c < |s.bufs| :: SameBuffer(s, s', c)
  {
  }

  lemma EmptyTwo(s: State, t: nat, m: nat)
    requires MemoryOk(s) && t < |s.bufs| && m < |s.bufs|
    ensures var s' := Emptying(Emptying(s, t), m);
            && MemoryOk(s') && Keeps(s, s') && |s'.bufs| == |s.bufs| && s'.arrays == s.arrays
            && IsEmpty(s', t) && IsEmpty(s', m)
            && (forall c | 0 <= c < |s.bufs| :: s'.bufs[c].arr == s.bufs[c].arr)
            && (forall c | 0 <= c < |s.bufs| && c != t && c != m :: SameBuffer(s, s', c))
  {
    EmptyMemory(s, t);
    EmptyMemory(Emptying(s, t), m);
  }

  lemma OwnershipStep(w: Work, s: State, step: Step)
    requires Local(w, s, step.i) && Enabled(w, s, step)
    ensures OwnershipOk(Apply(w, s, step))
  {
    OwnsItsBuffers(w, s, step.i);
    match step
    case GetTask(_, b) => TakeOwnership(s, step.i, b, HasTask(b, 0));
    case GetMsg(_, b) => TakeOwnership(s, step.i, b, HasBoth(s.saves[step.i].t, b, 0));
    case WriteTask(_, _) => WriteOwnership(w, s, step);
    case WriteMsg(_, _) => WriteOwnership(w, s, step);
    case EmptyBoth(_) => WriteOwnership(w, s, step);
    case _ => PutOwnership(w, s, step);
  }

  lemma TakeOwnership(s: State, i: nat, b: nat, pc': Pc)
    requires OwnershipOk(s) && CanTake(s, b) && i < |s.saves|
    requires forall c: nat | Owns(pc', c) :: c == b || Owns(s.saves[i], c)
    ensures OwnershipOk(Take(s, b).(saves := s.saves[i := pc']))
  {
    var s' := Take(s, b).(saves := s.saves[i := pc']);
    forall j, c: nat | 0 <= j < |s.saves| && j != i && Owns(s.saves[j], c)
      ensures c != b
    {
    }
  }

  lemma WriteOwnership(w: Work, s: State, step: Step)
    requires Local(w, s, step.i) && Enabled(w, s, step) && (step.WriteTask? || step.WriteMsg? || step.EmptyBoth?)
    ensures OwnershipOk(Apply(w, s, step))
  {
    var s' := Apply(w, s, step);
    MemoryStep(w, s, step);
    OwnsItsBuffers(w, s, step.i);
    assert forall c: nat :: Owns(s'.saves[step.i], c) <==> Owns(s.saves[step.i], c);
    forall b | b in s.pool
      ensures b < |s'.bufs| && s'.bufs[b].len == 0
    {
      assert !Touches(s, step, b);
      assert SameBuffer(s, s', b);
    }
  }

  lemma PutOwnership(w: Work, s: State, step: Step)
    requires Local(w, s, step.i) && Enabled(w, s, step)
    requires step.Capture? || step.PutTask? || step.PutMsg? || step.Send? || step.Fail?
    ensures OwnershipOk(Apply(w, s, step))
  {
    OwnsItsBuffers(w, s, step.i);
    var i := step.i;
    var pc, s' := s.saves[i], Apply(w, s, step);
    assert step.PutTask? ==> IsEmpty(s, pc.t) && pc.t != pc.m;
    assert step.PutMsg? ==> IsEmpty(s, pc.m);
    assert forall b: nat :: Owns(s'.saves[i], b) ==> Owns(pc, b);
    forall j | 0 <= j < |s'.saves|
      ensures InUse(s', s'.saves[j])
    {
      assert InUse(s, s.saves[j]);
      if j < i {
        assert Apart(s.saves[j], pc);
      } else if j > i {
        assert Apart(pc, s.saves[j]);
      }
    }
    forall j, k | 0 <= j < k < |s'.saves|
      ensures Apart(s'.saves[j], s'.saves[k])
    {
      assert Apart(s.saves[j], s.saves[k]);
    }
  }

  lemma OwnTaskStep(w: Work, s: State, step: Step)
    requires Local(w, s, step.i) && Enabled(w, s, step) && (step.GetTask? || step.WriteTask?)
    ensures SaveOk(w, Apply(w, s, step), step.i)
  {
    var pc := s.saves[step.i];
    OwnsItsBuffers(w, s, step.i);
    match step
    case GetTask(_, b) => TakeMemory(s, b);
    case WriteTask(i, spare) =>
      WriteMemory(s, pc.t, w.tasks[i][pc.k], spare);
      FlatNext(w.tasks[i], pc.k);
  }

  lemma OwnGetMsg(w: Work, s: State, i: nat, b: nat)
    requires Local(w, s, i) && Enabled(w, s, GetMsg(i, b))
    ensures SaveOk(w, Apply(w, s, GetMsg(i, b)), i)
  {
    var pc := s.saves[i];
    OwnsItsBuffers(w, s, i);
    TakeMemory(s, b);
    assert w.tasks[i][..pc.k] == w.tasks[i];
    assert SameBuffer(s, Take(s, b), pc.t);
  }

  lemma OwnWriteMsg(w: Work, s: State, i: nat, spare: Bytes)
    requires Local(w, s, i) && Enabled(w, s, WriteMsg(i, spare))
    ensures SaveOk(w, Apply(w, s, WriteMsg(i, spare)), i)
  {
    var pc := s.saves[i];
    OwnsItsBuffers(w, s, i);
    WriteMemory(s, pc.m, Pieces(w, i)[pc.k], spare);
    FlatNext(Pieces(w, i), pc.k);
    assert SameBuffer(s, Write(s, pc.m, Pieces(w, i)[pc.k], spare), pc.t);
  }

  lemma OwnCapture(w: Work, s: State, i: nat)
    requires Local(w, s, i) && Enabled(w, s, Capture(i))
    ensures SaveOk(w, Apply(w, s, Capture(i)), i)
  {
    OwnsItsBuffers(w, s, i);
    assert Pieces(w, i)[..s.saves[i].k] == Pieces(w, i);
  }

  lemma OwnSaveStep(w: Work, s: State, step: Step)
    requires Local(w, s, step.i) && Enabled(w, s, step)
    ensures SaveOk(w, Apply(w, s, step), step.i)
  {
    match step
    case GetTask(_, _) => OwnTaskStep(w, s, step);
    case WriteTask(_, _) => OwnTaskStep(w, s, step);
    case GetMsg(i, b) => OwnGetMsg(w, s, i, b);
    case WriteMsg(i, spare) => OwnWriteMsg(w, s, i, spare);
    case Capture(i) => OwnCapture(w, s, i);
    case EmptyBoth(i) =>
      OwnsItsBuffers(w, s, i);
      EmptyTwo(s, s.saves[i].t, s.saves[i].m);
    case _ =>
  }

  /** A step of another save touches none of this one's buffers. */
  lemma OthersUntouched(w: Work, s: State, step: Step, j: nat)
    requires Inv(w, s) && Enabled(w, s, step) && j < |s.saves| && j != step.i
    ensures SaveOk(w, Apply(w, s, step), j)
  {
    var s' := Apply(w, s, step);
    MemoryStep(w, s, step);
    assert s'.saves[j] == s.saves[j];
    forall b: nat | Owns(s.saves[j], b)
      ensures SameBuffer(s, s', b)
    {
      assert b < |s.bufs| && b !in s.pool && !Owns(s.saves[step.i], b);
      assert !Touches(s, step, b);
    }
    SaveFrame(w, s, s', j);
  }

  lemma InvStep(w: Work, s: State, step: Step)
    requires Inv(w, s) && Enabled(w, s, step)
    ensures Inv(w, Apply(w, s, step))
  {
    var s' := Apply(w, s, step);
    assert SaveOk(w, s, step.i);
    MemoryStep(w, s, step);
    OwnershipStep(w, s, step);
    OwnSaveStep(w, s, step);
    forall j | 0 <= j < |s'.saves|
      ensures SaveOk(w, s', j)
    {
      if j != step.i {
        OthersUntouched(w, s, step, j);
      }
    }
  }

  // ------------------------------------------------------------------ runs

  function Start(n: nat): State {
    State([], [], {}, seq(n, _ => Begin), [])
  }

  ghost predicate Runs(w: Work, s: State, steps: seq<Step>)
    decreases |steps|
  {
    steps == [] || (Enabled(w, s, steps[0]) && Runs(w, Apply(w, s, steps[0]), steps[1..]))
  }

  ghost function After(w: Work, s: State, steps: seq<Step>): State
    decreases |steps|
  {
    if steps == [] || !Enabled(w, s, steps[0]) then s else After(w, Apply(w, s, steps[0]), steps[1..])
  }

  lemma {:induction false} InvRun(w: Work, s: State, steps: seq<Step>)
    requires Inv(w, s) && Runs(w, s, steps)
    ensures Inv(w, After(w, s, steps))
    decreases |steps|
  {
    if steps != [] {
      InvStep(w, s, steps[0]);
      InvRun(w, Apply(w, s, steps[0]), steps[1..]);
    }
  }

  predicate Takes(step: Step, b: nat) {
    (step.GetTask? || step.GetMsg?) && step.b == b
  }

  /** Save i has put its message buffer m back, nobody has taken it since, and the message is intact. */
  ghost predicate Waiting(w: Work, s: State, i: nat, m: nat) {
    && i < |s.saves| == |w.tasks|
    && s.saves[i].BothPut? && s.saves[i].m == m && m in s.pool
    && Holds(s, m, s.saves[i].body, Expected(w, i))
  }

  lemma WaitingStep(w: Work, s: State, step: Step, i: nat, m: nat)
    requires Inv(w, s) && Enabled(w, s, step) && Waiting(w, s, i, m)
    requires !Takes(step, m) && step != Send(i)
    ensures Waiting(w, Apply(w, s, step), i, m)
  {
    var s' := Apply(w, s, step);
    assert SaveOk(w, s, step.i);
    MemoryStep(w, s, step);
    assert step.i != i;
    assert !Owns(s.saves[step.i], m) && !Touches(s, step, m);
    assert SameBuffer(s, s', m);
  }

  lemma {:induction false} WaitingRun(w: Work, s: State, steps: seq<Step>, i: nat, m: nat)
    requires Inv(w, s) && Runs(w, s, steps) && Waiting(w, s, i, m)
    requires forall step | step in steps :: !Takes(step, m) && step != Send(i)
    ensures Waiting(w, After(w, s, steps), i, m)
    decreases |steps|
  {
    if steps != [] {
      assert steps[0] in steps;
      WaitingStep(w, s, steps[0], i, m);
      InvStep(w, s, steps[0]);
      WaitingRun(w, Apply(w, s, steps[0]), steps[1..], i, m);
    }
  }

  /** In every interleaving: when no other save takes the message buffer between put and send, the
      queue receives the message of the saved task. */
  lemma UntakenMessageIsSent(w: Work, before: seq<Step>, i: nat, between: seq<Step>)
    requires Runs(w, Start(|w.tasks|), before)
    requires var s := After(w, Start(|w.tasks|), before);
             && Enabled(w, s, PutMsg(i))
             && Runs(w, Apply(w, s, PutMsg(i)), between)
             && forall step | step in between :: !Takes(step, s.saves[i].m) && step != Send(i)
    ensures var s := After(w, Apply(w, After(w, Start(|w.tasks|), before), PutMsg(i)), between);
            && Enabled(w, s, Send(i))
            && Apply(w, s, Send(i)).queue == s.queue + [(i, Expected(w, i))]
  {
    InvRun(w, Start(|w.tasks|), before);
    var s := After(w, Start(|w.tasks|), before);
    assert SaveOk(w, s, i);
    InvStep(w, s, PutMsg(i));
    WaitingRun(w, Apply(w, s, PutMsg(i)), between, i, s.saves[i].m);
  }

  /** In every interleaving the pool holds only empty buffers, no two buffers share an array, and a
      buffer in use belongs to one save and not to the pool. */
  lemma PoolStaysClean(w: Work, steps: seq<Step>)
    requires Runs(w, Start(|w.tasks|), steps)
    ensures MemoryOk(After(w, Start(|w.tasks|), steps)) && OwnershipOk(After(w, Start(|w.tasks|), steps))
  {
    InvRun(w, Start(|w.tasks|), steps);
  }

  /** The buffer is in the pool or belongs to a save. */
  ghost predicate Kept(s: State, b: nat) {
    b in s.pool || exists i :: 0 <= i < |s.saves| && Owns(s.saves[i], b)
  }

  /** A buffer gets lost exactly when a save that owns it fails. */
  lemma LostOnlyByFailing(w: Work, s: State, step: Step, b: nat)
    requires Inv(w, s) && Enabled(w, s, step) && b < |Apply(w, s, step).bufs|
    requires b < |s.bufs| ==> Kept(s, b)
    ensures Kept(Apply(w, s, step), b) <==> !(step.Fail? && Owns(s.saves[step.i], b))
  {
    var s', i := Apply(w, s, step), step.i;
    assert SaveOk(w, s, i);
    OwnsItsBuffers(w, s, i);
    assert forall j | 0 <= j < |s.saves| && j != i :: s'.saves[j] == s.saves[j];
    if step.Fail? && Owns(s.saves[i], b) {
      assert b !in s.pool;
      forall j | 0 <= j < |s'.saves|
        ensures !Owns(s'.saves[j], b)
      {
        if j < i {
          assert Apart(s.saves[j], s.saves[i]);
        } else if i < j {
          assert Apart(s.saves[i], s.saves[j]);
        }
      }
    } else if b == |s.bufs| {
      assert Owns(s'.saves[i], b);
    } else if j :| 0 <= j < |s.saves| && Owns(s.saves[j], b) {
      if j != i {
        assert Owns(s'.saves[j], b);
      } else if !Owns(s'.saves[i], b) {
        assert b in s'.pool;
      }
    } else {
      assert b in s.pool;
      if b !in s'.pool {
        assert Owns(s'.saves[i], b);
      }
    }
  }

  /** In every interleaving in which no encoding fails, every buffer ever made is in the pool or in use. */
  lemma {:induction false} BuffersAreKept(w: Work, s: State, steps: seq<Step>)
    requires Inv(w, s) && Runs(w, s, steps) && forall b: nat | b < |s.bufs| :: Kept(s, b)
    requires forall step | step in steps :: !step.Fail?
    ensures forall b: nat | b < |After(w, s, steps).bufs| :: Kept(After(w, s, steps), b)
    decreases |steps|
  {
    if steps != [] {
      assert steps[0] in steps && forall step | step in steps[1..] :: step in steps;
      var s' := Apply(w, s, steps[0]);
      InvStep(w, s, steps[0]);
      forall b: nat | b < |s'.bufs|
        ensures Kept(s', b)
      {
        LostOnlyByFailing(w, s, steps[0], b);
      }
      BuffersAreKept(w, s', steps[1..]);
    }
  }

  // ------------------------------------------------------------------ exactly which step spoils a message

  predicate Writes(step: Step) {
    step.WriteTask? || step.WriteMsg?
  }

  /** The buffer a writing step writes to, and the piece it writes. */
  function Target(w: Work, s: State, step: Step): nat
    requires Enabled(w, s, step) && Writes(step)
  {
    if step.WriteTask? then s.saves[step.i].t else s.saves[step.i].m
  }

  function Piece(w: Work, s: State, step: Step): Bytes
    requires Enabled(w, s, step) && Writes(step)
  {
    var pc := s.saves[step.i];
    if step.WriteTask? then w.tasks[step.i][pc.k] else Wrapping(w, s, step.i, pc.t)[pc.k]
  }

  /** The piece goes, in place, into the array a waiting message still points to, and differs there from
      the message. */
  ghost predicate Differs(s: State, b: nat, piece: Bytes, body: Slice, message: Bytes) {
    && b < |s.bufs| && s.bufs[b].arr == body.arr
    && var at := s.bufs[b].len;
       && at + |piece| <= |ArrayAt(s, body.arr)|
       && exists k :: 0 <= k < |piece| && at + k < |message| && piece[k] != message[at + k]
  }

  ghost predicate Overwrites(w: Work, s: State, step: Step, i: nat)
    requires Enabled(w, s, step) && i < |s.saves| && s.saves[i].BothPut?
  {
    Writes(step) && Differs(s, Target(w, s, step), Piece(w, s, step), s.saves[i].body, Expected(w, i))
  }

  /** Save i waits to send, and its body shows the message of its task. */
  ghost predicate Intact(w: Work, s: State, i: nat) {
    i < |s.saves| == |w.tasks| && s.saves[i].BothPut? && Shown(s, s.saves[i].body) == Expected(w, i)
  }

  /** A step of another save spoils a waiting message if and only if it overwrites it. */
  lemma SpoiledExactlyByOverwriting(w: Work, s: State, step: Step, i: nat)
    requires Inv(w, s) && Enabled(w, s, step) && Intact(w, s, i) && i != step.i
    ensures Apply(w, s, step).saves[i] == s.saves[i]
    ensures Intact(w, Apply(w, s, step), i) <==> !Overwrites(w, s, step, i)
  {
    var pc, body, message := s.saves[step.i], s.saves[i].body, Expected(w, i);
    assert SaveOk(w, s, i) && SaveOk(w, s, step.i);
    OwnsItsBuffers(w, s, step.i);
    match step
    case WriteTask(_, spare) => WriteShows(s, pc.t, Piece(w, s, step), spare, body, message);
    case WriteMsg(_, spare) => WriteShows(s, pc.m, Piece(w, s, step), spare, body, message);
    case EmptyBoth(_) => EmptyTwo(s, pc.t, pc.m);
    case _ =>
  }

  lemma WriteShows(s: State, b: nat, piece: Bytes, spare: Bytes, body: Slice, message: Bytes)
    requires MemoryOk(s) && b < |s.bufs| && body.len == |message| <= |ArrayAt(s, body.arr)| && Shown(s, body) == message
    ensures Shown(Write(s, b, piece, spare), body) == message <==> !Differs(s, b, piece, body, message)
  {
    var Buf(a, at) := s.bufs[b];
    if a == body.arr && at + |piece| <= |s.arrays[a]| {
      OverlayIs(s.arrays[a], at, piece, message);
    }
  }

  /** A piece written over a text that a longer array starts with leaves it iff they agree. */
  lemma OverlayIs(whole: Bytes, at: nat, piece: Bytes, message: Bytes)
    requires at + |piece| <= |whole| && |message| <= |whole| && whole[..|message|] == message
    ensures (whole[..at] + piece + whole[at + |piece|..])[..|message|] == message <==>
            !exists k :: 0 <= k < |piece| && at + k < |message| && piece[k] != message[at + k]
  {
    var now := (whole[..at] + piece + whole[at + |piece|..])[..|message|];
    forall j | 0 <= j < |message|
      ensures now[j] == if at <= j < at + |piece| then piece[j - at] else message[j]
    {
      assert message[j] == whole[..|message|][j];
    }
    if k :| 0 <= k < |piece| && at + k < |message| && piece[k] != message[at + k] {
      assert now[at + k] != message[at + k];
    } else {
      forall j | 0 <= j < |message|
        ensures now[j] == message[j]
      {
        assert at <= j < at + |piece| ==> piece[j - at] == message[at + (j - at)];
      }
    }
  }

  ghost predicate StaysIntact(w: Work, s: State, steps: seq<Step>, i: nat)
    requires Runs(w, s, steps)
    decreases |steps|
  {
    Intact(w, s, i) && (steps == [] || StaysIntact(w, Apply(w, s, steps[0]), steps[1..], i))
  }

  /** No step of the run overwrites the message that save i is waiting to send. */
  ghost predicate NeverOverwritten(w: Work, s: State, steps: seq<Step>, i: nat)
    requires Runs(w, s, steps)
    decreases |steps|
  {
    && i < |s.saves| && s.saves[i].BothPut?
    && (steps == [] || (!Overwrites(w, s, steps[0], i) && NeverOverwritten(w, Apply(w, s, steps[0]), steps[1..], i)))
  }

  lemma {:induction false} IntactRun(w: Work, s: State, steps: seq<Step>, i: nat)
    requires Inv(w, s) && Runs(w, s, steps) && Intact(w, s, i) && Send(i) !in steps
    ensures StaysIntact(w, s, steps, i) <==> NeverOverwritten(w, s, steps, i)
    ensures StaysIntact(w, s, steps, i) ==> Intact(w, After(w, s, steps), i)
    decreases |steps|
  {
    if steps != [] {
      assert steps[0] in steps && Send(i) !in steps[1..];
      var s' := Apply(w, s, steps[0]);
      SpoiledExactlyByOverwriting(w, s, steps[0], i);
      InvStep(w, s, steps[0]);
      if Intact(w, s', i) {
        IntactRun(w, s', steps[1..], i);
      } else {
        assert !StaysIntact(w, s', steps[1..], i);
      }
    }
  }

  /** In every interleaving, from put to send: the message stays what it should be if and only if no step
      overwrites it, and then the queue receives it. */
  lemma SentUnlessOverwritten(w: Work, before: seq<Step>, i: nat, between: seq<Step>)
    requires Runs(w, Start(|w.tasks|), before)
    requires var s := After(w, Start(|w.tasks|), before);
             Enabled(w, s, PutMsg(i)) && Runs(w, Apply(w, s, PutMsg(i)), between) && Send(i) !in between
    ensures var put := Apply(w, After(w, Start(|w.tasks|), before), PutMsg(i));
            var s := After(w, put, between);
            && (StaysIntact(w, put, between, i) <==> NeverOverwritten(w, put, between, i))
            && (NeverOverwritten(w, put, between, i) ==>
                  Enabled(w, s, Send(i)) && Apply(w, s, Send(i)).queue == s.queue + [(i, Expected(w, i))])
  {
    InvRun(w, Start(|w.tasks|), before);
    var s := After(w, Start(|w.tasks|), before);
    assert SaveOk(w, s, i);
    InvStep(w, s, PutMsg(i));
    IntactRun(w, Apply(w, s, PutMsg(i)), between, i);
  }

  // ------------------------------------------------------------------ a save on its own

  lemma {:induction false} Chain(w: Work, s: State, steps: seq<Step>, more: seq<Step>)
    requires Runs(w, s, steps) && Runs(w, After(w, s, steps), more)
    ensures Runs(w, s, steps + more) && After(w, s, steps + more) == After(w, After(w, s, steps), more)
    decreases |steps|
  {
    if steps == [] {
      assert steps + more == more;
    } else {
      assert (steps + more)[1..] == steps[1..] + more;
      Chain(w, Apply(w, s, steps[0]), steps[1..], more);
    }
  }

  lemma Then(w: Work, s: State, step: Step, rest: seq<Step>)
    requires Enabled(w, s, step) && Runs(w, Apply(w, s, step), rest)
    ensures Runs(w, s, [step] + rest) && After(w, s, [step] + rest) == After(w, Apply(w, s, step), rest)
  {
    assert ([step] + rest)[1..] == rest;
  }

  predicate Working(pc: Pc) {
    !pc.Begin? && !pc.BothPut? && !pc.Sent? && !pc.Failed?
  }

  /** What a working save does next when no encoding fails; grown arrays just fit. */
  function Next(w: Work, s: State, i: nat): Step
    requires i < |s.saves| == |w.tasks| && Working(s.saves[i])
  {
    match s.saves[i]
    case HasTask(_, k) => if k < |w.tasks[i]| then WriteTask(i, []) else GetMsg(i, |s.bufs|)
    case HasBoth(t, _, k) => if k < |Wrapping(w, s, i, t)| then WriteMsg(i, []) else Capture(i)
    case Captured(_, _, _) => EmptyBoth(i)
    case Emptied(_, _, _) => PutTask(i)
    case TaskPut(_, _) => PutMsg(i)
  }

  function Phase(pc: Pc): nat {
    match pc
    case HasTask(_, _) => 5
    case HasBoth(_, _, _) => 4
    case Captured(_, _, _) => 3
    case Emptied(_, _, _) => 2
    case TaskPut(_, _) => 1
    case _ => 0
  }

  /** The pieces of the encoding under way that are not yet written. */
  function Left(w: Work, pc: Pc, i: nat): int
    requires i < |w.tasks|
  {
    match pc
    case HasTask(_, k) => |w.tasks[i]| - k
    case HasBoth(_, _, k) => |Pieces(w, i)| - k
    case _ => 0
  }

  predicate Closer(w: Work, pc': Pc, pc: Pc, i: nat)
    requires i < |w.tasks|
  {
    Phase(pc') < Phase(pc) || (Phase(pc') == Phase(pc) && 0 <= Left(w, pc', i) < Left(w, pc, i))
  }

  predicate Full(s: State, b: nat) {
    b < |s.bufs| && |ArrayAt(s, s.bufs[b].arr)| == s.bufs[b].len
  }

  /** The array of the encoding under way, later of the body, has no room to spare. */
  predicate Snug(s: State, pc: Pc) {
    match pc
    case HasTask(t, _) => Full(s, t)
    case HasBoth(_, m, _) => Full(s, m)
    case Captured(_, _, body) => |ArrayAt(s, body.arr)| == body.len
    case Emptied(_, _, body) => |ArrayAt(s, body.arr)| == body.len
    case TaskPut(_, body) => |ArrayAt(s, body.arr)| == body.len
    case BothPut(_, body) => |ArrayAt(s, body.arr)| == body.len
    case _ => true
  }

  lemma NextIsEnabled(w: Work, s: State, i: nat)
    requires Inv(w, s) && i < |s.saves| && Working(s.saves[i])
    ensures Enabled(w, s, Next(w, s, i))
    ensures var pc, pc' := s.saves[i], Apply(w, s, Next(w, s, i)).saves[i];
            && Apply(w, s, Next(w, s, i)).saves == s.saves[i := pc']
            && (if Working(pc') then Closer(w, pc', pc, i) else pc'.BothPut?)
            && Apply(w, s, Next(w, s, i)).queue == s.queue
  {
    assert SaveOk(w, s, i);
  }

  lemma NextStaysSnug(w: Work, s: State, i: nat)
    requires Inv(w, s) && i < |s.saves| && Working(s.saves[i]) && Enabled(w, s, Next(w, s, i))
    ensures var s' := Apply(w, s, Next(w, s, i)); Snug(s, s.saves[i]) ==> Snug(s', s'.saves[i])
  {
    var pc := s.saves[i];
    assert SaveOk(w, s, i);
    OwnsItsBuffers(w, s, i);
    match Next(w, s, i)
    case WriteTask(_, _) => WriteFull(s, pc.t, w.tasks[i][pc.k]);
    case WriteMsg(_, _) => WriteFull(s, pc.m, Pieces(w, i)[pc.k]);
    case EmptyBoth(_) => EmptyTwo(s, pc.t, pc.m);
    case _ =>
  }

  lemma WriteFull(s: State, b: nat, bytes: Bytes)
    requires MemoryOk(s)
    ensures Full(s, b) ==> Full(Write(s, b, bytes, []), b)
  {
  }

  /** From s to s', save i has done its work up to sending, its message buffer is back in the pool, and
      nothing else has happened. */
  ghost predicate PutAlone(w: Work, s: State, s': State, i: nat) {
    Advanced(w, s, s', i) && s'.saves[i].BothPut? && Waiting(w, s', i, s'.saves[i].m)
  }

  /** From s to s', nothing has happened but steps of save i before its send. */
  ghost predicate Advanced(w: Work, s: State, s': State, i: nat) {
    && Inv(w, s') && i < |s.saves| == |s'.saves| && s'.saves == s.saves[i := s'.saves[i]] && s'.queue == s.queue
    && (Snug(s, s.saves[i]) ==> Snug(s', s'.saves[i]))
  }

  lemma AdvancedFurther(w: Work, s: State, s': State, s'': State, i: nat)
    requires Advanced(w, s, s', i) && Advanced(w, s', s'', i)
    ensures Advanced(w, s, s'', i)
  {
  }

  lemma GoesOn(w: Work, s: State, i: nat)
    requires Inv(w, s) && i < |s.saves| && Working(s.saves[i])
    ensures Enabled(w, s, Next(w, s, i)) && Advanced(w, s, Apply(w, s, Next(w, s, i)), i)
    ensures var pc, s' := s.saves[i], Apply(w, s, Next(w, s, i));
            var pc' := s'.saves[i];
            if Working(pc') then Closer(w, pc', pc, i) else PutAlone(w, s, s', i)
  {
    var step := Next(w, s, i);
    NextIsEnabled(w, s, i);
    NextStaysSnug(w, s, i);
    InvStep(w, s, step);
    assert SaveOk(w, s, i);
  }

  /** A save that has begun can always go on by itself to the point where it sends the message of its task. */
  lemma {:induction false} SaveIsNeverStuck(w: Work, s: State, i: nat)
    requires Inv(w, s) && i < |s.saves| && Working(s.saves[i])
    ensures exists steps :: Runs(w, s, steps) && PutAlone(w, s, After(w, s, steps), i)
    decreases Phase(s.saves[i]), Left(w, s.saves[i], i)
  {
    var step := Next(w, s, i);
    GoesOn(w, s, i);
    var s' := Apply(w, s, step);
    if Working(s'.saves[i]) {
      SaveIsNeverStuck(w, s', i);
      var rest :| Runs(w, s', rest) && PutAlone(w, s', After(w, s', rest), i);
      Then(w, s, step, rest);
      AdvancedFurther(w, s, s', After(w, s', rest), i);
      assert PutAlone(w, s, After(w, s, [step] + rest), i);
    } else {
      Then(w, s, step, []);
    }
  }

  // ------------------------------------------------------------------ it does happen

  /** With the buffer back in the pool, save j takes it for its task and writes a piece that fits in
      place: the waiting message then begins with that piece. */
  lemma TakenAndWritten(w: Work, s: State, i: nat, m: nat, j: nat)
    requires Inv(w, s) && Waiting(w, s, i, m) && j < |s.saves| && s.saves[j].Begin?
    requires w.tasks[j] != [] && |w.tasks[j][0]| <= |Expected(w, i)|
    ensures Runs(w, s, [GetTask(j, m), WriteTask(j, [])])
    ensures var s' := After(w, s, [GetTask(j, m), WriteTask(j, [])]);
            var piece, body := w.tasks[j][0], s.saves[i].body;
            && Inv(w, s') && s'.queue == s.queue && s'.saves == s.saves[j := HasTask(m, 1)]
            && Shown(s', body) == piece + Expected(w, i)[|piece|..]
            && m < |s'.bufs| && s'.bufs[m] == Buf(body.arr, |piece|)
            && |ArrayAt(s', body.arr)| == |ArrayAt(s, body.arr)|
  {
    assert SaveOk(w, s, i);
    var take, write := GetTask(j, m), WriteTask(j, []);
    var s1 := Apply(w, s, take);
    InvStep(w, s, take);
    assert s1 == s.(pool := s.pool - {m}, saves := s.saves[j := HasTask(m, 0)]) && s.bufs[m].len == 0;
    InvStep(w, s1, write);
    FirstPieceShows(s1, m, w.tasks[j][0], s.saves[i].body, Expected(w, i));
    Then(w, s1, write, []);
    Then(w, s, take, [write]);
  }

  /** A piece written in place to the empty buffer whose array the body shows. */
  lemma FirstPieceShows(s: State, m: nat, piece: Bytes, body: Slice, message: Bytes)
    requires MemoryOk(s) && m < |s.bufs| && s.bufs[m] == Buf(body.arr, 0)
    requires body.len == |message| && Shown(s, body) == message && |piece| <= |message| <= |ArrayAt(s, body.arr)|
    ensures var s' := Write(s, m, piece, []);
            && Shown(s', body) == piece + message[|piece|..] && |s'.bufs| == |s.bufs|
            && s'.bufs[m] == Buf(body.arr, |piece|) && |ArrayAt(s', body.arr)| == |ArrayAt(s, body.arr)|
  {
  }

  /** Save i is about to send, all of it intact, and no other save has begun. */
  ghost predicate OnlyPut(w: Work, s: State, i: nat) {
    && Inv(w, s) && i < |w.tasks| && s.saves == Start(|w.tasks|).saves[i := s.saves[i]] && s.queue == []
    && s.saves[i].BothPut? && Waiting(w, s, i, s.saves[i].m) && Snug(s, s.saves[i])
  }

  lemma OnlyPutFromStart(w: Work, i: nat)
    requires i < |w.tasks|
    ensures exists steps :: Runs(w, Start(|w.tasks|), steps) && OnlyPut(w, After(w, Start(|w.tasks|), steps), i)
  {
    var start, take := Start(|w.tasks|), GetTask(i, 0);
    InvStep(w, start, take);
    var s := Apply(w, start, take);
    SaveIsNeverStuck(w, s, i);
    var rest :| Runs(w, s, rest) && PutAlone(w, s, After(w, s, rest), i);
    Then(w, start, take, rest);
    assert Snug(s, s.saves[i]);
    assert OnlyPut(w, After(w, start, [take] + rest), i);
  }

  /** Save i is about to send, and save j has written the first piece of its task over the message. */
  ghost predicate FirstPieceIn(w: Work, s: State, i: nat, j: nat)
    requires i < |w.tasks| && j < |w.tasks| && w.tasks[j] != [] && |w.tasks[j][0]| <= |Expected(w, i)|
  {
    var piece := w.tasks[j][0];
    && Inv(w, s) && s.queue == [] && i != j && s.saves[i].BothPut? && s.saves[j].HasTask? && s.saves[j].k == 1
    && var body, m := s.saves[i].body, s.saves[j].t;
       && Shown(s, body) == piece + Expected(w, i)[|piece|..]
       && m < |s.bufs| && s.bufs[m] == Buf(body.arr, |piece|)
       && |ArrayAt(s, body.arr)| == |Expected(w, i)|
  }

  lemma FirstPieceFromStart(w: Work, i: nat, j: nat)
    requires i < |w.tasks| && j < |w.tasks| && i != j
    requires w.tasks[j] != [] && |w.tasks[j][0]| <= |Expected(w, i)|
    ensures exists steps ::
              Runs(w, Start(|w.tasks|), steps) && FirstPieceIn(w, After(w, Start(|w.tasks|), steps), i, j)
  {
    OnlyPutFromStart(w, i);
    var start := Start(|w.tasks|);
    var steps :| Runs(w, start, steps) && OnlyPut(w, After(w, start, steps), i);
    var s := After(w, start, steps);
    var taken := [GetTask(j, s.saves[i].m), WriteTask(j, [])];
    TakenAndWritten(w, s, i, s.saves[i].m, j);
    Chain(w, start, steps, taken);
    assert FirstPieceIn(w, After(w, s, taken), i, j);
  }

  /** The queue holds nothing but the message of save i, overwritten at its beginning. */
  ghost predicate SentMixed(w: Work, s: State, i: nat, piece: Bytes)
    requires i < |w.tasks|
  {
    |piece| <= |Expected(w, i)| && s.queue == [(i, piece + Expected(w, i)[|piece|..])]
  }

  /** For any two saves there is a run from the start in which one puts its buffers back, the other takes
      the message buffer and writes the first piece of its task there, and only then is the message sent:
      wrong unless it happens to begin with that piece. The task may be longer than the message. */
  lemma MixedMessageIsSent(w: Work, i: nat, j: nat)
    requires i < |w.tasks| && j < |w.tasks| && i != j
    requires w.tasks[j] != [] && |w.tasks[j][0]| <= |Expected(w, i)|
    ensures exists steps :: Runs(w, Start(|w.tasks|), steps)
              && SentMixed(w, After(w, Start(|w.tasks|), steps), i, w.tasks[j][0])
    ensures var piece := w.tasks[j][0];
            piece + Expected(w, i)[|piece|..] == Expected(w, i) <==> piece <= Expected(w, i)
  {
    var start, piece := Start(|w.tasks|), w.tasks[j][0];
    FirstPieceFromStart(w, i, j);
    var steps :| Runs(w, start, steps) && FirstPieceIn(w, After(w, start, steps), i, j);
    SendNow(w, steps, i);
    assert SentMixed(w, After(w, start, steps + [Send(i)]), i, piece);
    assert (piece + Expected(w, i)[|piece|..])[..|piece|] == piece;
  }

  /** Save i is about to send, and save j has written both pieces of its task, the first over the message. */
  ghost predicate BothPiecesOut(w: Work, s: State, i: nat, j: nat)
    requires i < |w.tasks| && j < |w.tasks| && w.tasks[j] != [] && |w.tasks[j][0]| <= |Expected(w, i)|
  {
    var piece := w.tasks[j][0];
    && s.queue == [] && i != j && i < |s.saves| == |w.tasks| && s.saves[i].BothPut?
    && s.saves[j].HasTask? && s.saves[j].k == 2
    && Shown(s, s.saves[i].body) == piece + Expected(w, i)[|piece|..]
  }

  /** A second piece that does not fit goes to a new array: what the waiting message shows stays. */
  lemma WrittenElsewhere(w: Work, s: State, i: nat, j: nat)
    requires i < |w.tasks| && j < |w.tasks| && |w.tasks[j]| == 2
    requires |w.tasks[j][0]| <= |Expected(w, i)| < |w.tasks[j][0]| + |w.tasks[j][1]|
    requires FirstPieceIn(w, s, i, j)
    ensures Enabled(w, s, WriteTask(j, [])) && BothPiecesOut(w, Apply(w, s, WriteTask(j, [])), i, j)
  {
  }

  lemma BothPiecesFromStart(w: Work, i: nat, j: nat)
    requires i < |w.tasks| && j < |w.tasks| && i != j
    requires |w.tasks[j]| == 2 && |w.tasks[j][0]| <= |Expected(w, i)| < |Flat(w.tasks[j])|
    ensures exists steps ::
              Runs(w, Start(|w.tasks|), steps) && BothPiecesOut(w, After(w, Start(|w.tasks|), steps), i, j)
  {
    var start := Start(|w.tasks|);
    FirstPieceFromStart(w, i, j);
    var steps :| Runs(w, start, steps) && FirstPieceIn(w, After(w, start, steps), i, j);
    var s := After(w, start, steps);
    FlatTwo(w.tasks[j]);
    WrittenElsewhere(w, s, i, j);
    Then(w, s, WriteTask(j, []), []);
    Chain(w, start, steps, [WriteTask(j, [])]);
    assert BothPiecesOut(w, After(w, start, steps + [WriteTask(j, [])]), i, j);
  }

  /** The same message is sent in a run in which the other save first writes all of its task, when its two
      pieces together do not fit: the second goes to a new array. */
  lemma MixedThoughItDidNotFit(w: Work, i: nat, j: nat)
    requires i < |w.tasks| && j < |w.tasks| && i != j
    requires |w.tasks[j]| == 2 && |w.tasks[j][0]| <= |Expected(w, i)| < |Flat(w.tasks[j])|
    ensures exists steps :: Runs(w, Start(|w.tasks|), steps)
              && var s := After(w, Start(|w.tasks|), steps);
                 SentMixed(w, s, i, w.tasks[j][0]) && j < |s.saves| && s.saves[j].HasTask? && s.saves[j].k == 2
  {
    var start := Start(|w.tasks|);
    BothPiecesFromStart(w, i, j);
    var steps :| Runs(w, start, steps) && BothPiecesOut(w, After(w, start, steps), i, j);
    SendNow(w, steps, i);
    assert SentMixed(w, After(w, start, steps + [Send(i)]), i, w.tasks[j][0]);
  }

  lemma FlatTwo(pieces: seq<Bytes>)
    requires |pieces| == 2
    ensures |Flat(pieces)| == |pieces[0]| + |pieces[1]|
  {
    FlatNext(pieces, 0);
    FlatNext(pieces, 1);
    assert pieces[..2] == pieces;
  }

  lemma SendNow(w: Work, steps: seq<Step>, i: nat)
    requires Runs(w, Start(|w.tasks|), steps)
    requires var s := After(w, Start(|w.tasks|), steps); i < |s.saves| == |w.tasks| && s.saves[i].BothPut?
    ensures Runs(w, Start(|w.tasks|), steps + [Send(i)])
    ensures var s, s' := After(w, Start(|w.tasks|), steps), After(w, Start(|w.tasks|), steps + [Send(i)]);
            s'.saves == s.saves[i := Sent] && s'.queue == s.queue + [(i, Shown(s, s.saves[i].body))]
  {
    var s := After(w, Start(|w.tasks|), steps);
    Then(w, s, Send(i), []);
    Chain(w, Start(|w.tasks|), steps, [Send(i)]);
  }
}
