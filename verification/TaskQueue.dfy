/** Saving a task through pooled byte buffers (pkg/services/tasks.go), one save at a time: the message
    body still points into a buffer that has already been reset and put back into the pool. */
module TaskQueue {

  import opened Common

  type Bytes = seq<bv8>

  /** gob: the encoding of a task (None an error) and of the wrapper with the task's name, each in the
      pieces that the encoder writes. */
  datatype Codec<!Task> = Codec(encode: Task -> Option<seq<Bytes>>, decode: Bytes -> Option<Task>,
                               wrap: (string, Bytes) -> Option<seq<Bytes>>,
                               unwrap: Bytes -> Option<(string, Bytes)>, name: Task -> string)

  ghost predicate Lossless<Task(!new)>(codec: Codec<Task>) {
    && (forall t :: codec.encode(t).Some? ==> codec.decode(Flat(codec.encode(t).value)) == Some(t))
    && (forall n, b :: codec.wrap(n, b).Some? ==> codec.unwrap(Flat(codec.wrap(n, b).value)) == Some((n, b)))
  }

  /** The bytes a save of `task` hands to the queue. */
  function MessageOf<Task>(codec: Codec<Task>, task: Task): Option<Bytes> {
    var body := codec.encode(task);
    if body.None? then None
    else
      var message := codec.wrap(codec.name(task), Flat(body.value));
      if message.None? then None else Some(Flat(message.value))
  }

  /** What the runner gets out of a message: the task's name and the task. */
  function Received<Task>(codec: Codec<Task>, message: Bytes): Option<(string, Task)> {
    var wrapper := codec.unwrap(message);
    if wrapper.None? then None
    else
      var task := codec.decode(wrapper.value.1);
      if task.None? then None else Some((wrapper.value.0, task.value))
  }

  lemma SavedTaskIsReceived<Task(!new)>(codec: Codec<Task>, task: Task)
    requires Lossless(codec) && MessageOf(codec, task).Some?
    ensures Received(codec, MessageOf(codec, task).value) == Some((codec.name(task), task))
  {
    var body := Flat(codec.encode(task).value);
    assert codec.decode(body) == Some(task);
    assert codec.unwrap(Flat(codec.wrap(codec.name(task), body).value)) == Some((codec.name(task), body));
  }

  /** bytes.Buffer: the first `len` bytes of a backing array. */
  class Buffer {
    var data: array<bv8>
    var len: nat

    predicate Valid()
      reads this
    {
      len <= data.Length
    }

    constructor ()
      ensures Valid() && len == 0 && fresh(data)
    {
      data := new bv8[0];
      len := 0;
    }

    function Contents(): Bytes
      requires Valid()
      reads this, data
    {
      data[..len]
    }

    /** Appends in place when there is room, and otherwise in a new, larger array. */
    method Write(bytes: Bytes)
      requires Valid()
      modifies this, data
      ensures Valid() && Contents() == old(Contents()) + bytes
      ensures data == old(data) || fresh(data)
    {
      if len + |bytes| > data.Length {
        var bigger := new bv8[2 * data.Length + |bytes|];
        forall i | 0 <= i < len {
          bigger[i] := data[i];
        }
        data := bigger;
      }
      var start := len;
      forall i | 0 <= i < |bytes| {
        data[start + i] := bytes[i];
      }
      len := start + |bytes|;
      assert data[..start] == old(data[..len]);
      assert data[start..len] == bytes;
      assert data[..len] == data[..start] + data[start..len];
    }

    /** Forgets the contents but keeps the array. */
    method Reset()
      modifies this`len
      ensures len == 0
    {
      len := 0;
    }
  }

  /** A Go slice: it shares the array of the buffer it was taken from. */
  datatype Slice = Slice(data: array<bv8>, len: nat)

  class TaskClient<!Task> {
    const codec: Codec<Task>
    var pool: seq<Buffer>
    var queue: seq<Bytes>

    constructor (codec: Codec<Task>)
      ensures Valid() && this.codec == codec && queue == []
    {
      this.codec, pool, queue := codec, [], [];
    }

    /** The pool holds empty buffers, no buffer twice, and no two buffers share an array. */
    ghost predicate Valid()
      reads this, pool
    {
      && (forall i | 0 <= i < |pool| :: pool[i].Valid() && pool[i].len == 0)
      && (forall i, j | 0 <= i < j < |pool| :: pool[i] != pool[j] && pool[i].data != pool[j].data)
    }

    ghost function Arrays(): set<array<bv8>>
      reads this, pool
    {
      set b | b in pool :: b.data
    }

    /** sync.Pool hands out any pooled buffer, or a new one (`choice` out of range). */
    method Get(choice: nat) returns (b: Buffer)
      requires Valid()
      modifies this`pool
      ensures Valid() && b.Valid() && b.len == 0
      ensures b !in pool && b.data !in Arrays()
      ensures b in old(pool) || (fresh(b) && fresh(b.data))
      ensures forall p | p in pool :: p in old(pool)
    {
      if choice < |pool| {
        b := pool[choice];
        pool := pool[..choice] + pool[choice + 1..];
      } else {
        b := new Buffer();
      }
    }

    method Put(b: Buffer)
      requires Valid() && b.Valid() && b.len == 0 && b !in pool && b.data !in Arrays()
      modifies this`pool
      ensures Valid() && pool == old(pool) + [b]
    {
      pool := pool + [b];
    }

    /** The queue copies the bytes the slice shows at this moment. */
    method Send(body: Slice)
      requires body.len <= body.data.Length
      modifies this`queue
      ensures queue == old(queue) + [body.data[..body.len]]
    {
      queue := queue + [body.data[..body.len]];
    }

    /** Takes a buffer and encodes into it, piece by piece. */
    method Filled(pieces: seq<Bytes>, choice: nat) returns (b: Buffer)
      requires Valid()
      modifies this`pool, pool, Arrays()
      ensures Valid() && (forall p | p in pool :: p in old(pool) && p.data == old(p.data))
      ensures b.Valid() && b.Contents() == Flat(pieces) && b !in pool && b.data !in Arrays()
      ensures b in old(pool) || fresh(b)
      ensures b.data in old(Arrays()) || fresh(b.data)
    {
      b := Get(choice);
      for n := 0 to |pieces|
        invariant b.Valid() && b.Contents() == Flat(pieces[..n])
        invariant b.data in old(Arrays()) || fresh(b.data)
        invariant b.data !in Arrays()
        invariant Valid() && forall p | p in pool :: p in old(pool) && p.data == old(p.data)
      {
        b.Write(pieces[n]);
        FlatNext(pieces, n);
      }
      assert pieces[..|pieces|] == pieces;
    }

    /** Both resets, then both puts. */
    method GiveBack(taskBuf: Buffer, msgBuf: Buffer)
      requires Valid() && taskBuf.Valid() && msgBuf.Valid()
      requires taskBuf !in pool && msgBuf !in pool && taskBuf != msgBuf
      requires taskBuf.data !in Arrays() && msgBuf.data !in Arrays() && taskBuf.data != msgBuf.data
      modifies this`pool, taskBuf`len, msgBuf`len
      ensures Valid() && pool == old(pool) + [taskBuf, msgBuf]
    {
      taskBuf.Reset();
      msgBuf.Reset();
      Put(taskBuf);
      Put(msgBuf);
    }

    /** The end of Save: the body is taken, the buffers are reset and pooled, the body is sent. */
    method Deliver(taskBuf: Buffer, msgBuf: Buffer)
      requires Valid() && taskBuf.Valid() && msgBuf.Valid()
      requires taskBuf !in pool && msgBuf !in pool && taskBuf != msgBuf
      requires taskBuf.data !in Arrays() && msgBuf.data !in Arrays() && taskBuf.data != msgBuf.data
      modifies this`pool, this`queue, taskBuf`len, msgBuf`len
      ensures Valid() && queue == old(queue) + [old(msgBuf.Contents())]
    {
      var body := Slice(msgBuf.data, msgBuf.len);
      GiveBack(taskBuf, msgBuf);
      Send(body);
    }

    /** In every serial run the pool stays a set of empty, separate buffers, and although the body was
        reset and pooled before it is sent, the queue receives the message of the saved task. */
    method Save(task: Task, choice1: nat, choice2: nat) returns (ok: bool)
      requires Valid()
      modifies this, pool, Arrays()
      ensures Valid()
      ensures ok <==> MessageOf(codec, task).Some?
      ensures ok <==> codec.encode(task).Some?
                      && codec.wrap(codec.name(task), Flat(codec.encode(task).value)).Some?
      ensures queue == if MessageOf(codec, task).Some? then old(queue) + [MessageOf(codec, task).value] else old(queue)
    {
      var encoded := codec.encode(task);
      if encoded.None? {
        var lost := Get(choice1); // taken, and on this path never put back
        return false;
      }
      var taskBuf := Filled(encoded.value, choice1);
      var wrapped := codec.wrap(codec.name(task), taskBuf.Contents());
      if wrapped.None? {
        var lost := Get(choice2);
        return false;
      }
      var msgBuf := Filled(wrapped.value, choice2);
      Deliver(taskBuf, msgBuf);
      return true;
    }
  }
}
