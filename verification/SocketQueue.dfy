/** The queue of accepted sockets: a ring of 20 slots whose indices are wrapped by the consumer only. */
module SocketQueue {

  const QUEUE_SIZE := 20

  datatype Socket = Socket(fd: int)

  /** The ring as a value: the state of the fields that the mutex protects. */
  datatype Ring = Ring(slots: seq<Socket>, head: int, tail: int) {
    ghost predicate Valid() {
      |slots| == QUEUE_SIZE && 0 <= tail <= QUEUE_SIZE && tail <= head <= tail + QUEUE_SIZE
    }

    ghost function Contents(): seq<Socket>
      requires Valid()
    {
      seq(head - tail, k requires 0 <= k < head - tail => slots[(tail + k) % QUEUE_SIZE])
    }

    ghost predicate Full() { head - tail >= QUEUE_SIZE }

    ghost predicate Empty() { head == tail }

    ghost function Put(s: Socket): Ring
      requires Valid() && !Full()
    {
      Ring(slots[head % QUEUE_SIZE := s], head + 1, tail)
    }

    ghost function Take(): (Socket, Ring)
      requires Valid() && !Empty()
    {
      var s := slots[tail % QUEUE_SIZE];
      if tail + 1 > QUEUE_SIZE
      then (s, Ring(slots, head - QUEUE_SIZE, tail + 1 - QUEUE_SIZE))
      else (s, Ring(slots, head, tail + 1))
    }
  }

  /** Two live positions of the ring are never the same slot. */
  lemma SlotsDistinct(tail: int, j: int, k: int)
    requires 0 <= tail && 0 <= j < k < QUEUE_SIZE
    ensures (tail + j) % QUEUE_SIZE != (tail + k) % QUEUE_SIZE
  {
  }

  /** Putting appends: no waiting socket is overwritten, and none changes its place. */
  lemma PutAppends(r: Ring, s: Socket)
    requires r.Valid() && !r.Full()
    ensures r.Put(s).Valid()
    ensures r.Put(s).Contents() == r.Contents() + [s]
  {
    var p := r.Put(s);
    var n := r.head - r.tail;
    forall k | 0 <= k < n
      ensures p.Contents()[k] == r.Contents()[k]
    {
      SlotsDistinct(r.tail, k, n);
    }
  }

  /** Taking removes the oldest socket, across the wrap-around as well. */
  lemma TakeRemovesFirst(r: Ring)
    requires r.Valid() && !r.Empty()
    ensures r.Take().1.Valid()
    ensures r.Contents() == [r.Take().0] + r.Take().1.Contents()
  {
    var t := r.Take().1;
    forall k | 0 <= k < r.head - r.tail - 1
      ensures t.Contents()[k] == r.Contents()[k + 1]
    {
      assert (t.tail + k) % QUEUE_SIZE == (r.tail + 1 + k) % QUEUE_SIZE;
    }
  }

  /** The fields of the server context that the queue uses. */
  class Context {
    const queue: array<Socket>
    var sqHead: int
    var sqTail: int
    var stopFlag: int

    ghost predicate Valid()
      reads this, queue
    {
      Value().Valid()
    }

    ghost function Value(): Ring
      reads this, queue
    {
      Ring(queue[..], sqHead, sqTail)
    }

    constructor ()
      ensures Valid() && fresh(queue)
      ensures Value().Contents() == [] && stopFlag == 0
    {
      queue := new Socket[QUEUE_SIZE](_ => Socket(0));
      sqHead, sqTail, stopFlag := 0, 0, 0;
    }

    /** The wait condition of the consumer. */
    predicate MustWaitForSocket()
      reads this
    {
      sqHead == sqTail && stopFlag == 0
    }

    /** The wait condition of the producer. */
    predicate MustWaitForRoom()
      reads this
    {
      stopFlag == 0 && sqHead - sqTail >= QUEUE_SIZE
    }

    /** What a worker does under the mutex once it no longer has to wait. */
    method TakeSocket(client: Socket) returns (sp: Socket, grabbed: bool)
      requires Valid() && !MustWaitForSocket()
      modifies this`sqHead, this`sqTail
      ensures Valid()
      ensures grabbed <==> old(Value().Contents()) != []
      ensures grabbed ==> old(Value().Contents()) == [sp] + Value().Contents() && (sp, Value()) == old(Value()).Take()
      ensures !grabbed ==> sp == client && Value() == old(Value()) && stopFlag != 0
    {
      sp, grabbed := client, false;
      if sqHead > sqTail {
        TakeRemovesFirst(Value());
        sp, grabbed := queue[sqTail % queue.Length], true;
        sqTail := sqTail + 1;
        while sqTail > queue.Length
          invariant 1 <= sqTail <= QUEUE_SIZE + 1
          invariant sqHead - sqTail == old(sqHead - sqTail) - 1
          invariant sqTail == old(sqTail) + 1 || (old(sqTail) == QUEUE_SIZE && sqTail == 1)
          decreases sqTail
        {
          sqTail := sqTail - queue.Length;
          sqHead := sqHead - queue.Length;
        }
      }
    }

    /** What the master does under the mutex once it no longer has to wait. */
    method PutSocket(sp: Socket) returns (queued: bool)
      requires Valid() && !MustWaitForRoom()
      modifies this`sqHead, queue
      ensures Valid()
      ensures queued ==> Value().Contents() == old(Value().Contents()) + [sp] && Value() == old(Value()).Put(sp)
      ensures !queued ==> Value() == old(Value()) && stopFlag != 0
      ensures queued <==> |old(Value().Contents())| < QUEUE_SIZE
    {
      queued := false;
      if sqHead - sqTail < queue.Length {
        PutAppends(Value(), sp);
        queue[sqHead % queue.Length] := sp;
        sqHead := sqHead + 1;
        queued := true;
      }
    }
  }
}
