/**
 The bounded queue between posters and workers: a ring buffer under a mutex. Every method does
 to the ring buffer what the thread pool's transition does to its queue; a call that has to wait
 leaves it alone.
 */
module BlockingQueue {
  import opened Seqs
  import opened CircularQueue
  import opened ThreadPool

  class MpmcBlockingQueue {
    const q: CircularQ<Msg>

    /** The ring buffer holds the pool's queue, and has counted the messages that were dropped. */
    ghost predicate Holds(p: Pool, s: State)
      reads q, q.v
    {
      q.Valid() && q.Conserved() && q.maxItems == p.capacity + 1 && |s.queue| <= p.capacity &&
      q.Contents() == s.queue && q.overrunCounter == |s.dropped|
    }

    constructor (maxItems: nat, ghost p: Pool)
      requires p.capacity == maxItems
      ensures Holds(p, Initial(p)) && fresh(q) && fresh(q.v)
    {
      q := new CircularQ<Msg>(maxItems);
    }

    /** What a poster that may wait does, and the destructor; `done` says that there was room. */
    method Enqueue(m: Msg, ghost p: Pool, ghost s: State) returns (done: bool)
      requires Holds(p, s) && p.Ok()
      modifies q, q.v
      ensures q.v == old(q.v) && (done <==> |s.queue| < p.capacity)
      ensures Holds(p, if done then Push(s, m) else s)
      ensures !s.stopping && !m.Terminate? ==> Holds(p, Post(p, s, m, Block))
      ensures s.stopping && s.posted < p.threads && m.Terminate? ==> Holds(p, Destroy(p, s))
    {
      var full := q.Full();
      done := !full;
      if done {
        q.PushBack(m);
      }
    }

    /** What a poster does that drops the oldest message where there is no room. */
    method EnqueueNowait(m: Msg, ghost p: Pool, ghost s: State)
      requires Holds(p, s) && p.Ok()
      modifies q, q.v
      ensures q.v == old(q.v)
      ensures !s.stopping && !m.Terminate? ==> Holds(p, Post(p, s, m, OverrunOldest))
    {
      q.PushBack(m);
    }

    /** What a waiting worker does; None when the time is up and there is no message. */
    method DequeueFor(ghost p: Pool, ghost s: State, ghost w: nat) returns (r: Option<Msg>)
      requires Holds(p, s) && w < |s.workers| && s.workers[w] == Waiting
      modifies q
      ensures q.v == old(q.v) && Holds(p, WorkerStep(s, w))
      ensures r == if s.queue == [] then None else Some(s.queue[0])
    {
      var empty := q.Empty();
      if empty {
        return None;
      }
      var item := q.Front();
      q.PopFront();
      return Some(item);
    }

    method Size(ghost p: Pool, ghost s: State) returns (n: nat)
      requires Holds(p, s)
      ensures n == |s.queue|
    {
      n := q.Size();
    }
  }
}
