/**
 The logging thread pool as a transition system: posters put messages into a bounded queue,
 workers take and handle them, and the destructor posts one terminate message per worker,
 waiting for room, before it joins them. Queue operations are atomic, as under the mutex.
 */
module ThreadPool {

  datatype Msg = Log(id: int) | Flush(id: int) | Terminate

  datatype Worker = Waiting | Busy(msg: Msg) | Stopped

  datatype Policy = Block | OverrunOldest

  /**
   `stopping` is set once the destructor runs; it has posted `posted` terminate messages and
   joined `joined` workers. `taken` lists all messages taken so far, `dropped` those
   overrun, `accepted` all that were put into the queue.
   */
  datatype State = State(
    queue: seq<Msg>, workers: seq<Worker>, stopping: bool, posted: nat, joined: nat,
    taken: seq<Msg>, handled: multiset<Msg>, dropped: seq<Msg>, accepted: seq<Msg>)

  datatype Pool = Pool(capacity: nat, threads: nat)
  {
    predicate Ok()
    {
      capacity >= 1 && threads >= 1
    }
  }

  datatype Actor = Poster(msg: Msg, policy: Policy) | DestructorStarts | Destructor | Work(w: nat)

  function Initial(p: Pool): State
  {
    State([], seq(p.threads, _ => Waiting), false, 0, 0, [], multiset{}, [], [])
  }

  function Push(s: State, m: Msg): State
  {
    s.(queue := s.queue + [m], accepted := s.accepted + [m])
  }

  /** Posting waits for room or drops the oldest message. Posters have stopped when the destructor starts. */
  function Post(p: Pool, s: State, m: Msg, policy: Policy): State
  {
    if s.stopping || m.Terminate? then s
    else if |s.queue| < p.capacity then Push(s, m)
    else if policy == Block then s
    else Push(s, m).(queue := (s.queue + [m])[1..], dropped := s.dropped + [(s.queue + [m])[0]])
  }

  /** The destructor posts while there is room, then joins the workers in order. */
  function Destroy(p: Pool, s: State): State
  {
    if !s.stopping then s
    else if s.posted < p.threads then
      if |s.queue| < p.capacity then Push(s, Terminate).(posted := s.posted + 1) else s
    else if s.joined < p.threads && s.joined < |s.workers| && s.workers[s.joined] == Stopped then s.(joined := s.joined + 1)
    else s
  }

  /** A waiting worker takes the oldest message; a terminate message stops it, any other it handles next. */
  function WorkerStep(s: State, w: nat): State
  {
    if w >= |s.workers| then s
    else
      match s.workers[w]
      case Waiting =>
        if s.queue == [] then s
        else
          var m := s.queue[0];
          s.(queue := s.queue[1..], taken := s.taken + [m],
             workers := s.workers[w := if m.Terminate? then Stopped else Busy(m)])
      case Busy(m) => s.(workers := s.workers[w := Waiting], handled := s.handled + multiset{m})
      case Stopped => s
  }

  function Move(p: Pool, s: State, actor: Actor): State
  {
    match actor
    case Poster(m, policy) => Post(p, s, m, policy)
    case DestructorStarts => s.(stopping := true)
    case Destructor => Destroy(p, s)
    case Work(w) => WorkerStep(s, w)
  }

  function After(p: Pool, schedule: seq<Actor>): State
  {
    if schedule == [] then Initial(p)
    else Move(p, After(p, schedule[..|schedule| - 1]), schedule[|schedule| - 1])
  }

  function Terminates(ms: seq<Msg>): nat
  {
    if ms == [] then 0 else Terminates(ms[..|ms| - 1]) + if ms[|ms| - 1].Terminate? then 1 else 0
  }

  lemma {:induction false} TerminatesAppend(a: seq<Msg>, b: seq<Msg>)
    ensures Terminates(a + b) == Terminates(a) + Terminates(b)
    decreases |b|
  {
    if b == [] {
      assert a + b == a;
    } else {
      var m := |b| - 1;
      TerminatesAppend(a, b[..m]);
      assert (a + b)[..|a + b| - 1] == a + b[..m];
    }
  }

  function StoppedIn(ws: seq<Worker>): nat
  {
    if ws == [] then 0 else StoppedIn(ws[..|ws| - 1]) + if ws[|ws| - 1] == Stopped then 1 else 0
  }

  lemma {:induction false} StoppedPut(ws: seq<Worker>, w: nat, x: Worker)
    requires w < |ws|
    ensures StoppedIn(ws[w := x]) == StoppedIn(ws) + (if x == Stopped then 1 else 0) - (if ws[w] == Stopped then 1 else 0)
    decreases |ws|
  {
    var m := |ws| - 1;
    if w < m {
      StoppedPut(ws[..m], w, x);
      assert ws[w := x][..m] == ws[..m][w := x];
    } else {
      assert ws[w := x][..m] == ws[..m];
    }
  }

  lemma {:induction false} StoppedBounded(ws: seq<Worker>)
    ensures StoppedIn(ws) <= |ws|
    ensures StoppedIn(ws) == |ws| <==> forall w :: 0 <= w < |ws| ==> ws[w] == Stopped
    ensures StoppedIn(ws) < |ws| ==> exists w :: 0 <= w < |ws| && ws[w] != Stopped
  {
    if ws != [] {
      var m := |ws| - 1;
      StoppedBounded(ws[..m]);
      if StoppedIn(ws) < |ws| && ws[m] == Stopped {
        var w :| 0 <= w < m && ws[..m][w] != Stopped;
        assert ws[w] != Stopped;
      }
    }
  }

  /** The messages other than terminate messages, as a bag. */
  function Plain(ms: seq<Msg>): multiset<Msg>
  {
    if ms == [] then multiset{}
    else Plain(ms[..|ms| - 1]) + if ms[|ms| - 1].Terminate? then multiset{} else multiset{ms[|ms| - 1]}
  }

  function Held(x: Worker): multiset<Msg>
  {
    if x.Busy? then multiset{x.msg} else multiset{}
  }

  /** The messages workers are busy with. */
  function InHand(ws: seq<Worker>): multiset<Msg>
  {
    if ws == [] then multiset{} else InHand(ws[..|ws| - 1]) + Held(ws[|ws| - 1])
  }

  lemma AddToBoth(a: multiset<Msg>, h: multiset<Msg>, b: multiset<Msg>, x: multiset<Msg>, l: multiset<Msg>)
    requires a + h == b + x
    ensures a + l + h == b + l + x && l + a + h == l + b + x
  {
    assert a + l + h == (a + h) + l && b + l + x == (b + x) + l;
    assert l + a + h == (a + h) + l && l + b + x == (b + x) + l;
  }

  lemma {:induction false} InHandPut(ws: seq<Worker>, w: nat, x: Worker)
    requires w < |ws|
    ensures InHand(ws[w := x]) + Held(ws[w]) == InHand(ws) + Held(x)
    decreases |ws|
  {
    hide Held;
    var m := |ws| - 1;
    if w < m {
      InHandPut(ws[..m], w, x);
      assert ws[w := x][..m] == ws[..m][w := x];
      AddToBoth(InHand(ws[..m][w := x]), Held(ws[w]), InHand(ws[..m]), Held(x), Held(ws[m]));
    } else {
      assert ws[w := x][..m] == ws[..m];
    }
  }

  lemma {:induction false} NothingInHand(ws: seq<Worker>)
    requires forall w :: 0 <= w < |ws| ==> !ws[w].Busy?
    ensures InHand(ws) == multiset{}
  {
    if ws != [] {
      NothingInHand(ws[..|ws| - 1]);
    }
  }

  /**
   What every run keeps: messages leave in the order in which they were put in, every stopped worker has taken one
   terminate message and every terminate message taken has stopped one, no terminate message is
   in front of another kind, and every other message taken is handled or in hand.
   */
  ghost predicate Inv(p: Pool, s: State)
  {
    p.Ok() && |s.workers| == p.threads && |s.queue| <= p.capacity &&
    LeftInOrder(s.accepted, s.queue, s.taken, s.dropped) &&
    Terminates(s.taken) == StoppedIn(s.workers) &&
    Terminates(s.taken) + Terminates(s.queue) == s.posted <= p.threads &&
    (!s.stopping ==> s.posted == 0) &&
    TerminatesLast(s.taken + s.queue) &&
    s.handled + InHand(s.workers) == Plain(s.taken) &&
    s.joined <= p.threads && (s.joined > 0 ==> s.posted == p.threads) &&
    forall w :: 0 <= w < s.joined ==> s.workers[w] == Stopped
  }

  /** A message that has left the queue. */
  datatype Departure = Departure(msg: Msg, overrun: bool)

  function Messages(left: seq<Departure>): (r: seq<Msg>)
    ensures |r| == |left|
  {
    if left == [] then [] else Messages(left[..|left| - 1]) + [left[|left| - 1].msg]
  }

  /** The messages that left by being overrun, or by being taken, in their order. */
  function Those(left: seq<Departure>, overrun: bool): seq<Msg>
  {
    if left == [] then []
    else
      var d := left[|left| - 1];
      Those(left[..|left| - 1], overrun) + if d.overrun == overrun then [d.msg] else []
  }

  lemma OneMoreDeparture(left: seq<Departure>, d: Departure)
    ensures Messages(left + [d]) == Messages(left) + [d.msg]
    ensures Those(left + [d], d.overrun) == Those(left, d.overrun) + [d.msg]
    ensures Those(left + [d], !d.overrun) == Those(left, !d.overrun)
  {
    assert (left + [d])[..|left|] == left;
  }

  lemma {:induction false} EitherWay(left: seq<Departure>)
    ensures |left| == |Those(left, true)| + |Those(left, false)|
  {
    if left != [] {
      EitherWay(left[..|left| - 1]);
    }
  }

  /** What was put in is what has left, each message taken or overrun, and behind it what is queued. */
  ghost predicate Departed(left: seq<Departure>, accepted: seq<Msg>, queue: seq<Msg>, taken: seq<Msg>, dropped: seq<Msg>)
  {
    accepted == Messages(left) + queue && taken == Those(left, false) && dropped == Those(left, true)
  }

  ghost predicate LeftInOrder(accepted: seq<Msg>, queue: seq<Msg>, taken: seq<Msg>, dropped: seq<Msg>)
  {
    exists left :: Departed(left, accepted, queue, taken, dropped)
  }

  lemma PutInOrder(accepted: seq<Msg>, queue: seq<Msg>, taken: seq<Msg>, dropped: seq<Msg>, m: Msg)
    requires LeftInOrder(accepted, queue, taken, dropped)
    ensures LeftInOrder(accepted + [m], queue + [m], taken, dropped)
  {
    var left :| Departed(left, accepted, queue, taken, dropped);
    assert Departed(left, accepted + [m], queue + [m], taken, dropped);
  }

  /** The oldest message leaves. */
  lemma OldestLeaves(accepted: seq<Msg>, queue: seq<Msg>, taken: seq<Msg>, dropped: seq<Msg>)
    requires LeftInOrder(accepted, queue, taken, dropped) && queue != []
    ensures LeftInOrder(accepted, queue[1..], taken + [queue[0]], dropped)
    ensures LeftInOrder(accepted, queue[1..], taken, dropped + [queue[0]])
  {
    hide Messages, Those;
    var left :| Departed(left, accepted, queue, taken, dropped);
    var took, overran := Departure(queue[0], false), Departure(queue[0], true);
    OneMoreDeparture(left, took);
    OneMoreDeparture(left, overran);
    assert Departed(left + [took], accepted, queue[1..], taken + [queue[0]], dropped);
    assert Departed(left + [overran], accepted, queue[1..], taken, dropped + [queue[0]]);
  }

  ghost predicate TerminatesLast(ms: seq<Msg>)
  {
    forall i, j :: 0 <= i < j < |ms| && ms[i].Terminate? ==> ms[j].Terminate?
  }

  lemma {:induction false} InitialStopped(n: nat)
    ensures StoppedIn(seq(n, _ => Waiting)) == 0
  {
    if n > 0 {
      InitialStopped(n - 1);
      assert seq(n, _ => Waiting)[..n - 1] == seq(n - 1, _ => Waiting);
    }
  }

  lemma {:induction false} NoTerminate(ms: seq<Msg>)
    ensures Terminates(ms) == 0 <==> forall i :: 0 <= i < |ms| ==> !ms[i].Terminate?
  {
    if ms != [] {
      NoTerminate(ms[..|ms| - 1]);
    }
  }

  lemma PostInv(p: Pool, s: State, m: Msg, policy: Policy)
    requires Inv(p, s)
    ensures Inv(p, Post(p, s, m, policy))
  {
    hide LeftInOrder, InHand, Plain, StoppedIn, Terminates;
    var t := Post(p, s, m, policy);
    if t != s {
      PutInOrder(s.accepted, s.queue, s.taken, s.dropped, m);
      OldestLeaves(s.accepted + [m], s.queue + [m], s.taken, s.dropped);
      NoTerminate(s.taken);
      NoTerminate(s.queue);
      NoTerminate(t.queue);
    }
  }

  lemma DestroyInv(p: Pool, s: State)
    requires Inv(p, s)
    ensures Inv(p, Destroy(p, s))
  {
    hide LeftInOrder, InHand, Plain, StoppedIn, Terminates, TerminatesLast;
    PutInOrder(s.accepted, s.queue, s.taken, s.dropped, Terminate);
    TerminatePut(s.taken, s.queue);
  }

  /** A terminate message goes behind all others. */
  lemma TerminatePut(taken: seq<Msg>, queue: seq<Msg>)
    ensures Terminates(queue + [Terminate]) == Terminates(queue) + 1
    ensures TerminatesLast(taken + queue) ==> TerminatesLast(taken + (queue + [Terminate]))
  {
    assert (queue + [Terminate])[..|queue|] == queue;
    assert taken + (queue + [Terminate]) == taken + queue + [Terminate];
  }

  /** Taking a message moves it from the queue to the messages taken. */
  lemma TakeMoves(taken: seq<Msg>, queue: seq<Msg>)
    requires queue != []
    ensures var after := taken + [queue[0]];
            after + queue[1..] == taken + queue &&
            Terminates(after) == Terminates(taken) + (if queue[0].Terminate? then 1 else 0) &&
            Terminates(queue) == Terminates(queue[1..]) + (if queue[0].Terminate? then 1 else 0) &&
            Plain(after) == Plain(taken) + (if queue[0].Terminate? then multiset{} else multiset{queue[0]})
  {
    var m := queue[0];
    assert queue == [m] + queue[1..];
    TerminatesAppend([m], queue[1..]);
    assert [m][..0] == [];
    assert (taken + [m])[..|taken|] == taken;
  }

  /** A message taken is in hand until it is handled. */
  lemma TakeKeepsBags(s: State, w: nat)
    requires w < |s.workers| && s.workers[w] == Waiting && s.queue != []
    requires s.handled + InHand(s.workers) == Plain(s.taken)
    ensures var t := WorkerStep(s, w); t.handled + InHand(t.workers) == Plain(t.taken)
  {
    var x := if s.queue[0].Terminate? then Stopped else Busy(s.queue[0]);
    TakeMoves(s.taken, s.queue);
    InHandPut(s.workers, w, x);
    AddToBoth(InHand(s.workers[w := x]), multiset{}, InHand(s.workers), Held(x), s.handled);
    assert s.handled + InHand(s.workers[w := x]) + multiset{} == s.handled + InHand(s.workers[w := x]);
  }

  lemma TakeInv(p: Pool, s: State, w: nat)
    requires Inv(p, s) && w < |s.workers| && s.workers[w] == Waiting && s.queue != []
    ensures Inv(p, WorkerStep(s, w))
  {
    hide LeftInOrder, InHand, Plain, StoppedIn, Terminates;
    OldestLeaves(s.accepted, s.queue, s.taken, s.dropped);
    TakeKeepsBags(s, w);
    TakeMoves(s.taken, s.queue);
    StoppedPut(s.workers, w, if s.queue[0].Terminate? then Stopped else Busy(s.queue[0]));
  }

  lemma HandleInv(p: Pool, s: State, w: nat)
    requires Inv(p, s) && w < |s.workers| && s.workers[w].Busy?
    ensures Inv(p, WorkerStep(s, w))
  {
    StoppedPut(s.workers, w, Waiting);
    InHandPut(s.workers, w, Waiting);
    var m := s.workers[w].msg;
    AddToBoth(InHand(s.workers[w := Waiting]), multiset{m}, InHand(s.workers), multiset{}, s.handled);
    assert s.handled + multiset{m} + InHand(s.workers[w := Waiting])
        == s.handled + InHand(s.workers[w := Waiting]) + multiset{m};
  }

  lemma MoveInv(p: Pool, s: State, actor: Actor)
    requires Inv(p, s)
    ensures Inv(p, Move(p, s, actor))
  {
    match actor
    case Poster(m, policy) => PostInv(p, s, m, policy);
    case DestructorStarts =>
    case Destructor => DestroyInv(p, s);
    case Work(w) =>
      if w < |s.workers| {
        if s.workers[w] == Waiting && s.queue != [] {
          TakeInv(p, s, w);
        } else if s.workers[w].Busy? {
          HandleInv(p, s, w);
        }
      }
  }

  lemma {:induction false} InvHolds(p: Pool, schedule: seq<Actor>)
    requires p.Ok()
    ensures Inv(p, After(p, schedule))
  {
    if schedule == [] {
      assert Departed([], [], [], [], []);
      InitialStopped(p.threads);
      NothingInHand(Initial(p).workers);
    } else {
      InvHolds(p, schedule[..|schedule| - 1]);
      MoveInv(p, After(p, schedule[..|schedule| - 1]), schedule[|schedule| - 1]);
    }
  }

  /**
   A message that is posted goes into the queue where there is room. Where there is none a poster that
   waits leaves all as it is, and one that overruns takes the place of the oldest message.
   */
  lemma PostingIs(p: Pool, schedule: seq<Actor>, m: Msg, policy: Policy)
    requires p.Ok() && !m.Terminate?
    ensures var s, t := After(p, schedule), After(p, schedule + [Poster(m, policy)]);
            !s.stopping ==>
              if |s.queue| < p.capacity then t == s.(queue := s.queue + [m], accepted := s.accepted + [m])
              else if policy == Block then t == s
              else |s.queue| == p.capacity &&
                   t == s.(queue := s.queue[1..] + [m], accepted := s.accepted + [m], dropped := s.dropped + [s.queue[0]])
  {
    InvHolds(p, schedule);
    assert (schedule + [Poster(m, policy)])[..|schedule|] == schedule;
    hide After, Inv;
    var s := After(p, schedule);
    assert s.queue != [] ==> (s.queue + [m])[1..] == s.queue[1..] + [m];
  }

  /** Where every poster waits, no message is dropped. */
  lemma {:induction false} WaitingDropsNothing(p: Pool, schedule: seq<Actor>)
    requires forall i :: 0 <= i < |schedule| && schedule[i].Poster? ==> schedule[i].policy == Block
    ensures After(p, schedule).dropped == []
  {
    if schedule != [] {
      WaitingDropsNothing(p, schedule[..|schedule| - 1]);
    }
  }

  /**
   Conservation: what was put into the queue is what has left it, each message taken or overrun,
   and behind it what is queued, in one order; the numbers add up, and what was taken is handled or in hand.
   */
  lemma NoMessageLost(p: Pool, schedule: seq<Actor>)
    requires p.Ok()
    ensures var s := After(p, schedule);
            LeftInOrder(s.accepted, s.queue, s.taken, s.dropped) &&
            |s.accepted| == |s.taken| + |s.queue| + |s.dropped| && |s.queue| <= p.capacity &&
            s.handled + InHand(s.workers) == Plain(s.taken)
  {
    InvHolds(p, schedule);
    var s := After(p, schedule);
    var left :| Departed(left, s.accepted, s.queue, s.taken, s.dropped);
    EitherWay(left);
  }

  /** A destructor that waits for room leaves a worker alive that can move. */
  lemma BlockedDestructorHasHelp(p: Pool, schedule: seq<Actor>)
    requires p.Ok()
    requires var s := After(p, schedule); s.stopping && s.posted < p.threads && |s.queue| >= p.capacity
    ensures var s := After(p, schedule);
            exists w :: 0 <= w < |s.workers| && s.workers[w] != Stopped && WorkerStep(s, w) != s
  {
    InvHolds(p, schedule);
    var s := After(p, schedule);
    StoppedBounded(s.workers);
    var w :| 0 <= w < |s.workers| && s.workers[w] != Stopped;
    assert WorkerStep(s, w) != s;
  }

  /** No deadlock: until all workers are joined, the destructor or a worker can move. */
  lemma ShutdownNeverStuck(p: Pool, schedule: seq<Actor>)
    requires p.Ok()
    requires var s := After(p, schedule); s.stopping && s.joined < p.threads
    ensures var s := After(p, schedule);
            Destroy(p, s) != s || exists w :: 0 <= w < |s.workers| && WorkerStep(s, w) != s
  {
    InvHolds(p, schedule);
    var s := After(p, schedule);
    if s.posted < p.threads {
      if |s.queue| < p.capacity {
        assert Destroy(p, s).posted != s.posted;
      } else {
        BlockedDestructorHasHelp(p, schedule);
      }
    } else if s.workers[s.joined] == Stopped {
      assert Destroy(p, s).joined != s.joined;
    } else {
      UnstoppedWorkerHasWork(p, s, s.joined);
      assert WorkerStep(s, s.joined) != s;
    }
  }

  /** Once all terminate messages are posted, a worker that has not stopped is busy or finds a message. */
  lemma UnstoppedWorkerHasWork(p: Pool, s: State, w: nat)
    requires Inv(p, s) && s.posted == p.threads && w < |s.workers| && s.workers[w] != Stopped
    ensures s.workers[w].Busy? || s.queue != []
  {
    StoppedBounded(s.workers);
    assert StoppedIn(s.workers) < p.threads;
    assert Terminates(s.queue) > 0;
  }

  /**
   When the destructor has joined all workers: each has taken exactly one terminate message, the
   queue is empty, and every other message that was taken has been handled.
   */
  lemma ShutdownIsComplete(p: Pool, schedule: seq<Actor>)
    requires p.Ok() && After(p, schedule).joined == p.threads
    ensures var s := After(p, schedule);
            s.queue == [] && Terminates(s.taken) == p.threads && s.handled == Plain(s.taken) &&
            forall w :: 0 <= w < |s.workers| ==> s.workers[w] == Stopped
  {
    InvHolds(p, schedule);
    var s := After(p, schedule);
    StoppedBounded(s.workers);
    NothingInHand(s.workers);
    BehindTerminate(s.taken, s.queue);
  }

  /** Behind a terminate message there are only terminate messages. */
  lemma BehindTerminate(a: seq<Msg>, b: seq<Msg>)
    requires TerminatesLast(a + b) && Terminates(a) > 0
    ensures b != [] ==> Terminates(b) > 0
  {
    NoTerminate(a);
    NoTerminate(b);
    var i :| 0 <= i < |a| && a[i].Terminate?;
    if b != [] {
      assert (a + b)[i].Terminate? && (a + b)[|a|] == b[0];
    }
  }

  /** From the start of the destructor on, what is taken is what was queued then, in order, and terminate messages behind it. */
  lemma {:induction false} QueuedMessagesFirst(p: Pool, before: seq<Actor>, schedule: seq<Actor>)
    requires p.Ok() && After(p, before).stopping && After(p, before).posted == 0
    ensures var s, t := After(p, before), After(p, before + schedule);
            t.stopping && s.taken <= t.taken && t.posted <= p.threads &&
            t.taken[|s.taken|..] + t.queue == s.queue + seq(t.posted, _ => Terminate)
    decreases |schedule|
  {
    hide Move, Inv;
    PostedBounded(p, before + schedule);
    if schedule == [] {
      assert before + schedule == before;
    } else {
      var m := |schedule| - 1;
      var all := before + schedule;
      QueuedMessagesFirst(p, before, schedule[..m]);
      assert all[..|all| - 1] == before + schedule[..m];
      InvHolds(p, before + schedule[..m]);
      KeepsOrder(p, After(p, before), After(p, before + schedule[..m]), schedule[m]);
    }
  }

  lemma PostedBounded(p: Pool, schedule: seq<Actor>)
    requires p.Ok()
    ensures After(p, schedule).posted <= p.threads
  {
    InvHolds(p, schedule);
  }

  lemma KeepsOrder(p: Pool, s: State, t: State, actor: Actor)
    requires t.stopping && s.taken <= t.taken && Inv(p, t)
    requires t.taken[|s.taken|..] + t.queue == s.queue + seq(t.posted, _ => Terminate)
    ensures var u := Move(p, t, actor);
            u.stopping && s.taken <= u.taken && u.taken[|s.taken|..] + u.queue == s.queue + seq(u.posted, _ => Terminate)
  {
    hide Inv;
    var u := Move(p, t, actor);
    if u.posted == t.posted + 1 {
      PostedLast(t.taken[|s.taken|..], t.queue, s.queue, t.posted);
    } else if u.taken != t.taken {
      TakenFirst(s.taken, t.taken, t.queue);
    }
  }

  lemma PostedLast(taken: seq<Msg>, queue: seq<Msg>, before: seq<Msg>, posted: nat)
    requires taken + queue == before + seq(posted, _ => Terminate)
    ensures taken + (queue + [Terminate]) == before + seq(posted + 1, _ => Terminate)
  {
    assert seq(posted + 1, _ => Terminate) == seq(posted, _ => Terminate) + [Terminate];
    assert taken + (queue + [Terminate]) == taken + queue + [Terminate];
  }

  lemma TakenFirst(before: seq<Msg>, taken: seq<Msg>, queue: seq<Msg>)
    requires before <= taken && queue != []
    ensures (taken + [queue[0]])[|before|..] + queue[1..] == taken[|before|..] + queue
  {
    assert queue == [queue[0]] + queue[1..];
    assert (taken + [queue[0]])[|before|..] == taken[|before|..] + [queue[0]];
  }

  function BusyIn(ws: seq<Worker>): nat
  {
    |InHand(ws)|
  }

  /** What is left of the shutdown. */
  function Left(p: Pool, s: State): int
  {
    3 * (p.threads - s.posted) + 2 * |s.queue| + BusyIn(s.workers) + (p.threads - s.joined)
  }

  lemma WorkerHasLessToDo(p: Pool, s: State, w: nat)
    requires WorkerStep(s, w) != s
    ensures Left(p, WorkerStep(s, w)) < Left(p, s)
  {
    hide InHand;
    var x := WorkerStep(s, w).workers[w];
    InHandPut(s.workers, w, x);
    assert |InHand(s.workers[w := x]) + Held(s.workers[w])| == |InHand(s.workers) + Held(x)|;
  }

  /** Every shutdown ends: a move that changes the state leaves less to do. */
  lemma ShutdownRunsOut(p: Pool, s: State, actor: Actor)
    requires Inv(p, s) && s.stopping && Move(p, s, actor) != s
    ensures 0 <= Left(p, Move(p, s, actor)) < Left(p, s)
  {
    hide LeftInOrder, TerminatesLast, Terminates, StoppedIn, InHand, Plain;
    MoveInv(p, s, actor);
    if actor.Work? {
      WorkerHasLessToDo(p, s, actor.w);
    }
  }
}
