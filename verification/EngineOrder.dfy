/** Which frame the engine loses and which it keeps: drop-oldest, in every interleaving. */
module EngineOrder {
  import opened Prelude
  import opened EngineRunner

  lemma KeptParts<F, R>(s: State<F, R>, detector: F -> Option<R>)
    requires Inv(s, detector)
    ensures Increasing(s.handled + InHand(s.worker) + Queued(s.queue))
    ensures forall p, k :: p in Pending(s.producer) && k in Queued(s.queue) ==> k < p
  {
    assert forall k :: k in Queued(s.queue) ==> k in Kept(s);
  }

  lemma BeforeAfter(a: seq<nat>, b: seq<nat>)
    requires Increasing(a + b)
    ensures forall x, y :: x in a && y in b ==> x < y
  {
    forall x, y | x in a && y in b ensures x < y {
      var i :| 0 <= i < |a| && a[i] == x;
      var j :| 0 <= j < |b| && b[j] == y;
      assert (a + b)[i] == x && (a + b)[|a| + j] == y;
    }
  }

  lemma HeadIsOldest(queue: seq<Message>, i: nat)
    requires queue != [] && queue[0] == Frame(i) && Increasing(Queued(queue))
    ensures forall f: nat :: Frame(f) in queue[1..] ==> i < f
    ensures i in Queued(queue)
  {
    assert Queued(queue) == [i] + Queued(queue[1..]);
    BeforeAfter([i], Queued(queue[1..]));
    forall f: nat | Frame(f) in queue[1..] ensures i < f {
      QueuedMember(queue[1..], f);
      assert i in [i];
    }
  }

  lemma IncreasingTail(a: seq<nat>, b: seq<nat>)
    requires Increasing(a + b)
    ensures Increasing(b)
  {
    assert forall i :: 0 <= i < |b| ==> (a + b)[|a| + i] == b[i];
  }

  /** Where the head of the queue stands among all frames. */
  lemma OldestQueued<F, R>(s: State<F, R>, detector: F -> Option<R>, i: nat)
    requires Inv(s, detector) && s.queue != [] && s.queue[0] == Frame(i)
    ensures forall f: nat :: Frame(f) in s.queue[1..] ==> i < f
    ensures forall p :: p in Pending(s.producer) ==> i < p
    ensures forall k: nat :: k in s.handled || s.worker == Holds(k) ==> k < i
  {
    hide Spread, Inv, Increasing, Queued, Pending;
    KeptParts(s, detector);
    var front := s.handled + InHand(s.worker);
    IncreasingTail(front, Queued(s.queue));
    HeadIsOldest(s.queue, i);
    BeforeAfter(front, Queued(s.queue));
    forall k: nat | k in s.handled || s.worker == Holds(k) ensures k < i {
      assert k in front;
    }
  }

  lemma LostIsHead<F, R>(s: State<F, R>, a: Action<F>, s': State<F, R>, detector: F -> Option<R>, i: nat)
    requires Apply(s, a, detector) == Some(s') && i in s'.lost && i !in s.lost
    ensures a.PutAgain? ==> i in Pending(s.producer) && |s.queue| >= s.maxQueue && s'.queue == s.queue
    ensures !a.PutAgain? ==>
              s.queue != [] && s.queue[0] == Frame(i) && s'.queue == s.queue[1..]
              && Pending(s'.producer) == Pending(s.producer)
  {
  }

  lemma PendingIsNewest<F, R>(s: State<F, R>, detector: F -> Option<R>, i: nat)
    requires Inv(s, detector) && i in Pending(s.producer)
    ensures i == |s.submitted| - 1
  {
  }

  /** In every interleaving the frame that a step loses is older than every frame still queued and than the
      one being placed, and newer than all that was handled or is in hand; or it is the newest frame itself,
      refused a second time. Nothing else leaves the queue. */
  lemma LosesTheOldest<F, R>(maxQueue: nat, actions: seq<Action<F>>, s: State<F, R>, a: Action<F>, s': State<F, R>,
                             detector: F -> Option<R>, i: nat)
    requires maxQueue >= 1 && Run(Start<F, R>(maxQueue), actions, detector) == Some(s)
    requires Apply(s, a, detector) == Some(s') && i in s'.lost && i !in s.lost
    ensures !a.PutAgain? ==>
              && (forall f: nat :: Frame(f) in s'.queue ==> i < f)
              && (forall p :: p in Pending(s'.producer) ==> i < p)
              && (forall k: nat :: k in s.handled || s.worker == Holds(k) ==> k < i)
              && s.queue == [Frame(i)] + s'.queue
    ensures a.PutAgain? ==> i == |s.submitted| - 1 && |s.queue| >= maxQueue && s'.queue == s.queue
  {
    hide Run, Apply, Inv, Pending;
    RunKeepsInv(maxQueue, actions, s, detector);
    LostIsHead(s, a, s', detector, i);
    if a.PutAgain? {
      PendingIsNewest(s, detector, i);
    } else {
      OldestQueued(s, detector, i);
    }
  }

  /** The worker, too, takes the oldest frame. */
  lemma TakesTheOldest<F, R>(maxQueue: nat, actions: seq<Action<F>>, s: State<F, R>, s': State<F, R>,
                             detector: F -> Option<R>, f: nat)
    requires maxQueue >= 1 && Run(Start<F, R>(maxQueue), actions, detector) == Some(s)
    requires Apply(s, Take, detector) == Some(s') && s'.worker.Holds? && Frame(f) in s'.queue
    ensures s'.worker.index < f && Frame(s'.worker.index) in s.queue
  {
    hide Run, Inv;
    RunKeepsInv(maxQueue, actions, s, detector);
    OldestQueued(s, detector, s'.worker.index);
  }

  // What the queue holds.

  /** The newest `k` of the first `n` frames, oldest first. */
  function Newest(n: nat, k: nat): seq<Message>
    requires k <= n
  {
    seq(k, i requires 0 <= i < k => Frame(n - k + i))
  }

  /** `get_nowait` of a full queue does find a message. */
  predicate NoFalseEmpty<F>(actions: seq<Action<F>>) {
    forall k :: 0 <= k < |actions| ==> !actions[k].EvictFindsEmpty?
  }

  predicate WorkerIdles<F>(actions: seq<Action<F>>) {
    forall k :: 0 <= k < |actions| ==> !actions[k].Take?
  }

  /** The frames placed so far: all but the one being placed. */
  function Placed<F, R>(s: State<F, R>): int {
    |s.submitted| - if s.producer.Idle? then 0 else 1
  }

  ghost predicate HoldsNewest<F, R>(s: State<F, R>) {
    && 0 <= |s.queue| <= Placed(s) && s.queue == Newest(Placed(s), |s.queue|)
    && match s.producer
       case Idle => true
       case SawFull(i) => i == |s.submitted| - 1
       case Evicted(i) => i == |s.submitted| - 1 && |s.queue| < s.maxQueue
       case Counted(i) => i == |s.submitted| - 1 && |s.queue| < s.maxQueue
       case _ => false
  }

  lemma NewestPush(n: nat, k: nat)
    requires k <= n
    ensures Newest(n, k) + [Frame(n)] == Newest(n + 1, k + 1)
    ensures k > 0 ==> Newest(n, k)[1..] == Newest(n, k - 1)
  {
  }

  lemma StepHoldsNewest<F, R>(s: State<F, R>, a: Action<F>, s': State<F, R>, detector: F -> Option<R>)
    requires HoldsNewest(s) && |s.queue| <= s.maxQueue && !a.PutStop? && !a.EvictFindsEmpty?
    requires Apply(s, a, detector) == Some(s')
    ensures HoldsNewest(s')
  {
    NewestPush(Placed(s), |s.queue|);
  }

  /** In every run in which no `stop` begins and a full queue yields its oldest, the queue holds exactly the
      newest submissions, as many as it holds, whenever no `submit` is under way: only the worker and the
      ceiling take frames out, and both at the old end. */
  lemma {:induction false} QueueIsNewest<F, R>(maxQueue: nat, actions: seq<Action<F>>, s: State<F, R>,
                                               detector: F -> Option<R>)
    requires maxQueue >= 1 && Run(Start<F, R>(maxQueue), actions, detector) == Some(s)
    requires NoStop(actions) && NoFalseEmpty(actions)
    ensures HoldsNewest(s)
    ensures s.producer.Idle? ==> |s.queue| <= |s.submitted| && s.queue == Newest(|s.submitted|, |s.queue|)
  {
    hide Apply;
    if actions != [] {
      var front, last := actions[..|actions| - 1], actions[|actions| - 1];
      var before := Run(Start<F, R>(maxQueue), front, detector).value;
      QueueIsNewest(maxQueue, front, before, detector);
      RunKeepsInv(maxQueue, front, before, detector);
      StepHoldsNewest(before, last, s, detector);
    }
  }

  ghost predicate Filled<F, R>(s: State<F, R>) {
    |s.queue| == match s.producer
                 case Idle => Min(s.maxQueue, |s.submitted|)
                 case SawFull(_) => s.maxQueue
                 case _ => s.maxQueue - 1
  }

  /** While the worker takes nothing, that is the last `min(maxQueue, n)` of `n` submissions. */
  lemma {:induction false} IdleWorkerQueue<F, R>(maxQueue: nat, actions: seq<Action<F>>, s: State<F, R>,
                                                 detector: F -> Option<R>)
    requires maxQueue >= 1 && Run(Start<F, R>(maxQueue), actions, detector) == Some(s)
    requires NoStop(actions) && NoFalseEmpty(actions) && WorkerIdles(actions)
    ensures Filled(s)
    ensures s.producer.Idle? ==>
              s.queue == Newest(|s.submitted|, Min(maxQueue, |s.submitted|))
  {
    hide Inv, HoldsNewest, Apply;
    QueueIsNewest(maxQueue, actions, s, detector);
    RunKeepsInv(maxQueue, actions, s, detector);
    if actions == [] {
      StartFilled<F, R>(maxQueue);
    } else {
      var front := actions[..|actions| - 1];
      var before := Run(Start<F, R>(maxQueue), front, detector).value;
      IdleWorkerQueue(maxQueue, front, before, detector);
      QueueIsNewest(maxQueue, front, before, detector);
      RunKeepsInv(maxQueue, front, before, detector);
      StepFilled(before, actions[|actions| - 1], s, detector);
    }
  }

  lemma StartFilled<F, R>(maxQueue: nat)
    ensures Filled(Start<F, R>(maxQueue))
  {
  }

  lemma StepFilled<F, R>(s: State<F, R>, a: Action<F>, s': State<F, R>, detector: F -> Option<R>)
    requires Filled(s) && HoldsNewest(s) && s.maxQueue >= 1 && !a.PutStop? && !a.EvictFindsEmpty? && !a.Take?
    requires Apply(s, a, detector) == Some(s')
    ensures Filled(s')
  {
    hide Newest;
  }

  /** The queue is first in, first out, for frames and stop marks alike: whatever a step does, at most the head
      leaves and at most one message joins at the end. */
  lemma QueueIsFifo<F, R>(s: State<F, R>, a: Action<F>, s': State<F, R>, detector: F -> Option<R>)
    requires Apply(s, a, detector) == Some(s')
    ensures exists k: nat, more: seq<Message> ::
              k <= 1 && k <= |s.queue| && |more| <= 1 && s'.queue == s.queue[k..] + more
    ensures a.Take? ==> s.queue != [] && s'.queue == s.queue[1..]
    ensures a.Take? && s.queue[0].Frame? ==> s'.worker == Holds(s.queue[0].index)
    ensures a.Take? && s.queue[0].Stop? ==> s'.worker == Stopped
  {
    var left := if a.Take? || a.EvictOldest? || a.StopEvictOldest? then 1 else 0;
    var rest := s.queue[left..];
    var more := s'.queue[|rest|..];
    assert s'.queue == rest + more;
  }

  lemma StepStaysStopped<F, R>(s: State<F, R>, a: Action<F>, s': State<F, R>, detector: F -> Option<R>)
    requires s.worker.Stopped? && Apply(s, a, detector) == Some(s')
    ensures s'.worker.Stopped? && s'.handled == s.handled && s'.polled + s'.results == s.polled + s.results
  {
  }

  /** Once the worker has taken a stop mark nothing more is handled. */
  lemma {:induction false} StoppedStays<F, R>(s: State<F, R>, more: seq<Action<F>>, u: State<F, R>,
                                              detector: F -> Option<R>)
    requires s.worker.Stopped? && Run(s, more, detector) == Some(u)
    ensures u.worker.Stopped? && u.handled == s.handled && u.polled + u.results == s.polled + s.results
  {
    hide Apply;
    if more != [] {
      var before := Run(s, more[..|more| - 1], detector).value;
      StoppedStays(s, more[..|more| - 1], before, detector);
      StepStaysStopped(before, more[|more| - 1], u, detector);
    }
  }
}
