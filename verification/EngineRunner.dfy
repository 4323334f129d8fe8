/** The engine process of engine/runner.py: a producer and a worker share a bounded queue.

    `submit` and `stop` are several queue operations between which the worker may run, so each is
    split into its atomic steps. A run is any list of steps that are each possible when they happen.
    Frames are named by the order of submission; the detector is any function that may raise. */
module EngineRunner {
  import opened Prelude

  datatype Message = Frame(index: nat) | Stop

  /** Where the producer stands inside `submit` (the first five) or `stop` (the last two). */
  datatype Producer =
    | Idle
    | SawFull(index: nat)
    | Evicted(index: nat)
    | Counted(index: nat)
    | Refused(index: nat)
    | StopSawFull
    | StopEvicted

  datatype Worker = Ready | Holds(index: nat) | Stopped

  /** `handled`, `lost`, `misses` and `stopEvictions` are bookkeeping of the model; the rest is the
      state of the process. A miss is a `get_nowait` of `submit` that removed no frame. */
  datatype State<F, R> = State(
    maxQueue: nat,
    submitted: seq<F>,
    queue: seq<Message>,
    producer: Producer,
    worker: Worker,
    results: seq<R>,
    polled: seq<R>,
    dropped: nat,
    handled: seq<nat>,
    lost: set<nat>,
    misses: nat,
    stopEvictions: nat)

  datatype Action<F> =
    | Submit(frame: F)
    | EvictOldest
    | EvictFindsEmpty
    | CountEviction
    | PutAgain
    | CountRefusal
    | PutStop
    | StopEvictOldest
    | StopEvictFindsEmpty
    | PutStopAgain
    | Take
    | Finish
    | Poll

  function Start<F, R>(maxQueue: nat): State<F, R> {
    State(maxQueue, [], [], Idle, Ready, [], [], 0, [], {}, 0, 0)
  }

  /** `EngineProcess(max_queue=...)` refuses a ceiling below one. */
  function Create<F, R>(maxQueue: int): Option<State<F, R>> {
    if maxQueue < 1 then None else Some(Start(maxQueue))
  }

  lemma CreatedIff<F, R>(maxQueue: int)
    ensures Create<F, R>(maxQueue).Some? <==> maxQueue >= 1
    ensures maxQueue >= 1 ==> Create<F, R>(maxQueue).value == Start(maxQueue) && Start<F, R>(maxQueue).queue == []
  {
  }

  function Removed(m: Message): set<nat> {
    if m.Frame? then {m.index} else {}
  }

  /** One atomic step; `None` when the step is not possible in `s`. */
  function Apply<F, R>(s: State<F, R>, a: Action<F>, detector: F -> Option<R>): Option<State<F, R>> {
    var room := |s.queue| < s.maxQueue;
    match a
    case Submit(f) =>
      if !s.producer.Idle? then None
      else
        var i := |s.submitted|;
        var s1 := s.(submitted := s.submitted + [f]);
        Some(if room then s1.(queue := s.queue + [Frame(i)]) else s1.(producer := SawFull(i)))
    case EvictOldest =>
      if !s.producer.SawFull? || s.queue == [] then None
      else
        Some(s.(queue := s.queue[1..], producer := Evicted(s.producer.index),
                lost := s.lost + Removed(s.queue[0]),
                misses := s.misses + if s.queue[0].Frame? then 0 else 1))
    case EvictFindsEmpty =>
      if !s.producer.SawFull? then None
      else Some(s.(producer := Evicted(s.producer.index), misses := s.misses + 1))
    case CountEviction =>
      if !s.producer.Evicted? then None
      else Some(s.(producer := Counted(s.producer.index), dropped := s.dropped + 1))
    case PutAgain =>
      if !s.producer.Counted? then None
      else if room then Some(s.(queue := s.queue + [Frame(s.producer.index)], producer := Idle))
      else Some(s.(producer := Refused(s.producer.index), lost := s.lost + {s.producer.index}))
    case CountRefusal =>
      if !s.producer.Refused? then None
      else Some(s.(producer := Idle, dropped := s.dropped + 1))
    case PutStop =>
      if !s.producer.Idle? then None
      else if room then Some(s.(queue := s.queue + [Stop]))
      else Some(s.(producer := StopSawFull))
    case StopEvictOldest =>
      if !s.producer.StopSawFull? || s.queue == [] then None
      else
        Some(s.(queue := s.queue[1..], producer := StopEvicted, lost := s.lost + Removed(s.queue[0]),
                stopEvictions := s.stopEvictions + if s.queue[0].Frame? then 1 else 0))
    case StopEvictFindsEmpty =>
      if !s.producer.StopSawFull? then None else Some(s.(producer := StopEvicted))
    case PutStopAgain =>
      if !s.producer.StopEvicted? then None
      else Some(s.(queue := if room then s.queue + [Stop] else s.queue, producer := Idle))
    case Take =>
      if !s.worker.Ready? || s.queue == [] then None
      else
        Some(s.(queue := s.queue[1..],
                worker := if s.queue[0].Frame? then Holds(s.queue[0].index) else Stopped))
    case Finish =>
      if !s.worker.Holds? || s.worker.index >= |s.submitted| then None
      else
        var outcome := detector(s.submitted[s.worker.index]);
        Some(s.(worker := Ready, handled := s.handled + [s.worker.index],
                results := s.results + if outcome.Some? then [outcome.value] else []))
    case Poll =>
      if s.results == [] then None
      else Some(s.(polled := s.polled + [s.results[0]], results := s.results[1..]))
  }

  function Run<F, R>(s: State<F, R>, actions: seq<Action<F>>, detector: F -> Option<R>): Option<State<F, R>> {
    if actions == [] then Some(s)
    else
      var before := Run(s, actions[..|actions| - 1], detector);
      if before.None? then None else Apply(before.value, actions[|actions| - 1], detector)
  }

  /** The frames waiting in the queue, oldest first. */
  function Queued(queue: seq<Message>): seq<nat> {
    if queue == [] then []
    else FrameOf(queue[0]) + Queued(queue[1..])
  }

  function FrameOf(m: Message): seq<nat> {
    if m.Frame? then [m.index] else []
  }

  lemma {:induction false} QueuedAppend(queue: seq<Message>, m: Message)
    ensures Queued(queue + [m]) == Queued(queue) + FrameOf(m)
  {
    var all := queue + [m];
    if queue == [] {
      assert all[0] == m && all[1..] == [];
    } else {
      assert all[0] == queue[0] && all[1..] == queue[1..] + [m];
      QueuedAppend(queue[1..], m);
      var first, middle, last := FrameOf(queue[0]), Queued(queue[1..]), FrameOf(m);
      assert first + (middle + last) == (first + middle) + last;
    }
  }

  function InHand(w: Worker): seq<nat> {
    if w.Holds? then [w.index] else []
  }

  /** Everything handled, in the worker's hand or queued, in that order. */
  function Kept<F, R>(s: State<F, R>): seq<nat> {
    s.handled + InHand(s.worker) + Queued(s.queue)
  }

  /** The frame `submit` is still trying to place. */
  function Pending(p: Producer): set<nat> {
    if p.SawFull? || p.Evicted? || p.Counted? then {p.index} else {}
  }

  /** Losses and misses that the drop counter has yet to see. */
  function Owed(p: Producer): nat {
    if p.Evicted? || p.Refused? then 1 else 0
  }

  /** The detector's results on the named frames, those it raised on left out. */
  function Outcomes<F, R>(submitted: seq<F>, frames: seq<nat>, detector: F -> Option<R>): seq<R> {
    if frames == [] then []
    else
      var last := frames[|frames| - 1];
      var before := Outcomes(submitted, frames[..|frames| - 1], detector);
      if last < |submitted| && detector(submitted[last]).Some?
      then before + [detector(submitted[last]).value] else before
  }

  ghost predicate Increasing(s: seq<nat>) {
    forall i, j :: 0 <= i < j < |s| ==> s[i] < s[j]
  }

  /** The `n` submitted frames are spread over the kept ones, the lost ones and the one being placed,
      which is newer than all that is kept. */
  ghost predicate Spread(kept: seq<nat>, lost: set<nat>, pending: set<nat>, n: nat) {
    && Increasing(kept)
    && (forall i :: i in kept || i in lost || i in pending ==> i < n)
    && (forall i :: i in kept ==> i !in lost && forall p :: p in pending ==> i < p)
    && lost !! pending
    && (forall i: nat :: i < n ==> i in kept || i in lost || i in pending)
    && (forall p :: p in pending ==> p == n - 1)
  }

  ghost predicate Inv<F, R>(s: State<F, R>, detector: F -> Option<R>) {
    && 1 <= s.maxQueue && |s.queue| <= s.maxQueue
    && Spread(Kept(s), s.lost, Pending(s.producer), |s.submitted|)
    && |s.lost| + s.misses == s.dropped + s.stopEvictions + Owed(s.producer)
    && s.polled + s.results == Outcomes(s.submitted, s.handled, detector)
  }

  lemma StartInv<F, R>(maxQueue: nat, detector: F -> Option<R>)
    requires maxQueue >= 1
    ensures Inv(Start<F, R>(maxQueue), detector)
  {
    var s := Start<F, R>(maxQueue);
    assert Kept(s) == [];
  }

  /** Appending a frame newer than all others keeps the order. */
  lemma IncreasingAppend(s: seq<nat>, x: nat)
    requires Increasing(s) && forall y :: y in s ==> y < x
    ensures Increasing(s + [x])
  {
    forall i, j | 0 <= i < j < |s + [x]| ensures (s + [x])[i] < (s + [x])[j] {
      if j == |s| {
        assert s[i] in s;
      }
    }
  }

  /** Taking one frame out of the middle keeps the order and removes just that frame. */
  lemma IncreasingRemove(a: seq<nat>, x: nat, b: seq<nat>)
    requires Increasing(a + [x] + b)
    ensures Increasing(a + b)
    ensures forall y :: y in a + b <==> y in a + [x] + b && y != x
  {
    var s, t := a + [x] + b, a + b;
    forall i | 0 <= i < |t| ensures t[i] == s[if i < |a| then i else i + 1] {
    }
    assert s[|a|] == x;
    forall y | y in s && y != x ensures y in t {
      var k :| 0 <= k < |s| && s[k] == y;
      assert t[if k < |a| then k else k - 1] == y;
    }
    forall y | y in t ensures y in s && y != x {
      var k :| 0 <= k < |t| && t[k] == y;
      assert s[if k < |a| then k else k + 1] == y;
    }
  }

  lemma {:induction false} OutcomesOfPrefix<F, R>(submitted: seq<F>, f: F, frames: seq<nat>, detector: F -> Option<R>)
    requires forall k :: 0 <= k < |frames| ==> frames[k] < |submitted|
    ensures Outcomes(submitted + [f], frames, detector) == Outcomes(submitted, frames, detector)
  {
    if frames != [] {
      OutcomesOfPrefix(submitted, f, frames[..|frames| - 1], detector);
      assert frames[|frames| - 1] in frames;
    }
  }

  lemma KeptAfterPut<F, R>(s: State<F, R>, s': State<F, R>, i: nat)
    requires s'.queue == s.queue + [Frame(i)] && s'.handled == s.handled && s'.worker == s.worker
    ensures Kept(s') == Kept(s) + [i]
  {
    QueuedAppend(s.queue, Frame(i));
  }

  lemma KeptFromHead<F, R>(s: State<F, R>)
    requires s.queue != []
    ensures Kept(s) == (s.handled + InHand(s.worker)) + FrameOf(s.queue[0]) + Queued(s.queue[1..])
  {
    var front, first, rest := s.handled + InHand(s.worker), FrameOf(s.queue[0]), Queued(s.queue[1..]);
    assert front + (first + rest) == (front + first) + rest;
  }

  /** Evicting the head of the queue. */
  lemma EvictFromKept<F, R>(s: State<F, R>, s': State<F, R>)
    requires s.queue != [] && s'.queue == s.queue[1..] && s'.handled == s.handled && s'.worker == s.worker
    requires Increasing(Kept(s))
    ensures Increasing(Kept(s'))
    ensures forall y :: y in Kept(s') <==> y in Kept(s) && y !in Removed(s.queue[0])
    ensures s.queue[0].Frame? ==> s.queue[0].index in Kept(s)
  {
    hide Queued, Increasing;
    KeptFromHead(s);
    var front, rest := s.handled + InHand(s.worker), Queued(s.queue[1..]);
    if s.queue[0].Frame? {
      var x := s.queue[0].index;
      IncreasingRemove(front, x, rest);
      assert (front + [x] + rest)[|front|] == x;
    } else {
      assert front + [] == front;
    }
  }

  lemma SpreadNew(kept: seq<nat>, lost: set<nat>, n: nat)
    requires Spread(kept, lost, {}, n)
    ensures Spread(kept + [n], lost, {}, n + 1) && Spread(kept, lost, {n}, n + 1)
  {
    IncreasingAppend(kept, n);
    forall i: nat | i < n + 1 ensures i in kept + [n] || i in lost {
    }
  }

  lemma SpreadEvict(kept: seq<nat>, kept': seq<nat>, removed: set<nat>, lost: set<nat>, pending: set<nat>, n: nat)
    requires Spread(kept, lost, pending, n) && Increasing(kept')
    requires forall y :: y in kept' <==> y in kept && y !in removed
    requires forall y :: y in removed ==> y in kept
    ensures Spread(kept', lost + removed, pending, n) && removed !! lost
  {
  }

  lemma SpreadPlaced(kept: seq<nat>, lost: set<nat>, p: nat, n: nat)
    requires Spread(kept, lost, {p}, n)
    ensures Spread(kept + [p], lost, {}, n) && Spread(kept, lost + {p}, {}, n) && p !in lost
    ensures Increasing(kept) && forall y :: y in kept ==> y < p
  {
    assert p in {p};
    IncreasingAppend(kept, p);
    forall i: nat | i < n ensures i in kept + [p] || i in lost {
    }
  }

  lemma HandledWasSubmitted<F, R>(s: State<F, R>, detector: F -> Option<R>)
    requires Inv(s, detector)
    ensures forall k :: 0 <= k < |s.handled| ==> s.handled[k] < |s.submitted|
  {
    forall k | 0 <= k < |s.handled| ensures s.handled[k] < |s.submitted| {
      assert Kept(s)[k] in Kept(s);
    }
  }

  lemma SubmitKeepsInv<F, R>(s: State<F, R>, f: F, s': State<F, R>, detector: F -> Option<R>)
    requires Inv(s, detector) && Apply(s, Submit(f), detector) == Some(s')
    ensures Inv(s', detector)
  {
    hide Spread, Increasing;
    HandledWasSubmitted(s, detector);
    OutcomesOfPrefix(s.submitted, f, s.handled, detector);
    SpreadNew(Kept(s), s.lost, |s.submitted|);
    if |s.queue| < s.maxQueue {
      KeptAfterPut(s, s', |s.submitted|);
    } else {
      assert Kept(s') == Kept(s);
    }
  }

  lemma EvictKeepsInv<F, R>(s: State<F, R>, a: Action<F>, s': State<F, R>, detector: F -> Option<R>)
    requires Inv(s, detector) && (a.EvictOldest? || a.StopEvictOldest?) && Apply(s, a, detector) == Some(s')
    ensures Inv(s', detector)
  {
    var removed := Removed(s.queue[0]);
    assert Pending(s'.producer) == Pending(s.producer);
    EvictFromKept(s, s');
    SpreadEvict(Kept(s), Kept(s'), removed, s.lost, Pending(s.producer), |s.submitted|);
    assert |s.lost + removed| == |s.lost| + |removed|;
  }

  lemma PutAgainKeepsInv<F, R>(s: State<F, R>, s': State<F, R>, detector: F -> Option<R>)
    requires Inv(s, detector) && Apply(s, PutAgain, detector) == Some(s')
    ensures Inv(s', detector)
  {
    hide Spread, Increasing;
    var p := s.producer.index;
    SpreadPlaced(Kept(s), s.lost, p, |s.submitted|);
    if |s.queue| < s.maxQueue {
      KeptAfterPut(s, s', p);
    } else {
      assert Kept(s') == Kept(s);
      assert |s.lost + {p}| == |s.lost| + 1;
    }
  }

  lemma TakeKeepsInv<F, R>(s: State<F, R>, s': State<F, R>, detector: F -> Option<R>)
    requires Inv(s, detector) && Apply(s, Take, detector) == Some(s')
    ensures Inv(s', detector)
  {
    hide Spread, Queued, Outcomes;
    KeptFromHead(s);
    assert Kept(s') == Kept(s);
  }

  lemma OutcomesMore<F, R>(submitted: seq<F>, frames: seq<nat>, i: nat, detector: F -> Option<R>)
    requires i < |submitted|
    ensures Outcomes(submitted, frames + [i], detector)
         == Outcomes(submitted, frames, detector) + ResultOf(submitted, i, detector)
  {
    assert (frames + [i])[..|frames|] == frames;
  }

  function ResultOf<F, R>(submitted: seq<F>, i: nat, detector: F -> Option<R>): seq<R>
    requires i < |submitted|
  {
    var outcome := detector(submitted[i]);
    if outcome.Some? then [outcome.value] else []
  }

  lemma FinishKeepsInv<F, R>(s: State<F, R>, s': State<F, R>, detector: F -> Option<R>)
    requires Inv(s, detector) && Apply(s, Finish, detector) == Some(s')
    ensures Inv(s', detector)
  {
    hide Spread, Queued, Outcomes;
    var i := s.worker.index;
    assert Kept(s') == Kept(s);
    OutcomesMore(s.submitted, s.handled, i, detector);
    assert s'.results == s.results + ResultOf(s.submitted, i, detector);
    assert s.polled + (s.results + ResultOf(s.submitted, i, detector))
        == (s.polled + s.results) + ResultOf(s.submitted, i, detector);
  }

  lemma PutStopKeepsInv<F, R>(s: State<F, R>, a: Action<F>, s': State<F, R>, detector: F -> Option<R>)
    requires Inv(s, detector) && (a.PutStop? || a.PutStopAgain?) && Apply(s, a, detector) == Some(s')
    ensures Inv(s', detector)
  {
    hide Spread;
    QueuedAppend(s.queue, Stop);
    assert Kept(s') == Kept(s);
  }

  lemma CountKeepsInv<F, R>(s: State<F, R>, a: Action<F>, s': State<F, R>, detector: F -> Option<R>)
    requires Inv(s, detector) && Apply(s, a, detector) == Some(s')
    requires a.EvictFindsEmpty? || a.StopEvictFindsEmpty? || a.CountEviction? || a.CountRefusal?
    ensures Inv(s', detector)
  {
    hide Spread;
    assert Kept(s') == Kept(s) && Pending(s'.producer) == Pending(s.producer);
  }

  lemma PollKeepsInv<F, R>(s: State<F, R>, s': State<F, R>, detector: F -> Option<R>)
    requires Inv(s, detector) && Apply(s, Poll, detector) == Some(s')
    ensures Inv(s', detector)
  {
    hide Spread;
    assert Kept(s') == Kept(s);
    assert s'.polled + s'.results == s.polled + s.results;
  }

  lemma StepKeepsInv<F, R>(s: State<F, R>, a: Action<F>, s': State<F, R>, detector: F -> Option<R>)
    requires Inv(s, detector) && Apply(s, a, detector) == Some(s')
    ensures Inv(s', detector) && s'.maxQueue == s.maxQueue
  {
    hide Inv;
    match a
    case Submit(f) => SubmitKeepsInv(s, f, s', detector);
    case EvictOldest => EvictKeepsInv(s, a, s', detector);
    case StopEvictOldest => EvictKeepsInv(s, a, s', detector);
    case PutAgain => PutAgainKeepsInv(s, s', detector);
    case Take => TakeKeepsInv(s, s', detector);
    case Finish => FinishKeepsInv(s, s', detector);
    case PutStop => PutStopKeepsInv(s, a, s', detector);
    case PutStopAgain => PutStopKeepsInv(s, a, s', detector);
    case Poll => PollKeepsInv(s, s', detector);
    case _ => CountKeepsInv(s, a, s', detector);
  }

  /** The invariant holds after every run, whatever the interleaving. */
  lemma {:induction false} RunKeepsInv<F, R>(maxQueue: nat, actions: seq<Action<F>>, s: State<F, R>,
                                             detector: F -> Option<R>)
    requires maxQueue >= 1 && Run(Start<F, R>(maxQueue), actions, detector) == Some(s)
    ensures Inv(s, detector) && s.maxQueue == maxQueue
  {
    if actions == [] {
      StartInv<F, R>(maxQueue, detector);
    } else {
      var before := Run(Start<F, R>(maxQueue), actions[..|actions| - 1], detector).value;
      RunKeepsInv(maxQueue, actions[..|actions| - 1], before, detector);
      StepKeepsInv(before, actions[|actions| - 1], s, detector);
    }
  }

  datatype Fate = Processed | Failed | InWorker | Waiting | Lost | BeingPlaced

  /** Where a submitted frame is; several can be true only if the engine duplicates frames. */
  ghost predicate HasFate<F, R>(s: State<F, R>, i: nat, fate: Fate, detector: F -> Option<R>)
    requires i < |s.submitted|
  {
    match fate
    case Processed => i in s.handled && detector(s.submitted[i]).Some?
    case Failed => i in s.handled && detector(s.submitted[i]).None?
    case InWorker => s.worker == Holds(i)
    case Waiting => Frame(i) in s.queue
    case Lost => i in s.lost
    case BeingPlaced => i in Pending(s.producer)
  }

  lemma {:induction false} QueuedMember(queue: seq<Message>, i: nat)
    ensures i in Queued(queue) <==> Frame(i) in queue
  {
    if queue != [] {
      QueuedMember(queue[1..], i);
      assert queue == [queue[0]] + queue[1..];
    }
  }

  lemma IncreasingPartsDisjoint(a: seq<nat>, b: seq<nat>)
    requires Increasing(a + b)
    ensures forall x :: x in a ==> x !in b
  {
    forall i, j | 0 <= i < |a| && 0 <= j < |b| ensures a[i] < b[j] {
      assert (a + b)[i] == a[i] && (a + b)[|a| + j] == b[j];
    }
  }

  /** Conservation: after every run each submitted frame has exactly one fate. */
  lemma ExactlyOneFate<F, R>(maxQueue: nat, actions: seq<Action<F>>, s: State<F, R>, detector: F -> Option<R>, i: nat)
    requires maxQueue >= 1 && Run(Start<F, R>(maxQueue), actions, detector) == Some(s)
    requires i < |s.submitted|
    ensures exists fate :: HasFate(s, i, fate, detector)
    ensures forall f, g :: HasFate(s, i, f, detector) && HasFate(s, i, g, detector) ==> f == g
  {
    RunKeepsInv(maxQueue, actions, s, detector);
    QueuedMember(s.queue, i);
    var front := s.handled + InHand(s.worker);
    IncreasingPartsDisjoint(front, Queued(s.queue));
    assert Increasing(front) by {
      assert forall k :: 0 <= k < |front| ==> front[k] == Kept(s)[k];
    }
    IncreasingPartsDisjoint(s.handled, InHand(s.worker));
    var fate :=
      if i in s.handled then (if detector(s.submitted[i]).Some? then Processed else Failed)
      else if s.worker == Holds(i) then InWorker
      else if Frame(i) in s.queue then Waiting
      else if i in s.lost then Lost else BeingPlaced;
    assert HasFate(s, i, fate, detector);
    assert HasFate(s, i, InWorker, detector) ==> i in InHand(s.worker);
    assert i in Kept(s) <==> i in s.handled || i in InHand(s.worker) || i in Queued(s.queue);
  }

  /** Order: what the caller has polled, followed by what awaits polling, is the detector's results on
      frames in the order they were submitted; and the queue respects its ceiling. */
  lemma ResultsInSubmissionOrder<F, R>(maxQueue: nat, actions: seq<Action<F>>, s: State<F, R>, detector: F -> Option<R>)
    requires maxQueue >= 1 && Run(Start<F, R>(maxQueue), actions, detector) == Some(s)
    ensures s.polled + s.results == Outcomes(s.submitted, s.handled, detector)
    ensures Increasing(s.handled) && forall i :: i in s.handled ==> i < |s.submitted|
    ensures |s.queue| <= maxQueue
  {
    RunKeepsInv(maxQueue, actions, s, detector);
    assert forall k :: 0 <= k < |s.handled| ==> s.handled[k] == Kept(s)[k];
    forall i | i in s.handled ensures i < |s.submitted| {
      assert i in Kept(s);
    }
  }

  /** The drop counter, exactly, at every point of every run: it misses what `stop` evicted and the loss the
      current call is about to count, and it counts evictions that removed no frame. */
  lemma DropCounter<F, R>(maxQueue: nat, actions: seq<Action<F>>, s: State<F, R>, detector: F -> Option<R>)
    requires maxQueue >= 1 && Run(Start<F, R>(maxQueue), actions, detector) == Some(s)
    ensures |s.lost| + s.misses == s.dropped + s.stopEvictions + Owed(s.producer)
  {
    RunKeepsInv(maxQueue, actions, s, detector);
  }

  // The bound on losses.

  /** No call of `stop` begins in the run. */
  predicate NoStop<F>(actions: seq<Action<F>>) {
    forall k :: 0 <= k < |actions| ==> !actions[k].PutStop?
  }

  /** Every call of `stop` finds room in the queue, which its caller can see beforehand. */
  ghost predicate StopsFindRoom<F, R>(s: State<F, R>, actions: seq<Action<F>>, detector: F -> Option<R>)
    requires Run(s, actions, detector).Some?
  {
    forall k :: 0 <= k < |actions| && actions[k].PutStop? ==>
      Run(s, actions[..k], detector).Some? &&
      |Run(s, actions[..k], detector).value.queue| < Run(s, actions[..k], detector).value.maxQueue
  }

  predicate InStop(p: Producer) {
    p.StopSawFull? || p.StopEvicted?
  }

  /** From a state outside `stop`, as long as `stop` finds room it evicts nothing. */
  lemma {:induction false} RoomyStopsEvictNothing<F, R>(s: State<F, R>, actions: seq<Action<F>>, s': State<F, R>,
                                                        detector: F -> Option<R>)
    requires !InStop(s.producer) && Run(s, actions, detector) == Some(s') && StopsFindRoom(s, actions, detector)
    ensures s'.stopEvictions == s.stopEvictions && !InStop(s'.producer)
  {
    if actions != [] {
      var front, last := actions[..|actions| - 1], actions[|actions| - 1];
      var before := Run(s, front, detector).value;
      forall k | 0 <= k < |front| && front[k].PutStop?
        ensures Run(s, front[..k], detector).Some? &&
                |Run(s, front[..k], detector).value.queue| < Run(s, front[..k], detector).value.maxQueue
      {
        assert actions[k] == front[k] && actions[..k] == front[..k];
      }
      RoomyStopsEvictNothing(s, front, before, detector);
      assert actions[..|front|] == front;
    }
  }

  /** Between start and stop, in every interleaving, lost frames never exceed the drop counter, save for the
      one loss the current `submit` is about to count; the same goes on while every `stop` finds room. */
  lemma LossesAreCounted<F, R>(maxQueue: nat, actions: seq<Action<F>>, s: State<F, R>, detector: F -> Option<R>)
    requires maxQueue >= 1 && Run(Start<F, R>(maxQueue), actions, detector) == Some(s)
    requires NoStop(actions) || StopsFindRoom(Start<F, R>(maxQueue), actions, detector)
    ensures |s.lost| <= s.dropped + Owed(s.producer)
    ensures s.producer.Idle? ==> |s.lost| <= s.dropped
  {
    DropCounter(maxQueue, actions, s, detector);
    RoomyStopsEvictNothing(Start<F, R>(maxQueue), actions, s, detector);
  }

  /** A frame can be at the head of the queue when a `stop` that begins now evicts: the queue is full, and
      its head is a frame, or a stop mark before a frame that a worker still takes away in time. */
  predicate StopMayEvictFrame<F, R>(s: State<F, R>) {
    && |s.queue| >= s.maxQueue && s.queue != []
    && (s.queue[0].Frame? || (!s.worker.Stopped? && |s.queue| > 1 && s.queue[1].Frame?))
  }

  /** How a `stop` that began in `s` can stand at `t`, when no frame can be evicted. */
  ghost predicate StopIsHarmless<F, R>(s: State<F, R>, t: State<F, R>) {
    && t.stopEvictions == s.stopEvictions
    && (t.producer.StopSawFull? ==>
          |s.queue| >= s.maxQueue
          && ((t.queue == s.queue && (s.worker.Stopped? ==> t.worker.Stopped?))
              || (s.queue != [] && !s.worker.Stopped? && t.worker.Stopped? && t.queue == s.queue[1..])))
  }

  lemma HarmlessStep<F, R>(s: State<F, R>, t: State<F, R>, a: Action<F>, t': State<F, R>, detector: F -> Option<R>)
    requires !StopMayEvictFrame(s) && StopIsHarmless(s, t) && !a.PutStop? && Apply(t, a, detector) == Some(t')
    ensures StopIsHarmless(s, t')
  {
  }

  lemma {:induction false} HarmlessRun<F, R>(s: State<F, R>, t: State<F, R>, more: seq<Action<F>>, u: State<F, R>,
                                             detector: F -> Option<R>)
    requires !StopMayEvictFrame(s) && StopIsHarmless(s, t) && NoStop(more) && Run(t, more, detector) == Some(u)
    ensures StopIsHarmless(s, u)
  {
    if more != [] {
      var before := Run(t, more[..|more| - 1], detector).value;
      HarmlessRun(s, t, more[..|more| - 1], before, detector);
      HarmlessStep(s, before, more[|more| - 1], u, detector);
    }
  }

  lemma {:induction false} RunConcat<F, R>(s: State<F, R>, a: seq<Action<F>>, b: seq<Action<F>>,
                                           detector: F -> Option<R>)
    requires Run(s, a, detector).Some?
    ensures Run(s, a + b, detector) == Run(Run(s, a, detector).value, b, detector)
  {
    if b == [] {
      assert a + b == a;
    } else {
      assert (a + b)[..|a + b| - 1] == a + b[..|b| - 1];
      RunConcat(s, a, b[..|b| - 1], detector);
    }
  }

  lemma {:induction false} MissesGrow<F, R>(s: State<F, R>, actions: seq<Action<F>>, u: State<F, R>,
                                            detector: F -> Option<R>)
    requires Run(s, actions, detector) == Some(u)
    ensures u.misses >= s.misses
  {
    if actions != [] {
      MissesGrow(s, actions[..|actions| - 1], Run(s, actions[..|actions| - 1], detector).value, detector);
    }
  }

  /** However a `stop` that begins in `s` goes on, the losses stay counted. */
  ghost predicate StopKeepsCount<F(!new), R(!new)>(s: State<F, R>, detector: F -> Option<R>) {
    forall more: seq<Action<F>>, u: State<F, R> :: NoStop(more) && Run(s, [PutStop] + more, detector) == Some(u) ==>
      |u.lost| <= u.dropped + Owed(u.producer)
  }

  /** What the current `stop` may still evict. */
  function StillToEvict(p: Producer): nat {
    if p.StopSawFull? then 1 else 0
  }

  lemma {:induction false} OneStopEvictsOnce<F, R>(t: State<F, R>, more: seq<Action<F>>, u: State<F, R>,
                                                   detector: F -> Option<R>)
    requires NoStop(more) && Run(t, more, detector) == Some(u)
    ensures u.stopEvictions + StillToEvict(u.producer) <= t.stopEvictions + StillToEvict(t.producer)
  {
    if more != [] {
      OneStopEvictsOnce(t, more[..|more| - 1], Run(t, more[..|more| - 1], detector).value, detector);
    }
  }

  /** How many uncounted losses a `stop` that begins in `s` can cause at worst. */
  function StopRisk<F, R>(s: State<F, R>): nat {
    if StopMayEvictFrame(s) then 1 else 0
  }

  lemma StopEvictsAtMostRisk<F, R>(s: State<F, R>, more: seq<Action<F>>, u: State<F, R>, detector: F -> Option<R>)
    requires s.producer.Idle? && NoStop(more) && Run(s, [PutStop] + more, detector) == Some(u)
    ensures u.stopEvictions <= s.stopEvictions + StopRisk(s)
  {
    var t := Apply(s, PutStop, detector).value;
    RunSingle(s, PutStop, detector);
    RunConcat(s, [PutStop], more, detector);
    if StopMayEvictFrame(s) {
      OneStopEvictsOnce(t, more, u, detector);
    } else {
      HarmlessRun(s, t, more, u, detector);
    }
  }

  lemma RiskIsCovered<F, R>(maxQueue: nat, actions: seq<Action<F>>, s: State<F, R>, more: seq<Action<F>>,
                            u: State<F, R>, detector: F -> Option<R>)
    requires maxQueue >= 1 && Run(Start<F, R>(maxQueue), actions, detector) == Some(s)
    requires s.producer.Idle? && |s.lost| + StopRisk(s) <= s.dropped
    requires NoStop(more) && Run(s, [PutStop] + more, detector) == Some(u)
    ensures |u.lost| <= u.dropped + Owed(u.producer)
  {
    StopEvictsAtMostRisk(s, more, u, detector);
    RunConcat(Start<F, R>(maxQueue), actions, [PutStop] + more, detector);
    DropCounter(maxQueue, actions, s, detector);
    DropCounter(maxQueue, actions + ([PutStop] + more), u, detector);
    MissesGrow(s, [PutStop] + more, u, detector);
  }

  lemma RunSingle<F, R>(s: State<F, R>, a: Action<F>, detector: F -> Option<R>)
    ensures Run(s, [a], detector) == Apply(s, a, detector)
  {
    assert [a][..0] == [];
  }

  /** The way there: the worker finishes its frame and takes the stop mark, if the head is one. */
  function WayToFrame<F, R>(s: State<F, R>): seq<Action<F>> {
    if s.queue == [] || s.queue[0].Frame? then []
    else if s.worker.Holds? then [Finish, Take] else [Take]
  }

  lemma FrameReachesHead<F, R>(s: State<F, R>, t: State<F, R>, detector: F -> Option<R>) returns (v: State<F, R>)
    requires StopMayEvictFrame(s) && t == s.(producer := StopSawFull)
    requires s.worker.Holds? ==> s.worker.index < |s.submitted|
    ensures Run(t, WayToFrame(s), detector) == Some(v)
    ensures v.producer.StopSawFull? && v.queue != [] && v.queue[0].Frame?
    ensures v.stopEvictions == s.stopEvictions && v.misses == s.misses && v.dropped == s.dropped
  {
    if s.queue[0].Frame? {
      v := t;
    } else if s.worker.Holds? {
      var w := Apply(t, Finish, detector).value;
      v := Apply(w, Take, detector).value;
      RunSingle(t, Finish, detector);
      RunSingle(w, Take, detector);
      RunConcat(t, [Finish], [Take], detector);
      assert [Finish] + [Take] == WayToFrame(s);
    } else {
      v := Apply(t, Take, detector).value;
      RunSingle(t, Take, detector);
    }
  }

  lemma HeldFrameWasSubmitted<F, R>(maxQueue: nat, actions: seq<Action<F>>, s: State<F, R>, detector: F -> Option<R>)
    requires maxQueue >= 1 && Run(Start<F, R>(maxQueue), actions, detector) == Some(s)
    ensures s.worker.Holds? ==> s.worker.index < |s.submitted|
  {
    RunKeepsInv(maxQueue, actions, s, detector);
    if s.worker.Holds? {
      assert Kept(s)[|s.handled|] == s.worker.index;
      assert s.worker.index in Kept(s);
    }
  }

  lemma HarmfulStop<F, R>(maxQueue: nat, actions: seq<Action<F>>, s: State<F, R>, detector: F -> Option<R>)
    returns (more: seq<Action<F>>, u: State<F, R>)
    requires maxQueue >= 1 && Run(Start<F, R>(maxQueue), actions, detector) == Some(s)
    requires s.producer.Idle? && StopMayEvictFrame(s)
    ensures NoStop(more) && Run(s, [PutStop] + more, detector) == Some(u)
    ensures |u.lost| - u.dropped == |s.lost| - s.dropped + 1 && Owed(u.producer) == 0
  {
    HeldFrameWasSubmitted(maxQueue, actions, s, detector);
    more, u := EvictAfterStop(s, detector);
    RunConcat(Start<F, R>(maxQueue), actions, [PutStop] + more, detector);
    DropCounter(maxQueue, actions, s, detector);
    DropCounter(maxQueue, actions + ([PutStop] + more), u, detector);
  }

  lemma EvictAfterStop<F, R>(s: State<F, R>, detector: F -> Option<R>) returns (more: seq<Action<F>>, u: State<F, R>)
    requires s.producer.Idle? && StopMayEvictFrame(s) && (s.worker.Holds? ==> s.worker.index < |s.submitted|)
    ensures NoStop(more) && Run(s, [PutStop] + more, detector) == Some(u) && u.producer.StopEvicted?
    ensures u.stopEvictions == s.stopEvictions + 1 && u.misses == s.misses && u.dropped == s.dropped
  {
    hide Run;
    var t := s.(producer := StopSawFull);
    assert Apply(s, PutStop, detector) == Some(t);
    var v := FrameReachesHead(s, t, detector);
    u := Apply(v, StopEvictOldest, detector).value;
    more := WayToFrame(s) + [StopEvictOldest];
    RunSingle(v, StopEvictOldest, detector);
    RunConcat(t, WayToFrame(s), [StopEvictOldest], detector);
    RunSingle(s, PutStop, detector);
    RunConcat(s, [PutStop], more, detector);
  }

  /** A `stop` that begins in an idle state keeps the losses counted, however the worker interferes, exactly
      if they are counted now, with one count to spare when the eviction can reach a frame. */
  lemma {:induction false} StopKeepsCountIff<F(!new), R(!new)>(maxQueue: nat, actions: seq<Action<F>>, s: State<F, R>,
                                                               detector: F -> Option<R>)
    requires maxQueue >= 1 && Run(Start<F, R>(maxQueue), actions, detector) == Some(s) && s.producer.Idle?
    ensures StopKeepsCount(s, detector) <==> |s.lost| + StopRisk(s) <= s.dropped
  {
    if |s.lost| + StopRisk(s) <= s.dropped {
      forall more: seq<Action<F>>, u: State<F, R> | NoStop(more) && Run(s, [PutStop] + more, detector) == Some(u)
        ensures |u.lost| <= u.dropped + Owed(u.producer)
      {
        RiskIsCovered(maxQueue, actions, s, more, u, detector);
      }
    } else if StopMayEvictFrame(s) {
      var more, u := HarmfulStop(maxQueue, actions, s, detector);
      assert NoStop(more) && Run(s, [PutStop] + more, detector) == Some(u);
    } else {
      var u := Apply(s, PutStop, detector).value;
      RunSingle(s, PutStop, detector);
      var none: seq<Action<F>> := [];
      assert [PutStop] + none == [PutStop];
      assert NoStop(none) && Run(s, [PutStop] + none, detector) == Some(u) && |u.lost| > u.dropped + Owed(u.producer);
    }
  }

  /** `stop` on a full queue throws a frame away without counting it. */
  lemma StopLosesUncounted()
    ensures var actions := [Submit(7), PutStop, StopEvictOldest, PutStopAgain];
            var end := Run(Start<int, int>(1), actions, x => Some(x));
            end.Some? && end.value.producer.Idle? && end.value.lost == {0} && end.value.dropped == 0
  {
    var actions: seq<Action<int>> := [Submit(7), PutStop, StopEvictOldest, PutStopAgain];
    var detector := (x: int) => Some(x);
    var s0 := Start<int, int>(1);
    assert Run(s0, actions[..1], detector) == Apply(s0, Submit(7), detector);
    assert actions[..2][..1] == actions[..1] && actions[..3][..2] == actions[..2];
    assert Run(s0, actions[..2], detector).Some?;
    assert Run(s0, actions[..3], detector).Some?;
  }
}
