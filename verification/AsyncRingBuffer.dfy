/** `AsyncRingBuffer` of core/ring_buffer.py: any number of tasks contend for one lock around a
    synchronous buffer. A task's call is split into the points where other tasks may run: the call
    itself, taking the lock, the body, and giving the lock back. `snapshot()` is a read whose holder
    keeps the lock for as long as it likes. */
module AsyncRingBuffer {
  import opened Prelude
  import opened RingBuffer

  datatype Op<T> = WriteOp(event: T) | ReadAllOp | ReadLatestOp(n: int) | SnapshotOp

  /** Where one task stands. `Served` still holds the lock. */
  datatype Task<T> = Idle | Waiting(op: Op<T>) | Locked(op: Op<T>) | Served(op: Op<T>, seen: seq<T>)

  /** `served` lists the bodies in the order they ran, each with what it returned. */
  datatype State<T> = State(capacity: nat, view: seq<T>, lock: Option<nat>, tasks: map<nat, Task<T>>,
                            served: seq<(Op<T>, seq<T>)>)

  datatype Step<T> = Request(task: nat, op: Op<T>) | Acquire(task: nat) | Body(task: nat) | Release(task: nat)

  ghost predicate Init<T>(s: State<T>) {
    s.capacity > 0 && s.view == [] && s.lock == None && s.served == [] &&
    forall t :: t in s.tasks ==> s.tasks[t] == Idle
  }

  /** What a call returns when the buffer shows `view`; a write returns nothing. */
  function Answer<T>(op: Op<T>, view: seq<T>): seq<T> {
    match op
    case WriteOp(_) => []
    case ReadAllOp => view
    case SnapshotOp => view
    case ReadLatestOp(n) => Latest(view, n)
  }

  function Effect<T>(op: Op<T>, view: seq<T>, capacity: nat): seq<T> {
    if op.WriteOp? then LastN(view + [op.event], capacity) else view
  }

  ghost predicate Next<T>(s: State<T>, step: Step<T>, s': State<T>) {
    step.task in s.tasks &&
    match step
    case Request(t, op) =>
      s.tasks[t].Idle? && s' == s.(tasks := s.tasks[t := Waiting(op)])
    case Acquire(t) =>
      s.tasks[t].Waiting? && s.lock == None &&
      s' == s.(lock := Some(t), tasks := s.tasks[t := Locked(s.tasks[t].op)])
    case Body(t) =>
      s.tasks[t].Locked? &&
      var op := s.tasks[t].op;
      var answer := Answer(op, s.view);
      s' == s.(view := Effect(op, s.view, s.capacity), tasks := s.tasks[t := Served(op, answer)],
               served := s.served + [(op, answer)])
    case Release(t) =>
      s.tasks[t].Served? && s' == s.(lock := None, tasks := s.tasks[t := Idle])
  }

  ghost predicate IsRun<T>(states: seq<State<T>>, steps: seq<Step<T>>) {
    |states| == |steps| + 1 && Init(states[0]) &&
    forall i :: 0 <= i < |steps| ==> Next(states[i], steps[i], states[i + 1])
  }

  /** The events written by the bodies in `served`, in order. */
  function Writes<T>(served: seq<(Op<T>, seq<T>)>): seq<T> {
    if served == [] then []
    else
      var last := served[|served| - 1].0;
      Writes(served[..|served| - 1]) + if last.WriteOp? then [last.event] else []
  }

  ghost predicate HoldsLock<T>(s: State<T>, t: nat) {
    t in s.tasks && (s.tasks[t].Locked? || s.tasks[t].Served?)
  }

  ghost predicate Inv<T>(s: State<T>) {
    && s.view == LastN(Writes(s.served), s.capacity)
    && (forall t: nat :: HoldsLock(s, t) ==> s.lock == Some(t))
    && (forall t :: t in s.tasks && s.tasks[t].Served? && !s.tasks[t].op.WriteOp?
          ==> s.tasks[t].seen == Answer(s.tasks[t].op, s.view))
  }

  lemma NextKeepsInv<T>(s: State<T>, step: Step<T>, s': State<T>)
    requires Inv(s) && Next(s, step, s')
    ensures Inv(s')
  {
    var t := step.task;
    if step.Body? {
      var op := s.tasks[t].op;
      var last := (op, Answer(op, s.view));
      assert s'.served[..|s'.served| - 1] == s.served;
      if op.WriteOp? {
        LastNAppend(Writes(s.served), op.event, s.capacity);
      }
      assert HoldsLock(s, t);
      forall u | u in s'.tasks && s'.tasks[u].Served? && !s'.tasks[u].op.WriteOp?
        ensures s'.tasks[u].seen == Answer(s'.tasks[u].op, s'.view)
      {
        if u != t {
          assert HoldsLock(s, u);
        }
      }
    }
    forall u: nat | HoldsLock(s', u) ensures s'.lock == Some(u) {
      if u != t {
        assert HoldsLock(s, u);
        if step.Release? {
          assert HoldsLock(s, t);
        }
      }
    }
  }

  lemma InitHasInv<T>(s: State<T>)
    requires Init(s)
    ensures Inv(s)
  {
  }

  lemma {:induction false} RunKeepsInv<T>(states: seq<State<T>>, steps: seq<Step<T>>, i: nat)
    requires IsRun(states, steps) && i < |states|
    ensures Inv(states[i])
  {
    hide Inv, Next;
    if i == 0 {
      InitHasInv(states[0]);
    } else {
      RunKeepsInv(states, steps, i - 1);
      NextKeepsInv(states[i - 1], steps[i - 1], states[i]);
    }
  }

  /** Mutual exclusion in every reachable state. */
  lemma OneHolder<T>(states: seq<State<T>>, steps: seq<Step<T>>, i: nat, t: nat, u: nat)
    requires IsRun(states, steps) && i < |states|
    requires HoldsLock(states[i], t) && HoldsLock(states[i], u)
    ensures t == u
  {
    RunKeepsInv(states, steps, i);
  }

  ghost predicate HoldsRead<T>(s: State<T>, t: nat) {
    t in s.tasks && s.tasks[t].Served? && !s.tasks[t].op.WriteOp?
  }

  lemma StepKeepsHeldRead<T>(s: State<T>, step: Step<T>, s': State<T>, t: nat)
    requires Inv(s) && Next(s, step, s') && HoldsRead(s, t) && step != Release(t)
    ensures HoldsRead(s', t) && s'.tasks[t] == s.tasks[t] && s'.served == s.served
  {
    assert HoldsLock(s, t);
    if step.Body? {
      assert HoldsLock(s, step.task);
    }
  }

  /** While one task keeps a snapshot (or any read it was served), nothing is written, and what it
      holds is what the buffer shows, at every point of the interval. */
  lemma HeldReadStaysCurrent<T>(states: seq<State<T>>, steps: seq<Step<T>>, t: nat, a: nat, b: nat)
    requires IsRun(states, steps) && a <= b < |states|
    requires HoldsRead(states[a], t)
    requires Release(t) !in steps[a..b]
    ensures HoldsRead(states[b], t) && states[b].tasks[t] == states[a].tasks[t]
    ensures Writes(states[b].served) == Writes(states[a].served)
    ensures states[b].tasks[t].seen
         == Answer(states[a].tasks[t].op, LastN(Writes(states[b].served), states[b].capacity))
  {
    HeldReadKept(states, steps, t, a, b);
    RunKeepsInv(states, steps, b);
  }

  lemma {:induction false} HeldReadKept<T>(states: seq<State<T>>, steps: seq<Step<T>>, t: nat, a: nat, b: nat)
    requires IsRun(states, steps) && a <= b < |states|
    requires HoldsRead(states[a], t)
    requires Release(t) !in steps[a..b]
    ensures HoldsRead(states[b], t) && states[b].tasks[t] == states[a].tasks[t]
    ensures states[b].served == states[a].served
    decreases b - a
  {
    if a < b {
      assert Release(t) !in steps[a..b - 1] by {
        assert steps[a..b - 1] == steps[a..b][..b - 1 - a];
      }
      HeldReadKept(states, steps, t, a, b - 1);
      assert steps[b - 1] != Release(t) by {
        assert steps[b - 1] == steps[a..b][b - 1 - a];
      }
      RunStep(states, steps, t, b - 1);
    }
  }

  lemma RunStep<T>(states: seq<State<T>>, steps: seq<Step<T>>, t: nat, i: nat)
    requires IsRun(states, steps) && i < |steps| && HoldsRead(states[i], t) && steps[i] != Release(t)
    ensures HoldsRead(states[i + 1], t) && states[i + 1].tasks[t] == states[i].tasks[t]
    ensures states[i + 1].served == states[i].served
  {
    RunKeepsInv(states, steps, i);
    StepKeepsHeldRead(states[i], steps[i], states[i + 1], t);
  }

  /** Linearizability: the bodies, in the order they ran, return what a plain FIFO of the same
      capacity would return to the same calls made one after the other. */
  ghost predicate IsSequential<T>(served: seq<(Op<T>, seq<T>)>, capacity: nat) {
    forall i :: 0 <= i < |served| ==>
      served[i].1 == Answer(served[i].0, LastN(Writes(served[..i]), capacity))
  }

  lemma SequentialPush<T>(served: seq<(Op<T>, seq<T>)>, op: Op<T>, capacity: nat)
    requires IsSequential(served, capacity)
    ensures IsSequential(served + [(op, Answer(op, LastN(Writes(served), capacity)))], capacity)
  {
    var all := served + [(op, Answer(op, LastN(Writes(served), capacity)))];
    forall k | 0 <= k < |all| ensures all[k].1 == Answer(all[k].0, LastN(Writes(all[..k]), capacity)) {
      assert all[..k] == served[..k];
    }
  }

  lemma ServedStep<T>(s: State<T>, step: Step<T>, s': State<T>)
    requires Inv(s) && Next(s, step, s')
    ensures s'.capacity == s.capacity
    ensures !step.Body? ==> s'.served == s.served
    ensures step.Body? ==>
      exists op :: s'.served == s.served + [(op, Answer(op, LastN(Writes(s.served), s.capacity)))]
  {
    if step.Body? {
      var op := s.tasks[step.task].op;
      assert s'.served == s.served + [(op, Answer(op, LastN(Writes(s.served), s.capacity)))];
    }
  }

  lemma NothingServed<T>(s: State<T>)
    requires Init(s)
    ensures IsSequential(s.served, s.capacity)
  {
  }

  lemma {:induction false} RunIsSequential<T>(states: seq<State<T>>, steps: seq<Step<T>>, i: nat)
    requires IsRun(states, steps) && i < |states|
    ensures IsSequential(states[i].served, states[i].capacity)
  {
    hide IsSequential, Next, Inv, Writes, Answer;
    if i == 0 {
      NothingServed(states[0]);
    } else {
      var s, s' := states[i - 1], states[i];
      assert Next(s, steps[i - 1], s');
      RunIsSequential(states, steps, i - 1);
      RunKeepsInv(states, steps, i - 1);
      ServedStep(s, steps[i - 1], s');
      if steps[i - 1].Body? {
        var op :| s'.served == s.served + [(op, Answer(op, LastN(Writes(s.served), s.capacity)))];
        SequentialPush(s.served, op, s.capacity);
      }
    }
  }

  /** The body of each method, on the synchronous buffer it wraps: the write, the reads and the snapshot are
      the buffer's own calls. */
  method Serve<T>(buffer: DequeRingBuffer<T>, op: Op<T>) returns (answer: seq<T>)
    requires buffer.Valid()
    modifies buffer
    ensures buffer.Valid() && buffer.history == old(buffer.history) + if op.WriteOp? then [op.event] else []
    ensures answer == Answer(op, LastN(old(buffer.history), buffer.capacity))
    ensures LastN(buffer.history, buffer.capacity)
         == Effect(op, LastN(old(buffer.history), buffer.capacity), buffer.capacity)
  {
    match op
    case WriteOp(event) =>
      LastNAppend(buffer.history, event, buffer.capacity);
      buffer.Write(event);
      answer := [];
    case ReadAllOp =>
      answer := buffer.ReadAll();
    case SnapshotOp =>
      answer := buffer.ReadAll();
    case ReadLatestOp(n) =>
      answer := buffer.ReadLatest(n);
  }

  /** The calls of a run, made one after the other on a fresh buffer, answer what the run's bodies answered. */
  method Rerun<T>(served: seq<(Op<T>, seq<T>)>, capacity: nat) returns (answers: seq<seq<T>>)
    requires capacity > 0 && IsSequential(served, capacity)
    ensures |answers| == |served| && forall i :: 0 <= i < |served| ==> answers[i] == served[i].1
  {
    hide Writes, Answer, Effect, LastN;
    WritesNothing<T>();
    var buffer := new DequeRingBuffer<T>(capacity);
    answers := [];
    for i := 0 to |served|
      invariant buffer.Valid() && fresh(buffer) && buffer.capacity == capacity
      invariant buffer.history == Writes(served[..i])
      invariant |answers| == i && forall k :: 0 <= k < i ==> answers[k] == served[k].1
    {
      WritesMore(served, i);
      var answer := Serve(buffer, served[i].0);
      answers := answers + [answer];
    }
  }

  lemma WritesNothing<T>()
    ensures Writes<T>([]) == []
  {
  }

  lemma WritesMore<T>(served: seq<(Op<T>, seq<T>)>, i: nat)
    requires i < |served|
    ensures Writes(served[..i + 1])
         == Writes(served[..i]) + if served[i].0.WriteOp? then [served[i].0.event] else []
  {
    assert served[..i + 1][..i] == served[..i];
  }
}
