/** The limiter of emitter/api.py as FastAPI runs it: the check is no coroutine, so requests run on several
    threads and interleave between any two reads and writes of the shared table. */
module LimiterThreads {
  import opened Prelude
  import opened RateLimiter

  /** A `[minute, count]` list; whose it is does not change. */
  datatype Cell = Cell(key: string, minute: int, count: nat)

  /** Where the thread of one request stands: it has read the clock; it has looked its key up; it has its
      list; it has read the count; it has written it back; it has answered. Lists are named by their
      position in the heap. */
  datatype Thread =
    | Began(r: Request)
    | Got(r: Request, found: Option<nat>)
    | Bound(r: Request, id: nat)
    | Loaded(r: Request, id: nat, count: nat)
    | Stored(r: Request, id: nat)
    | Done(r: Request, verdict: Verdict)

  /** The threads are listed in the order in which their requests began. */
  datatype State = State(heap: seq<Cell>, rate: map<string, nat>, threads: seq<Thread>)

  const START: State := State([], map[], [])

  datatype Step = Begin(r: Request) | Get(t: nat) | Bind(t: nat) | Load(t: nat) | Store(t: nat) | Check(t: nat)

  function KeyOf(t: Thread): string {
    if t.r.key.Some? then t.r.key.value else ""
  }

  function MinuteOf(t: Thread): int {
    Minute(t.r.now)
  }

  /** `window is None or window[0] != minute`. */
  predicate Stale(s: State, t: Thread)
    requires t.Got?
  {
    t.found.None? || t.found.value >= |s.heap| || s.heap[t.found.value].minute != MinuteOf(t)
  }

  function SetThread(s: State, t: nat, thread: Thread): State
    requires t < |s.threads|
  {
    s.(threads := s.threads[t := thread])
  }

  function Apply(c: Config, s: State, step: Step): Option<State> {
    match step
    case Begin(r) =>
      Some(s.(threads := s.threads + [if Authorized(c.apiKeys, r) then Began(r) else Done(r, Unauthorized)]))
    case Get(t) =>
      if t >= |s.threads| || !s.threads[t].Began? then None
      else
        var th := s.threads[t];
        var key := KeyOf(th);
        Some(SetThread(s, t, Got(th.r, if key in s.rate then Some(s.rate[key]) else None)))
    case Bind(t) =>
      if t >= |s.threads| || !s.threads[t].Got? then None
      else
        var th := s.threads[t];
        if Stale(s, th) then
          Some(SetThread(s, t, Bound(th.r, |s.heap|))
               .(heap := s.heap + [Cell(KeyOf(th), MinuteOf(th), 0)], rate := s.rate[KeyOf(th) := |s.heap|]))
        else Some(SetThread(s, t, Bound(th.r, th.found.value)))
    case Load(t) =>
      if t >= |s.threads| || !s.threads[t].Bound? || s.threads[t].id >= |s.heap| then None
      else
        var th := s.threads[t];
        Some(SetThread(s, t, Loaded(th.r, th.id, s.heap[th.id].count)))
    case Store(t) =>
      if t >= |s.threads| || !s.threads[t].Loaded? || s.threads[t].id >= |s.heap| then None
      else
        var th := s.threads[t];
        Some(SetThread(s, t, Stored(th.r, th.id)).(heap := s.heap[th.id := s.heap[th.id].(count := th.count + 1)]))
    case Check(t) =>
      if t >= |s.threads| || !s.threads[t].Stored? || s.threads[t].id >= |s.heap| then None
      else
        var th := s.threads[t];
        Some(SetThread(s, t, Done(th.r, if s.heap[th.id].count > c.rateLimit then TooMany else Accepted(KeyOf(th)))))
  }

  function Run(c: Config, steps: seq<Step>): Option<State> {
    if steps == [] then Some(START)
    else
      var before := Run(c, steps[..|steps| - 1]);
      if before.None? then None else Apply(c, before.value, steps[|steps| - 1])
  }

  /** The requests in the order they began. */
  function History(threads: seq<Thread>): seq<Request> {
    seq(|threads|, i requires 0 <= i < |threads| => threads[i].r)
  }

  predicate Active(t: Thread) {
    !t.Done?
  }

  // Whatever overlaps: refusals are right.

  /** The thread has counted its request. */
  predicate HasCounted(t: Thread) {
    t.Stored? || (t.Done? && !t.verdict.Unauthorized?)
  }

  function Counted(threads: seq<Thread>, key: string, minute: int): nat {
    if threads == [] then 0
    else
      var t := threads[|threads| - 1];
      Counted(threads[..|threads| - 1], key, minute)
      + if HasCounted(t) && KeyOf(t) == key && MinuteOf(t) == minute then 1 else 0
  }

  function CountedIn(s: State, id: nat): nat
    requires id < |s.heap|
  {
    Counted(s.threads, s.heap[id].key, s.heap[id].minute)
  }

  /** A thread's list is one of its own key and minute. */
  predicate Holds(s: State, t: Thread, id: nat) {
    id < |s.heap| && s.heap[id].key == KeyOf(t) && s.heap[id].minute == MinuteOf(t)
  }

  ghost predicate ThreadFits(c: Config, s: State, t: Thread) {
    && (Active(t) || t.verdict != Unauthorized ==> Authorized(c.apiKeys, t.r))
    && match t
       case Began(_) => true
       case Got(_, found) => found.Some? ==> found.value < |s.heap| && s.heap[found.value].key == KeyOf(t)
       case Bound(_, id) => Holds(s, t, id)
       case Loaded(_, id, count) => Holds(s, t, id) && count <= CountedIn(s, id)
       case Stored(_, id) => Holds(s, t, id)
       case Done(_, verdict) => verdict.TooMany? ==> Counted(s.threads, KeyOf(t), MinuteOf(t)) > c.rateLimit
  }

  ghost predicate Fits(c: Config, s: State) {
    && (forall k :: k in s.rate ==> s.rate[k] < |s.heap| && s.heap[s.rate[k]].key == k)
    && (forall id :: 0 <= id < |s.heap| ==> s.heap[id].count <= CountedIn(s, id))
    && (forall i :: 0 <= i < |s.threads| ==> ThreadFits(c, s, s.threads[i]))
  }

  lemma {:induction false} CountedUpdate(threads: seq<Thread>, t: nat, now: Thread, key: string, minute: int)
    requires t < |threads| && now.r == threads[t].r
    ensures Counted(threads[t := now], key, minute)
         == Counted(threads, key, minute)
            + (if HasCounted(now) && KeyOf(now) == key && MinuteOf(now) == minute then 1 else 0)
            - (if HasCounted(threads[t]) && KeyOf(now) == key && MinuteOf(now) == minute then 1 else 0)
  {
    var n := |threads| - 1;
    if t < n {
      assert threads[t := now][..n] == threads[..n][t := now];
      CountedUpdate(threads[..n], t, now, key, minute);
    } else {
      assert threads[t := now][..n] == threads[..n];
    }
  }

  lemma BeginFits(c: Config, s: State, r: Request, s': State)
    requires Fits(c, s) && Apply(c, s, Begin(r)) == Some(s')
    ensures Fits(c, s')
  {
    assert s'.threads[..|s.threads|] == s.threads;
    forall key, minute ensures Counted(s'.threads, key, minute) == Counted(s.threads, key, minute) {
    }
    forall i | 0 <= i < |s.threads| ensures ThreadFits(c, s', s'.threads[i]) {
      assert ThreadFits(c, s, s.threads[i]);
    }
  }

  /** A step of one thread that leaves the lists alone. */
  lemma ThreadStepFits(c: Config, s: State, t: nat, now: Thread)
    requires Fits(c, s) && t < |s.threads| && now.r == s.threads[t].r && Active(s.threads[t])
    requires HasCounted(now) == HasCounted(s.threads[t]) && ThreadFits(c, s, now)
    ensures Fits(c, SetThread(s, t, now))
  {
    var s' := SetThread(s, t, now);
    forall key, minute ensures Counted(s'.threads, key, minute) == Counted(s.threads, key, minute) {
      CountedUpdate(s.threads, t, now, key, minute);
    }
    forall i | 0 <= i < |s'.threads| ensures ThreadFits(c, s', s'.threads[i]) {
      assert ThreadFits(c, s, s.threads[i]);
    }
  }

  lemma BindFits(c: Config, s: State, t: nat, s': State)
    requires Fits(c, s) && Apply(c, s, Bind(t)) == Some(s')
    ensures Fits(c, s')
  {
    var th := s.threads[t];
    assert ThreadFits(c, s, th);
    if Stale(s, th) {
      var mid := s.(heap := s.heap + [Cell(KeyOf(th), MinuteOf(th), 0)], rate := s.rate[KeyOf(th) := |s.heap|]);
      forall i | 0 <= i < |s.threads| ensures ThreadFits(c, mid, s.threads[i]) {
        assert ThreadFits(c, s, s.threads[i]);
      }
      assert Fits(c, mid);
      ThreadStepFits(c, mid, t, Bound(th.r, |s.heap|));
    } else {
      ThreadStepFits(c, s, t, Bound(th.r, th.found.value));
    }
  }

  lemma StoreFits(c: Config, s: State, t: nat, s': State)
    requires Fits(c, s) && Apply(c, s, Store(t)) == Some(s')
    ensures Fits(c, s')
  {
    var th := s.threads[t];
    assert ThreadFits(c, s, th);
    forall key, minute
      ensures Counted(s'.threads, key, minute)
           == Counted(s.threads, key, minute) + if KeyOf(th) == key && MinuteOf(th) == minute then 1 else 0
    {
      CountedUpdate(s.threads, t, Stored(th.r, th.id), key, minute);
    }
    forall i | 0 <= i < |s'.threads| ensures ThreadFits(c, s', s'.threads[i]) {
      assert ThreadFits(c, s, s.threads[i]);
    }
  }

  lemma StepFits(c: Config, s: State, step: Step, s': State)
    requires Fits(c, s) && Apply(c, s, step) == Some(s')
    ensures Fits(c, s')
  {
    hide Fits, Stale, Counted;
    match step
    case Begin(r) => BeginFits(c, s, r, s');
    case Bind(t) => BindFits(c, s, t, s');
    case Store(t) => StoreFits(c, s, t, s');
    case Get(t) => GetFits(c, s, t, s');
    case Load(t) => LoadFits(c, s, t, s');
    case Check(t) => CheckFits(c, s, t, s');
  }

  lemma GetFits(c: Config, s: State, t: nat, s': State)
    requires Fits(c, s) && Apply(c, s, Get(t)) == Some(s')
    ensures Fits(c, s')
  {
    assert ThreadFits(c, s, s.threads[t]);
    ThreadStepFits(c, s, t, s'.threads[t]);
  }

  lemma LoadFits(c: Config, s: State, t: nat, s': State)
    requires Fits(c, s) && Apply(c, s, Load(t)) == Some(s')
    ensures Fits(c, s')
  {
    assert ThreadFits(c, s, s.threads[t]);
    ThreadStepFits(c, s, t, s'.threads[t]);
  }

  lemma CheckFits(c: Config, s: State, t: nat, s': State)
    requires Fits(c, s) && Apply(c, s, Check(t)) == Some(s')
    ensures Fits(c, s')
  {
    assert ThreadFits(c, s, s.threads[t]);
    ThreadStepFits(c, s, t, s'.threads[t]);
  }

  lemma {:induction false} RunFits(c: Config, steps: seq<Step>, s: State)
    requires Run(c, steps) == Some(s)
    ensures Fits(c, s)
  {
    hide Fits, Apply;
    if steps == [] {
      StartFits(c);
    } else {
      var before := Run(c, steps[..|steps| - 1]).value;
      RunFits(c, steps[..|steps| - 1], before);
      StepFits(c, before, steps[|steps| - 1], s);
    }
  }

  lemma StartFits(c: Config)
    ensures Fits(c, START)
  {
  }

  lemma {:induction false} CountedAreRequests(c: Config, threads: seq<Thread>, key: string, minute: int)
    requires forall i :: 0 <= i < |threads| && HasCounted(threads[i]) ==> Authorized(c.apiKeys, threads[i].r)
    ensures Counted(threads, key, minute) <= Requests(c.apiKeys, History(threads), key, minute)
  {
    if threads != [] {
      CountedAreRequests(c, threads[..|threads| - 1], key, minute);
      assert History(threads)[..|threads| - 1] == History(threads[..|threads| - 1]);
    }
  }

  /** In every interleaving a request is refused only if its key has made more requests in its minute than
      the limit allows: overlapping requests err on one side only. */
  lemma RefusedOnlyOverLimit(c: Config, steps: seq<Step>, s: State, t: nat)
    requires Run(c, steps) == Some(s) && t < |s.threads| && s.threads[t].Done? && s.threads[t].verdict == TooMany
    ensures Requests(c.apiKeys, History(s.threads), KeyOf(s.threads[t]), MinuteOf(s.threads[t])) > c.rateLimit
  {
    RunFits(c, steps, s);
    assert ThreadFits(c, s, s.threads[t]);
    forall i | 0 <= i < |s.threads| && HasCounted(s.threads[i]) ensures Authorized(c.apiKeys, s.threads[i].r) {
      assert ThreadFits(c, s, s.threads[i]);
    }
    CountedAreRequests(c, s.threads, KeyOf(s.threads[t]), MinuteOf(s.threads[t]));
  }

  // Requests of one key that do not overlap.

  /** The request begins while no other of its key is under way. */
  ghost predicate Alone(c: Config, s: State, step: Step) {
    step.Begin? && Authorized(c.apiKeys, step.r) ==>
      forall i :: 0 <= i < |s.threads| && Active(s.threads[i]) ==> KeyOf(s.threads[i]) != step.r.key.value
  }

  ghost predicate NoOverlap(c: Config, steps: seq<Step>) {
    steps != [] ==>
      && NoOverlap(c, steps[..|steps| - 1]) && Run(c, steps[..|steps| - 1]).Some?
      && Alone(c, Run(c, steps[..|steps| - 1]).value, steps[|steps| - 1])
  }

  function Table(s: State, key: string): Option<Window> {
    if key in s.rate && s.rate[key] < |s.heap|
    then Some(Window(s.heap[s.rate[key]].minute, s.heap[s.rate[key]].count)) else None
  }

  function Entry(windows: map<string, Window>, key: string): Option<Window> {
    if key in windows then Some(windows[key]) else None
  }

  function EnterFrom(entry: Option<Window>, minute: int): Window {
    if entry.Some? && entry.value.minute == minute then Window(minute, entry.value.count + 1) else Window(minute, 1)
  }

  /** The table of the one-at-a-time limiter before the request, and the window it leaves. */
  function Prior(c: Config, s: State, t: nat): Option<Window>
    requires t < |s.threads|
  {
    Entry(Windows(c.apiKeys, History(s.threads)[..t]), KeyOf(s.threads[t]))
  }

  function Left(c: Config, s: State, t: nat): Window
    requires t < |s.threads|
  {
    EnterFrom(Prior(c, s, t), MinuteOf(s.threads[t]))
  }

  function Now(c: Config, s: State, key: string): Option<Window> {
    Entry(Windows(c.apiKeys, History(s.threads)), key)
  }

  predicate HasList(s: State, key: string, id: nat, window: Window) {
    key in s.rate && s.rate[key] == id && Table(s, key) == Some(window)
  }

  /** How far the thread has got, compared with one step of the one-at-a-time limiter. */
  ghost predicate Midway(c: Config, s: State, t: nat)
    requires t < |s.threads|
  {
    var th, key, left := s.threads[t], KeyOf(s.threads[t]), Left(c, s, t);
    match th
    case Began(_) => Table(s, key) == Prior(c, s, t) && Now(c, s, key) == Some(left)
    case Got(_, found) =>
      && Table(s, key) == Prior(c, s, t) && Now(c, s, key) == Some(left)
      && found == if key in s.rate then Some(s.rate[key]) else None
    case Bound(_, id) => HasList(s, key, id, Window(left.minute, left.count - 1)) && Now(c, s, key) == Some(left)
    case Loaded(_, id, count) =>
      && HasList(s, key, id, Window(left.minute, left.count - 1)) && Now(c, s, key) == Some(left)
      && count == left.count - 1
    case Stored(_, id) => HasList(s, key, id, left) && Now(c, s, key) == Some(left)
    case Done(r, verdict) => verdict == Decide(c, History(s.threads)[..t], r)
  }

  ghost predicate NoneActive(s: State, key: string) {
    forall i :: 0 <= i < |s.threads| && Active(s.threads[i]) ==> KeyOf(s.threads[i]) != key
  }

  ghost predicate Sequential(c: Config, s: State) {
    && (forall t :: 0 <= t < |s.threads| ==> Midway(c, s, t))
    && (forall t, u :: 0 <= t < u < |s.threads| && Active(s.threads[t]) && Active(s.threads[u]) ==>
          KeyOf(s.threads[t]) != KeyOf(s.threads[u]))
    && (forall key :: NoneActive(s, key) ==> Table(s, key) == Now(c, s, key))
  }

  lemma HistoryKept(threads: seq<Thread>, t: nat, now: Thread)
    requires t < |threads| && now.r == threads[t].r
    ensures History(threads[t := now]) == History(threads)
  {
  }

  /** A step of one thread touches its own key only. */
  ghost predicate Local(s: State, s': State, key: string) {
    forall k :: k != key ==> Table(s', k) == Table(s, k)
                             && (k in s'.rate <==> k in s.rate) && (k in s.rate ==> s'.rate[k] == s.rate[k])
  }

  lemma OthersMidway(c: Config, s: State, t: nat, s': State, u: nat)
    requires Sequential(c, s) && t < |s.threads| && u < |s.threads| && u != t && Active(s.threads[t])
    requires |s'.threads| == |s.threads| && s'.threads[u] == s.threads[u]
    requires History(s'.threads) == History(s.threads) && Local(s, s', KeyOf(s.threads[t]))
    ensures Midway(c, s', u)
  {
    hide Decide, Windows, Table, NoneActive;
    assert Midway(c, s, u);
    if Active(s.threads[u]) {
      assert KeyOf(s.threads[u]) != KeyOf(s.threads[t]);
    }
  }

  lemma ThreadStepSequential(c: Config, s: State, t: nat, now: Thread, s': State)
    requires Sequential(c, s) && t < |s.threads| && Active(s.threads[t]) && now.r == s.threads[t].r
    requires s'.threads == s.threads[t := now] && Local(s, s', KeyOf(s.threads[t])) && Midway(c, s', t)
    requires now.Done? ==> Table(s', KeyOf(now)) == Now(c, s', KeyOf(now))
    ensures Sequential(c, s')
  {
    hide Midway, Table, Windows;
    HistoryKept(s.threads, t, now);
    forall u | 0 <= u < |s'.threads| ensures Midway(c, s', u) {
      if u != t {
        OthersMidway(c, s, t, s', u);
      }
    }
    forall key | NoneActive(s', key) ensures Table(s', key) == Now(c, s', key) {
      if key != KeyOf(now) {
        NoneActiveBefore(s, t, now, s', key);
      } else {
        assert !Active(s'.threads[t]);
      }
    }
  }

  lemma NoneActiveBefore(s: State, t: nat, now: Thread, s': State, key: string)
    requires t < |s.threads| && now.r == s.threads[t].r && s'.threads == s.threads[t := now]
    requires NoneActive(s', key) && key != KeyOf(now)
    ensures NoneActive(s, key)
  {
    forall i | 0 <= i < |s.threads| && Active(s.threads[i]) ensures KeyOf(s.threads[i]) != key {
      if i != t {
        assert s'.threads[i] == s.threads[i];
      }
    }
  }

  lemma EnterIs(windows: map<string, Window>, key: string, minute: int)
    ensures Enter(windows, key, minute) == EnterFrom(Entry(windows, key), minute)
  {
  }

  lemma WindowsPush(c: Config, threads: seq<Thread>, th: Thread)
    ensures History(threads + [th]) == History(threads) + [th.r]
    ensures Windows(c.apiKeys, History(threads + [th]))
         == var below := Windows(c.apiKeys, History(threads));
            if Authorized(c.apiKeys, th.r)
            then below[KeyOf(th) := EnterFrom(Entry(below, KeyOf(th)), MinuteOf(th))] else below
  {
    var all := History(threads) + [th.r];
    assert History(threads + [th]) == all && all[..|all| - 1] == History(threads);
    EnterIs(Windows(c.apiKeys, History(threads)), KeyOf(th), MinuteOf(th));
  }

  lemma BeginKeepsOthers(c: Config, s: State, r: Request, s': State, u: nat)
    requires Sequential(c, s) && Apply(c, s, Begin(r)) == Some(s') && Alone(c, s, Begin(r)) && u < |s.threads|
    ensures Midway(c, s', u)
  {
    hide Decide, Windows, NoneActive;
    assert Midway(c, s, u);
    var th := s'.threads[|s.threads|];
    WindowsPush(c, s.threads, th);
    assert History(s'.threads)[..u] == History(s.threads)[..u];
  }

  lemma BeginSequential(c: Config, s: State, r: Request, s': State)
    requires Sequential(c, s) && Apply(c, s, Begin(r)) == Some(s') && Alone(c, s, Begin(r))
    ensures Sequential(c, s')
  {
    hide Windows, Midway;
    var n := |s.threads|;
    var th := s'.threads[n];
    WindowsPush(c, s.threads, th);
    forall u | 0 <= u < |s'.threads| ensures Midway(c, s', u) {
      if u < n {
        BeginKeepsOthers(c, s, r, s', u);
      } else {
        BeginMidway(c, s, r, s');
      }
    }
    forall key | NoneActive(s', key) ensures Table(s', key) == Now(c, s', key) {
      assert NoneActive(s, key) by {
        assert forall i :: 0 <= i < n ==> s'.threads[i] == s.threads[i];
      }
      assert Active(s'.threads[n]) ==> KeyOf(s'.threads[n]) != key;
    }
  }

  lemma BeginMidway(c: Config, s: State, r: Request, s': State)
    requires Sequential(c, s) && Apply(c, s, Begin(r)) == Some(s') && Alone(c, s, Begin(r))
    ensures Midway(c, s', |s.threads|)
  {
    hide Windows;
    var n := |s.threads|;
    WindowsPush(c, s.threads, s'.threads[n]);
    assert History(s'.threads)[..n] == History(s.threads);
    if Authorized(c.apiKeys, r) {
      assert NoneActive(s, r.key.value);
    }
  }

  lemma GetSequential(c: Config, s: State, t: nat, s': State)
    requires Sequential(c, s) && Apply(c, s, Get(t)) == Some(s')
    ensures Sequential(c, s')
  {
    hide Windows, Sequential;
    MidwayAt(c, s, t);
    HistoryKept(s.threads, t, s'.threads[t]);
    ThreadStepSequential(c, s, t, s'.threads[t], s');
  }

  lemma MidwayAt(c: Config, s: State, t: nat)
    requires Sequential(c, s) && t < |s.threads|
    ensures Midway(c, s, t)
  {
  }

  lemma BindSequential(c: Config, s: State, t: nat, s': State)
    requires Sequential(c, s) && Fits(c, s) && Apply(c, s, Bind(t)) == Some(s')
    ensures Sequential(c, s')
  {
    hide Windows, Sequential, ThreadFits, CountedIn;
    MidwayAt(c, s, t);
    HistoryKept(s.threads, t, s'.threads[t]);
    ThreadStepSequential(c, s, t, s'.threads[t], s');
  }

  lemma LoadSequential(c: Config, s: State, t: nat, s': State)
    requires Sequential(c, s) && Apply(c, s, Load(t)) == Some(s')
    ensures Sequential(c, s')
  {
    hide Windows, Sequential;
    MidwayAt(c, s, t);
    HistoryKept(s.threads, t, s'.threads[t]);
    ThreadStepSequential(c, s, t, s'.threads[t], s');
  }

  lemma StoreSequential(c: Config, s: State, t: nat, s': State)
    requires Sequential(c, s) && Fits(c, s) && Apply(c, s, Store(t)) == Some(s')
    ensures Sequential(c, s')
  {
    hide Windows, Sequential, ThreadFits, CountedIn;
    MidwayAt(c, s, t);
    HistoryKept(s.threads, t, s'.threads[t]);
    ThreadStepSequential(c, s, t, s'.threads[t], s');
  }

  lemma CheckSequential(c: Config, s: State, t: nat, s': State)
    requires Sequential(c, s) && Fits(c, s) && Apply(c, s, Check(t)) == Some(s')
    ensures Sequential(c, s')
  {
    hide Windows, Sequential, CountedIn;
    MidwayAt(c, s, t);
    assert ThreadFits(c, s, s.threads[t]);
    HistoryKept(s.threads, t, s'.threads[t]);
    EnterIs(Windows(c.apiKeys, History(s.threads)[..t]), KeyOf(s.threads[t]), MinuteOf(s.threads[t]));
    ThreadStepSequential(c, s, t, s'.threads[t], s');
  }

  lemma {:induction false} RunSequential(c: Config, steps: seq<Step>, s: State)
    requires Run(c, steps) == Some(s) && NoOverlap(c, steps)
    ensures Sequential(c, s)
  {
    hide Fits, Apply, Sequential, Alone;
    if steps == [] {
      StartSequential(c);
    } else {
      var before, step := Run(c, steps[..|steps| - 1]).value, steps[|steps| - 1];
      RunSequential(c, steps[..|steps| - 1], before);
      RunFits(c, steps[..|steps| - 1], before);
      match step
      case Begin(r) => BeginSequential(c, before, r, s);
      case Get(t) => GetSequential(c, before, t, s);
      case Bind(t) => BindSequential(c, before, t, s);
      case Load(t) => LoadSequential(c, before, t, s);
      case Store(t) => StoreSequential(c, before, t, s);
      case Check(t) => CheckSequential(c, before, t, s);
    }
  }

  lemma StartSequential(c: Config)
    ensures Sequential(c, START)
  {
    assert History([]) == [];
  }

  /** As long as requests of one key do not overlap, however those of other keys do, every answer is the one
      of the one-at-a-time limiter on the requests that began before. */
  lemma NoOverlapIsSequential(c: Config, steps: seq<Step>, s: State, t: nat)
    requires Run(c, steps) == Some(s) && NoOverlap(c, steps) && t < |s.threads| && s.threads[t].Done?
    ensures s.threads[t].verdict == Decide(c, History(s.threads)[..t], s.threads[t].r)
  {
    RunSequential(c, steps, s);
    MidwayAt(c, s, t);
  }

  lemma RunNext(c: Config, steps: seq<Step>, s: State, step: Step) returns (more: seq<Step>, s': State)
    requires Run(c, steps) == Some(s) && Apply(c, s, step).Some?
    ensures more == steps + [step] && Run(c, more) == Some(s') && Apply(c, s, step) == Some(s')
  {
    more, s' := steps + [step], Apply(c, s, step).value;
    assert more[..|steps|] == steps;
  }

  /** Two overlapping requests of one key in one minute, both let through by a limit of one: the second read
      the count before the first had written it. */
  lemma OverlapLetsThrough(key: string, now: real) returns (steps: seq<Step>, s: State)
    requires key != ""
    ensures Run(Config({key}, 1), steps) == Some(s) && |s.threads| == 2
    ensures s.threads[0] == Done(Request(Some(key), now), Accepted(key)) == s.threads[1]
  {
    hide Run;
    var c, r := Config({key}, 1), Request(Some(key), now);
    RunStart(c);
    steps, s := RunNext(c, [], START, Begin(r));
    steps, s := RunNext(c, steps, s, Begin(r));
    steps, s := RunNext(c, steps, s, Get(0));
    steps, s := RunNext(c, steps, s, Bind(0));
    assert s.heap == [Cell(key, Minute(now), 0)] && s.rate[key] == 0;
    steps, s := RunNext(c, steps, s, Get(1));
    steps, s := RunNext(c, steps, s, Bind(1));
    steps, s := RunNext(c, steps, s, Load(0));
    steps, s := RunNext(c, steps, s, Load(1));
    assert s.threads == [Loaded(r, 0, 0), Loaded(r, 0, 0)];
    steps, s := RunNext(c, steps, s, Store(0));
    steps, s := RunNext(c, steps, s, Check(0));
    steps, s := RunNext(c, steps, s, Store(1));
    steps, s := RunNext(c, steps, s, Check(1));
  }

  lemma RunStart(c: Config)
    ensures Run(c, []) == Some(START)
  {
  }
}
