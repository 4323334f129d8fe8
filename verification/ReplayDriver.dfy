/** Fixture replay into the ring buffer, paced by event timestamps (ingestion/csv_loader.py). Rows that
    do not map to a schema-conformant event are logged by line and skipped. */
module ReplayDriver {
  import opened Prelude
  import opened RingBuffer

  /** A CSV row after reading: the integers `int` could read, whether every column is there and the
      other columns meet the schema, and the instant of the timestamp, which is absent for a date the
      schema's pattern admits and no calendar has. */
  datatype Raw<P> = Raw(blk: Option<int>, logIndex: Option<int>, complete: bool, conforms: bool,
                        instant: Option<real>, payload: P)

  datatype Event<P> = Event(blk: int, logIndex: int, instant: Option<real>, payload: P)

  /** `map_csv_row`: `None` is a CsvRowError. */
  function MapRow<P>(raw: Raw<P>): Option<Event<P>> {
    if raw.complete && raw.blk.Some? && raw.logIndex.Some? && raw.conforms
       && raw.blk.value >= 0 && raw.logIndex.value >= 0
    then Some(Event(raw.blk.value, raw.logIndex.value, raw.instant, raw.payload))
    else None
  }

  function ValidEvents<P>(rows: seq<Raw<P>>): seq<Event<P>> {
    if rows == [] then []
    else
      var event := MapRow(rows[|rows| - 1]);
      ValidEvents(rows[..|rows| - 1]) + if event.Some? then [event.value] else []
  }

  /** The file lines of the rows that were skipped; the header is line 1. */
  function BadLines<P>(rows: seq<Raw<P>>): seq<nat> {
    if rows == [] then []
    else BadLines(rows[..|rows| - 1]) + if MapRow(rows[|rows| - 1]).None? then [|rows| + 1] else []
  }

  /** Every row is either an event or a logged line. */
  lemma {:induction false} NoRowIsLost<P>(rows: seq<Raw<P>>)
    ensures |ValidEvents(rows)| + |BadLines(rows)| == |rows|
    ensures forall i :: 0 <= i < |rows| ==> (i + 2 in BadLines(rows) <==> MapRow(rows[i]).None?)
    ensures forall line :: line in BadLines(rows) ==> 2 <= line < |rows| + 2
  {
    if rows != [] {
      NoRowIsLost(rows[..|rows| - 1]);
    }
  }

  /** The row can be an event: every column is there, both numbers read, neither is negative, and the rest
      meets the schema. */
  predicate Acceptable<P>(raw: Raw<P>) {
    raw.complete && raw.conforms && raw.blk.Some? && raw.logIndex.Some?
    && raw.blk.value >= 0 && raw.logIndex.value >= 0
  }

  /** Column by column the event is its row. */
  ghost predicate IsRow<P>(event: Event<P>, raw: Raw<P>) {
    raw.blk == Some(event.blk) && raw.logIndex == Some(event.logIndex)
    && raw.instant == event.instant && raw.payload == event.payload
  }

  /** The events are these rows, in order, and no acceptable row is passed over. */
  ghost predicate Picks<P>(rows: seq<Raw<P>>, events: seq<Event<P>>, at: seq<nat>) {
    && |at| == |events|
    && (forall i, j :: 0 <= i < j < |at| ==> at[i] < at[j])
    && (forall k :: 0 <= k < |at| ==> at[k] < |rows| && Acceptable(rows[at[k]]) && IsRow(events[k], rows[at[k]]))
    && (forall i :: 0 <= i < |rows| && Acceptable(rows[i]) ==> i in at)
  }

  lemma PickMore<P>(front: seq<Raw<P>>, last: Raw<P>, events: seq<Event<P>>, e: Event<P>, at: seq<nat>)
    requires Picks(front, events, at) && Acceptable(last) && IsRow(e, last)
    ensures Picks(front + [last], events + [e], at + [|front|])
  {
    hide Acceptable, IsRow;
    var rows, all := front + [last], at + [|front|];
    forall i | 0 <= i < |rows| && Acceptable(rows[i]) ensures i in all {
      if i < |front| {
        assert i in at;
      } else {
        assert all[|at|] == i;
      }
    }
  }

  lemma PickLess<P>(front: seq<Raw<P>>, last: Raw<P>, events: seq<Event<P>>, at: seq<nat>)
    requires Picks(front, events, at) && !Acceptable(last)
    ensures Picks(front + [last], events, at)
  {
    hide Acceptable, IsRow;
  }

  /** The events are the acceptable rows, each once, in order and unchanged. */
  lemma {:induction false} EventsAreRows<P>(rows: seq<Raw<P>>) returns (at: seq<nat>)
    ensures Picks(rows, ValidEvents(rows), at)
  {
    hide Picks;
    if rows == [] {
      at := NothingPicked<P>();
    } else {
      var front, last := rows[..|rows| - 1], rows[|rows| - 1];
      assert rows == front + [last];
      at := EventsAreRows(front);
      if Acceptable(last) {
        PickMore(front, last, ValidEvents(front), MapRow(last).value, at);
        at := at + [|front|];
      } else {
        PickLess(front, last, ValidEvents(front), at);
        assert ValidEvents(front) + [] == ValidEvents(front);
      }
    }
  }

  lemma NothingPicked<P>() returns (at: seq<nat>)
    ensures Picks<P>([], [], at)
  {
    at := [];
  }

  /** How many events step back to a lower block than the one before. */
  function StepsBack<P>(events: seq<Event<P>>): nat {
    if |events| < 2 then 0
    else StepsBack(events[..|events| - 1]) + if events[|events| - 1].blk < events[|events| - 2].blk then 1 else 0
  }

  /** The events before the first one without an instant. */
  function Dated<P>(events: seq<Event<P>>): (r: seq<Event<P>>)
    ensures r <= events
    ensures forall i :: 0 <= i < |r| ==> r[i].instant.Some?
    ensures |r| < |events| ==> events[|r|].instant.None?
  {
    if events == [] then []
    else
      var front, last := Dated(events[..|events| - 1]), events[|events| - 1];
      if |front| == |events| - 1 && last.instant.Some? then front + [last] else front
  }

  predicate AllDated<P>(events: seq<Event<P>>) {
    forall i :: 0 <= i < |events| ==> events[i].instant.Some?
  }

  function PositivePart(x: real): real { if x > 0.0 then x else 0.0 }

  /** The sleeps between consecutive events. */
  function Sleeps<P>(events: seq<Event<P>>, speed: real): real
    requires speed > 0.0 && AllDated(events)
  {
    var n := |events|;
    if n < 2 then 0.0
    else Sleeps(events[..n - 1], speed)
         + PositivePart((events[n - 1].instant.value - events[n - 2].instant.value) / speed)
  }

  /** `asap` or a positive factor. */
  datatype Speed = Asap | Factor(v: real)

  predicate ValidSpeed(speed: Speed) { speed.Factor? ==> speed.v > 0.0 }

  function TotalSleep<P>(events: seq<Event<P>>, speed: Speed): real
    requires ValidSpeed(speed) && AllDated(events)
  {
    if speed.Asap? then 0.0 else Sleeps(events, speed.v)
  }

  lemma ValidEventsOfPrefix<P>(rows: seq<Raw<P>>, i: nat)
    requires i < |rows|
    ensures ValidEvents(rows[..i + 1])
         == ValidEvents(rows[..i]) + if MapRow(rows[i]).Some? then [MapRow(rows[i]).value] else []
    ensures BadLines(rows[..i + 1]) == BadLines(rows[..i]) + if MapRow(rows[i]).None? then [i + 2] else []
  {
    assert rows[..i + 1][..i] == rows[..i];
  }

  lemma {:induction false} ValidEventsGrow<P>(rows: seq<Raw<P>>, i: nat)
    requires i <= |rows|
    ensures ValidEvents(rows[..i]) <= ValidEvents(rows)
    decreases |rows| - i
  {
    if i == |rows| {
      assert rows[..i] == rows;
    } else {
      ValidEventsOfPrefix(rows, i);
      ValidEventsGrow(rows, i + 1);
    }
  }

  lemma {:induction false} DatedIsLongest<P>(events: seq<Event<P>>, n: nat)
    requires n <= |events| && AllDated(events[..n])
    requires n < |events| ==> events[n].instant.None?
    ensures Dated(events) == events[..n]
  {
    var r := Dated(events);
    assert forall k :: 0 <= k < |r| ==> r[k] == events[k];
    forall k | 0 <= k < n ensures events[k].instant.Some? {
      assert events[..n][k] == events[k];
    }
  }

  lemma OneMoreStep<P>(events: seq<Event<P>>, e: Event<P>)
    ensures StepsBack(events + [e])
         == StepsBack(events) + if events != [] && e.blk < events[|events| - 1].blk then 1 else 0
  {
    assert (events + [e])[..|events|] == events;
  }

  lemma OneMoreSleep<P>(events: seq<Event<P>>, e: Event<P>, speed: Speed)
    requires ValidSpeed(speed) && AllDated(events) && e.instant.Some?
    ensures AllDated(events + [e])
    ensures TotalSleep(events + [e], speed) == TotalSleep(events, speed) + Delay(events, e.instant.value, speed)
  {
    var all, n := events + [e], |events|;
    assert all[..n] == events && all[n] == e;
    if speed.Factor? && n > 0 {
      assert all[n - 1] == events[n - 1];
    }
  }

  lemma NothingRead<P>(speed: Speed)
    requires ValidSpeed(speed)
    ensures ValidEvents<P>([]) == [] && BadLines<P>([]) == [] && StepsBack<P>([]) == 0
    ensures TotalSleep<P>([], speed) == 0.0
  {
  }

  lemma MappedBlock<P>(raw: Raw<P>)
    requires MapRow(raw).Some?
    ensures MapRow(raw).value.blk >= 0
  {
  }

  /** The sleep before an event at this instant. */
  function Delay<P>(events: seq<Event<P>>, now: real, speed: Speed): real
    requires ValidSpeed(speed) && AllDated(events)
  {
    if events == [] || speed.Asap? then 0.0
    else PositivePart((now - events[|events| - 1].instant.value) / speed.v)
  }

  lemma StopsAt<P>(all: seq<Event<P>>, events: seq<Event<P>>, e: Event<P>)
    requires events + [e] <= all && AllDated(events) && e.instant.None?
    ensures Dated(all) == events && !AllDated(all)
  {
    var n := |events|;
    assert all[n] == (events + [e])[n];
    assert all[..n] == (events + [e])[..n] == events;
    DatedIsLongest(all, n);
  }

  lemma StopsHere<P>(rows: seq<Raw<P>>, i: nat)
    requires i < |rows| && AllDated(ValidEvents(rows[..i]))
    requires MapRow(rows[i]).Some? && MapRow(rows[i]).value.instant.None?
    ensures Dated(ValidEvents(rows)) == ValidEvents(rows[..i]) && !AllDated(ValidEvents(rows))
  {
    hide ValidEvents, BadLines, MapRow, Dated, AllDated;
    ValidEventsOfPrefix(rows, i);
    ValidEventsGrow(rows, i + 1);
    StopsAt(ValidEvents(rows), ValidEvents(rows[..i]), MapRow(rows[i]).value);
  }

  /** `ReplayDriver.run` over `stream_csv`. `count` is absent when a date no calendar has ended the run
      with an exception; what had been written stays. */
  method Run<P>(rows: seq<Raw<P>>, speed: Speed, buffer: DequeRingBuffer<Event<P>>)
    returns (count: Option<nat>, slept: real, errorLog: seq<nat>, warnings: nat)
    requires buffer.Valid() && ValidSpeed(speed)
    modifies buffer
    ensures buffer.Valid()
    ensures buffer.history == old(buffer.history) + Dated(ValidEvents(rows))
    ensures slept == TotalSleep(Dated(ValidEvents(rows)), speed)
    ensures count.Some? <==> AllDated(ValidEvents(rows))
    ensures count.Some? ==> count.value == |ValidEvents(rows)| && errorLog == BadLines(rows)
                            && warnings == StepsBack(ValidEvents(rows))
    ensures errorLog <= BadLines(rows)
  {
    hide ValidEvents, BadLines, StepsBack, TotalSleep, MapRow;
    NothingRead<P>(speed);
    ghost var was := buffer.history;
    assert was + [] == was && rows[..0] == [];
    var prev: Option<real> := None;
    var prevBlock := -1;
    var n := 0;
    slept, errorLog, warnings := 0.0, [], 0;
    ghost var events: seq<Event<P>> := [];
    for i := 0 to |rows|
      invariant events == ValidEvents(rows[..i]) && errorLog == BadLines(rows[..i])
      invariant buffer.Valid() && buffer.history == was + events
      invariant AllDated(events) && n == |events|
      invariant slept == TotalSleep(events, speed) && warnings == StepsBack(events)
      invariant n == 0 ==> prev.None? && prevBlock == -1
      invariant n > 0 ==> prev == events[n - 1].instant && prevBlock == events[n - 1].blk
    {
      ValidEventsOfPrefix(rows, i);
      BadLinesGrow(rows, i);
      var event := MapRow(rows[i]);
      if event.None? {
        errorLog := errorLog + [i + 2];
        continue;
      }
      var e := event.value;
      MappedBlock(rows[i]);
      OneMoreStep(events, e);
      if e.blk < prevBlock {
        warnings := warnings + 1;
      }
      prevBlock := e.blk;
      if e.instant.None? {
        StopsHere(rows, i);
        count := None;
        return;
      }
      OneMoreSleep(events, e, speed);
      if prev.Some? && speed.Factor? {
        var delay := (e.instant.value - prev.value) / speed.v;
        if delay > 0.0 {
          slept := slept + delay;
        }
      }
      prev := e.instant;
      buffer.Write(e);
      n := n + 1;
      events := events + [e];
    }
    assert rows[..|rows|] == rows;
    DatedIsLongest(ValidEvents(rows), n);
    assert ValidEvents(rows)[..n] == ValidEvents(rows);
    count := Some(n);
  }

  lemma {:induction false} BadLinesGrow<P>(rows: seq<Raw<P>>, i: nat)
    requires i <= |rows|
    ensures BadLines(rows[..i]) <= BadLines(rows)
    decreases |rows| - i
  {
    if i == |rows| {
      assert rows[..i] == rows;
    } else {
      ValidEventsOfPrefix(rows, i);
      BadLinesGrow(rows, i + 1);
    }
  }

  // Pacing.

  lemma QuotientsAdd(x: real, y: real, v: real)
    requires v > 0.0
    ensures x / v + y / v == (x + y) / v
    ensures x > 0.0 <==> x / v > 0.0
    ensures x >= 0.0 <==> x / v >= 0.0
  {
    var p, q := x / v, y / v;
    assert p * v == x && q * v == y;
    assert (p + q) * v == p * v + q * v;
  }

  predicate Forward<P>(events: seq<Event<P>>)
    requires AllDated(events)
  {
    forall i :: 0 < i < |events| ==> events[i - 1].instant.value <= events[i].instant.value
  }

  /** The time between the first and the last event, scaled. */
  function Span<P>(events: seq<Event<P>>, speed: real): real
    requires speed > 0.0 && events != [] && AllDated(events)
  {
    (events[|events| - 1].instant.value - events[0].instant.value) / speed
  }

  /** At a finite speed the sleeps add up to at least the span of the timestamps, and to exactly it if and
      only if no timestamp goes back. */
  lemma {:induction false} SleepsTelescope<P>(events: seq<Event<P>>, speed: real)
    requires speed > 0.0 && events != [] && AllDated(events)
    ensures Sleeps(events, speed) >= Span(events, speed)
    ensures Sleeps(events, speed) == Span(events, speed) <==> Forward(events)
  {
    var n := |events|;
    if n == 1 {
      assert events[0].instant.value - events[0].instant.value == 0.0;
      assert 0.0 / speed == 0.0;
    } else {
      var front := events[..n - 1];
      SleepsTelescope(front, speed);
      var gap := events[n - 1].instant.value - events[n - 2].instant.value;
      QuotientsAdd(front[n - 2].instant.value - front[0].instant.value, gap, speed);
      QuotientsAdd(gap, 0.0, speed);
      assert Forward(events) <==> Forward(front) && gap >= 0.0 by {
        if Forward(front) && gap >= 0.0 {
          forall i | 0 < i < n ensures events[i - 1].instant.value <= events[i].instant.value {
            if i < n - 1 {
              assert front[i - 1].instant.value <= front[i].instant.value;
            }
          }
        }
        if Forward(events) {
          assert events[n - 2].instant.value <= events[n - 1].instant.value;
          forall i | 0 < i < n - 1 ensures front[i - 1].instant.value <= front[i].instant.value {
            assert events[i - 1].instant.value <= events[i].instant.value;
          }
        }
      }
    }
  }

  /** A whole replay into a fresh buffer: the last `capacity` valid events remain, and the replay took
      the recorded time scaled by the speed. */
  method ReplayFixture<P>(rows: seq<Raw<P>>, speed: Speed, capacity: nat)
    returns (view: seq<Event<P>>, count: Option<nat>, slept: real)
    requires capacity > 0 && ValidSpeed(speed)
    ensures view == LastN(Dated(ValidEvents(rows)), capacity)
    ensures count.Some? ==> view == LastN(ValidEvents(rows), capacity) && count.value == |ValidEvents(rows)|
    ensures count.Some? <==> AllDated(ValidEvents(rows))
    ensures speed.Asap? ==> slept == 0.0
    ensures var events := Dated(ValidEvents(rows));
            speed.Factor? && events != [] ==>
              slept >= Span(events, speed.v) && (slept == Span(events, speed.v) <==> Forward(events))
  {
    var buffer := new DequeRingBuffer<Event<P>>(capacity);
    var lines, warnings;
    count, slept, lines, warnings := Run(rows, speed, buffer);
    view := buffer.ReadAll();
    ghost var events := Dated(ValidEvents(rows));
    assert [] + events == events;
    if speed.Factor? && events != [] {
      SleepsTelescope(events, speed.v);
    }
    if count.Some? {
      DatedIsLongest(ValidEvents(rows), |ValidEvents(rows)|);
      assert ValidEvents(rows)[..|ValidEvents(rows)|] == ValidEvents(rows);
    }
  }
}
