/** The realtime loop of ingestion/pipeline.py: heads set the clock, logs are stamped with it, routed
    and written to the ring buffer. */
module Pipeline {
  import opened Prelude
  import opened HexText
  import opened Events
  import opened BlockGroups
  import opened Router
  import opened ClientQueues
  import opened RingBuffer

  /** A header's time as `_to_int` gets it: the text of the wire, or the number that the client library has
      made of it. */
  datatype Form = AsText | AsNumber

  datatype Field = Text(text: string) | Number(n: int)

  function Received(form: Form, wire: string): Option<Field> {
    match form
    case AsText => Some(Text(wire))
    case AsNumber => (var n := ReadHex(wire); if n.None? then None else Some(Number(n.value)))
  }

  /** `_to_int`. */
  function FieldInt(f: Field): Option<int> {
    match f
    case Text(t) => ToInt(t)
    case Number(n) => Some(n)
  }

  function HeadTime(form: Form, wire: string): Option<int> {
    var f := Received(form, wire);
    if f.None? then None else FieldInt(f.value)
  }

  /** A time that was printed by `hex` is lost only as text, and only if it is negative. */
  lemma HeadTimeOfHex(form: Form, t: int)
    ensures HeadTime(form, Hex(t)) == if form.AsText? && t < 0 then None else Some(t)
  {
    ToIntOfHex(t);
    ReadHexOfHex(t);
  }

  /** What `run_realtime` subscribed to, the whitelist it routes by, and the form its heads come in. */
  datatype Loop = Loop(headsId: nat, logsId: nat, whitelist: Whitelist, heads: Form)

  /** The loop's variables. `crashed` is a head whose time cannot be read: that exception is not
      caught and ends ingestion. */
  datatype Progress = Progress(clock: int, blocks: nat, ticks: seq<Tick>, crashed: bool)

  const IDLE: Progress := Progress(0, 0, [], false)

  function OnLog(p: Progress, log: Log, whitelist: Whitelist): Progress {
    if p.clock == 0 then p
    else
      match RouteValidated(log, whitelist, p.clock)
      case Ok(Some(tick)) => p.(ticks := p.ticks + [tick])
      case _ => p
  }

  function Dispatch(p: Progress, m: Message, loop: Loop): Progress {
    if p.crashed || !m.Notice? then p
    else if m.sub == loop.headsId then
      match m.result
      case HeadAction(h) =>
        (match HeadTime(loop.heads, h.timestamp)
         case Some(t) => p.(clock := t, blocks := p.blocks + 1)
         case None => p.(crashed := true))
      case LogAction(_) => p.(crashed := true)
    else if m.sub == loop.logsId && m.result.LogAction? then OnLog(p, m.result.log, loop.whitelist)
    else p
  }

  function Consume(messages: seq<Message>, loop: Loop): Progress {
    ConsumeFrom(IDLE, messages, loop)
  }

  function ConsumeFrom(p: Progress, messages: seq<Message>, loop: Loop): Progress {
    if messages == [] then p
    else
      Dispatch(ConsumeFrom(p, messages[..|messages| - 1], loop), messages[|messages| - 1], loop)
  }

  /** The loop itself, over the messages that arrive before it is stopped. */
  method RunRealtime(messages: seq<Message>, loop: Loop, buffer: DequeRingBuffer<Tick>)
    returns (blocks: nat, ingested: nat, crashed: bool)
    requires buffer.Valid()
    modifies buffer
    ensures buffer.Valid()
    ensures var p := Consume(messages, loop);
            && buffer.history == old(buffer.history) + p.ticks
            && blocks == p.blocks && ingested == |p.ticks| && crashed == p.crashed
  {
    var clock := 0;
    blocks, ingested, crashed := 0, 0, false;
    ghost var was := buffer.history;
    for i := 0 to |messages|
      invariant buffer.Valid() && !crashed
      invariant was <= buffer.history && ingested == |buffer.history| - |was|
      invariant Consume(messages[..i], loop) == Progress(clock, blocks, buffer.history[|was|..], false)
    {
      var m := messages[i];
      assert messages[..i + 1][..i] == messages[..i];
      if m.Notice? {
        if m.sub == loop.headsId {
          var t := if m.result.HeadAction? then HeadTime(loop.heads, m.result.header.timestamp) else None;
          if t.None? {
            crashed := true;
            Crashed(messages, i + 1, loop);
            assert messages[..|messages|] == messages;
            return;
          }
          clock := t.value;
          blocks := blocks + 1;
        } else if m.sub == loop.logsId && m.result.LogAction? {
          if clock == 0 {
            continue;
          }
          var event := RouteValidated(m.result.log, loop.whitelist, clock);
          if event.Ok? && event.value.Some? {
            buffer.Write(event.value.value);
            ingested := ingested + 1;
          }
        }
      }
    }
    assert messages[..|messages|] == messages;
  }

  /** After the crash nothing more is consumed. */
  lemma {:induction false} Crashed(messages: seq<Message>, i: nat, loop: Loop)
    requires i <= |messages| && Consume(messages[..i], loop).crashed
    ensures Consume(messages, loop) == Consume(messages[..i], loop)
  {
    if i == |messages| {
      assert messages[..i] == messages;
    } else {
      var front := messages[..|messages| - 1];
      assert front[..i] == messages[..i];
      Crashed(front, i, loop);
    }
  }
}
