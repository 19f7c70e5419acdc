/** What a flush of an output stream brings about, at once or put off, and that every call on a
    stream comes to its end. */
module OutputFlushes {
  import opened OutputStreams
  import opened Utils

  /** The events can happen one after the other from `s` on. */
  ghost predicate Can(s: Stream, events: seq<Event>)
    decreases |events|
  {
    events == [] || (Enabled(s, events[0]) && Can(Next(s, events[0]), events[1..]))
  }

  ghost function After(s: Stream, events: seq<Event>): Stream
    requires Can(s, events)
    decreases |events|
  {
    if events == [] then s else After(Next(s, events[0]), events[1..])
  }

  lemma Later(s: Stream, e: Event, more: seq<Event>)
    requires Enabled(s, e) && Can(Next(s, e), more)
    ensures Can(s, [e] + more) && After(s, [e] + more) == After(Next(s, e), more)
  {
    assert ([e] + more)[1..] == more;
  }

  lemma One(s: Stream, e: Event)
    requires Enabled(s, e)
    ensures Can(s, [e]) && After(s, [e]) == Next(s, e)
  {
    assert [e][1..] == [];
  }

  ghost predicate Holding(s: Stream) {
    s.buf != [] || s.zc != []
  }

  // ----- the flush of a stream that does not batch

  lemma FlushPuts(s: Stream)
    requires Inv(s) && Enabled(s, CallFlush) && !s.batch
    ensures var t := Next(s, CallFlush);
      && t.buf == [] && t.zc == [] && t.handed == t.accepted == s.accepted && t.flushes == s.flushes
      && t.writer == if Holding(s) then Putting(SinkFlush) else Free
  {
    assert s.accepted == s.handed + [] + s.buf + s.zc;
    assert s.buf != [] ==> s.handed + [] + s.buf + [] == s.handed + s.buf;
    assert s.buf == [] ==> s.handed + [] + [] + s.zc == s.handed + s.zc;
    assert s.handed + [] == s.handed;
  }

  /** A stream that does not batch and is not in the middle of a call waits for the caller; in
      the middle of a flush it waits for the sink. */
  lemma OnlyTheSink(s: Stream, e: Event)
    requires Inv(s) && Enabled(s, e) && !s.batch
    ensures s.writer.Putting? ==> e.PutDone?
    ensures s.writer == Flushing ==> e == FlushDone
  {
  }

  /** In every run a flush called on a stream that does not batch, with bytes held, hands over
      all there is; then comes the end of that put; if it went well the sink is flushed, after
      everything accepted; and that ends with the flush of the sink and nothing else. */
  lemma FlushRun(run: seq<Stream>, events: seq<Event>, j: nat)
    requires IsRun(run, events) && j < |events| && events[j] == CallFlush && !run[j].batch && Holding(run[j])
    ensures run[j + 1].buf == [] && run[j + 1].zc == [] && run[j + 1].handed == run[j].accepted
    ensures run[j + 1].writer == Putting(SinkFlush)
    ensures j + 1 < |events| ==> events[j + 1].PutDone?
    ensures j + 1 < |events| && events[j + 1] == PutDone(true) ==>
      run[j + 2].writer == Flushing && run[j + 2].flushes == run[j].flushes + [|run[j].accepted|]
    ensures j + 2 < |events| && events[j + 1] == PutDone(true) ==> events[j + 2] == FlushDone && run[j + 3].writer == Free
    ensures j + 1 < |events| && events[j + 1] == PutDone(false) ==>
      run[j + 2].writer == Free && run[j + 2].flushes == run[j].flushes
  {
    EveryState(run, events, j);
    assert StepAt(run, events, j);
    FlushPuts(run[j]);
    if j + 1 < |events| {
      EveryState(run, events, j + 1);
      assert StepAt(run, events, j + 1);
      OnlyTheSink(run[j + 1], events[j + 1]);
      if j + 2 < |events| && events[j + 1] == PutDone(true) {
        EveryState(run, events, j + 2);
        assert StepAt(run, events, j + 2);
        OnlyTheSink(run[j + 2], events[j + 2]);
      }
    }
  }

  // ----- the flush that is put off

  /** With no error kept, the call leaves a flush asked for and in the poller's hands; with
      one, it reports it and asks for nothing. */
  lemma FlushAsked(s: Stream)
    requires Inv(s) && Enabled(s, CallFlush) && s.batch
    ensures var t := Next(s, CallFlush);
      && t.writer == Free && t.accepted == s.accepted && t.handed == s.handed && !t.ex
      && (if s.ex then t.flush == s.flush && t.poller == s.poller
          else t.flush && t.poller == if s.poller == NoBatch then Scheduled else s.poller)
  {
  }

  /** A flush asked for stays so until a put of the caller calls it off, or the poller carries
      it out by handing over everything there is. */
  lemma AskedUntil(s: Stream, e: Event)
    requires Inv(s) && Enabled(s, e) && s.flush && !Next(s, e).flush
    ensures var t := Next(s, e);
      || ((e.CallWrite? || e.CallWritePacket?) && (t.writer.Putting? || t.writer.Blocked?))
      || ((e == Poll || e.PollPutDone? || e.PollFlushDone?) && HandsAll(s, t))
  {
    assert s.writer == Free || s.writer == Flushing;
    match e
    case CallWrite(bytes) => WriteWaits(s, bytes);
    case CallWritePacket(p) => PacketAsked(s, p);
    case Poll => HandsOver(s);
    case PollPutDone(ok) => HandsOver(s.(ex := true));
    case PollFlushDone(ok) => HandsOver(s.(ex := s.ex || !ok));
    case _ =>
  }

  lemma PacketAsked(s: Stream, p: seq<byte>)
    requires Inv(s) && Enabled(s, CallWritePacket(p)) && s.flush
    ensures var t := Next(s, CallWritePacket(p)); t.flush || t.writer.Putting? || t.writer.Blocked?
  {
  }

  /** The poller has taken everything that was held, and puts it if it is anything. */
  ghost predicate HandsAll(s: Stream, t: Stream) {
    && t.buf == [] && t.zc == [] && t.handed == t.accepted == s.accepted && t.flushing && !t.flush
    && t.poller == if Holding(s) then PollPut else PollReady
  }

  lemma HandsOver(s: Stream)
    requires Inv(s) && s.flush
    ensures HandsAll(s, PollFlush(s)) && PollFlush(s).writer == s.writer && PollFlush(s).flushes == s.flushes
    ensures PollFlush(s).ex == s.ex
  {
    assert Pending(s.writer) == [];
    assert s.accepted == s.handed + [] + s.buf + s.zc;
    assert s.buf != [] ==> s.handed + [] + s.buf + [] == s.handed + s.buf;
    assert s.buf == [] ==> s.handed + [] + [] + s.zc == s.handed + s.zc;
    assert s.handed + [] == s.handed;
  }

  /** When the put of a put-off flush fails, or the flush of the sink is through, well or not,
      the poller starts over if another flush has been asked for, and is done otherwise. A
      failure is kept. */
  lemma PollEnds(s: Stream, e: Event)
    requires Inv(s) && Enabled(s, e) && (e == PollPutDone(false) || e.PollFlushDone?)
    ensures var t := Next(s, e);
      && t.ex == (s.ex || !e.ok) && t.flushes == s.flushes
      && (if s.flush then HandsAll(s, t)
          else t.poller == NoBatch && !t.flushing && t.handed == s.handed && t.buf == s.buf && t.zc == s.zc)
  {
    if s.flush {
      HandsOver(s.(ex := s.ex || !e.ok));
    }
  }

  predicate ByPoller(e: Event) {
    e == Poll || e == PollPutDone(true) || e == PollContinue || e == PollFlushDone(true)
  }

  /** From the moment the poller has taken everything, its own next steps flush the sink. */
  ghost function Finish(s: Stream): seq<Event> {
    if s.poller == PollPut then [PollPutDone(true)] + [PollContinue] else [PollContinue]
  }

  lemma ThenFlushes(s: Stream)
    requires Inv(s) && (s.poller == PollPut || s.poller == PollReady)
    ensures (forall k :: 0 <= k < |Finish(s)| ==> ByPoller(Finish(s)[k])) && Can(s, Finish(s)) && Inv(After(s, Finish(s)))
    ensures After(s, Finish(s)) == s.(poller := PollFlushing, flushes := s.flushes + [|s.handed|])
  {
    if s.poller == PollPut {
      var t := Next(s, PollPutDone(true));
      StepKeeps(s, PollPutDone(true));
      StepKeeps(t, PollContinue);
      One(t, PollContinue);
      Later(s, PollPutDone(true), [PollContinue]);
    } else {
      StepKeeps(s, PollContinue);
      One(s, PollContinue);
    }
  }

  /** The steps of the poller to its next turn, and that turn. */
  ghost function BeforeTurn(s: Stream): seq<Event> {
    if s.poller == PollPut || s.poller == PollReady then Finish(s) else []
  }

  ghost function Turn(s: Stream): Event {
    if s.poller == Scheduled then Poll else PollFlushDone(true)
  }

  lemma NextTurn(s: Stream)
    requires Inv(s) && s.poller != NoBatch
    ensures (forall k :: 0 <= k < |BeforeTurn(s)| ==> ByPoller(BeforeTurn(s)[k])) && Can(s, BeforeTurn(s))
    ensures var t := After(s, BeforeTurn(s));
      && Inv(t) && Enabled(t, Turn(s)) && Next(t, Turn(s)) == PollFlush(t)
      && t == s.(poller := t.poller, flushes := t.flushes)
  {
    if s.poller == PollPut || s.poller == PollReady {
      ThenFlushes(s);
    }
  }

  /** What happens after the steps to the next turn happens after them. */
  lemma Prefixed(s: Stream, more: seq<Event>)
    requires Can(s, BeforeTurn(s)) && Can(After(s, BeforeTurn(s)), more)
    ensures Can(s, BeforeTurn(s) + more) && After(s, BeforeTurn(s) + more) == After(After(s, BeforeTurn(s)), more)
  {
    if s.poller == PollPut {
      var t := Next(s, PollPutDone(true));
      One(t, PollContinue);
      Later(s, PollPutDone(true), [PollContinue]);
      Later(t, PollContinue, more);
      Later(s, PollPutDone(true), [PollContinue] + more);
      assert BeforeTurn(s) + more == [PollPutDone(true)] + ([PollContinue] + more);
    } else if s.poller == PollReady {
      One(s, PollContinue);
      Later(s, PollContinue, more);
    } else {
      assert BeforeTurn(s) + more == more;
    }
  }

  /** From every state in which a flush is asked for, the poller's own steps, if they go well,
      flush the sink after everything accepted by then. */
  lemma CarriedOut(run: seq<Stream>, events: seq<Event>, i: nat) returns (more: seq<Event>)
    requires IsRun(run, events) && i < |run| && run[i].flush
    ensures (forall k :: 0 <= k < |more| ==> ByPoller(more[k])) && Can(run[i], more)
    ensures var t := After(run[i], more);
      && t.poller == PollFlushing && t.handed == run[i].accepted
      && t.flushes != [] && t.flushes[|t.flushes| - 1] == |run[i].accepted|
  {
    EveryState(run, events, i);
    var s := run[i];
    NextTurn(s);
    var before, e := BeforeTurn(s), Turn(s);
    var t := After(s, before);
    HandsOver(t);
    var u := Next(t, e);
    StepKeeps(t, e);
    ThenFlushes(u);
    Later(t, e, Finish(u));
    Prefixed(s, [e] + Finish(u));
    more := before + ([e] + Finish(u));
  }

  // ----- every call ends

  /** An event that is no call, and no failure. */
  predicate Well(e: Event) {
    ByPoller(e) || e == PutDone(true) || e == Resume || e == FlushDone
  }

  /** What the caller waits for. */
  ghost function Work(w: Writer): nat {
    match w
    case Free => 0
    case Flushing => 1
    case Putting(c) => ContWork(c)
    case Released(_, c) => ContWork(c) + 1
    case Blocked(_, c) => ContWork(c) + 2
  }

  ghost function ContWork(c: Cont): nat {
    8 * |Rest(c)| + if c == Done || c == SinkFlush then 2 else 5
  }

  lemma PutWork(s: Stream)
    requires Inv(s) && s.writer.Putting?
    ensures Work(Next(s, PutDone(true)).writer) < Work(s.writer)
  {
    match s.writer.cont
    case SplitRest(bytes) =>
      if |bytes| >= s.size {
        assert |bytes[s.size..]| < |bytes|;
      }
    case ZeroCopyRest(bytes) =>
      if Low32(|bytes|) >= s.size {
        assert |bytes[s.size..]| < |bytes|;
      }
    case _ =>
  }

  /** The next thing that happens to a caller who waits, other than by the poller. */
  ghost function CallerNext(s: Stream): Event {
    match s.writer
    case Putting(_) => PutDone(true)
    case Flushing => FlushDone
    case _ => Resume
  }

  /** No call hangs: from every state in which the caller waits, finitely many steps, if they
      go well, let it go. */
  lemma {:induction false} LetGo(s: Stream) returns (more: seq<Event>)
    requires Inv(s)
    ensures (forall k :: 0 <= k < |more| ==> Well(more[k])) && Can(s, more) && After(s, more).writer == Free
    decreases Work(s.writer)
  {
    if s.writer == Free {
      return [];
    }
    if s.writer.Blocked? {
      NextTurn(s);
      var before, e := BeforeTurn(s), Turn(s);
      var t := After(s, before);
      StepKeeps(t, e);
      var rest := LetGo(Next(t, e));
      Later(t, e, rest);
      Prefixed(s, [e] + rest);
      more := before + ([e] + rest);
      return;
    }
    var e := CallerNext(s);
    if s.writer.Putting? {
      PutWork(s);
    }
    StepKeeps(s, e);
    var rest := LetGo(Next(s, e));
    Later(s, e, rest);
    more := [e] + rest;
  }

  lemma EveryCallEnds(run: seq<Stream>, events: seq<Event>, i: nat) returns (more: seq<Event>)
    requires IsRun(run, events) && i < |run|
    ensures (forall k :: 0 <= k < |more| ==> Well(more[k])) && Can(run[i], more) && After(run[i], more).writer == Free
  {
    EveryState(run, events, i);
    more := LetGo(run[i]);
  }

  // ----- errors

  /** A put or flush of the poller has failed since the last call of `flush()`. */
  ghost predicate FailedSince(events: seq<Event>, i: nat)
    requires i <= |events|
  {
    i > 0 && (events[i - 1] == PollPutDone(false) || events[i - 1] == PollFlushDone(false)
              || (events[i - 1] != CallFlush && FailedSince(events, i - 1)))
  }

  /** An error is kept if and only if something of the poller's has failed since the last call
      of `flush()`, which reports it. */
  lemma {:induction false} ErrorKept(run: seq<Stream>, events: seq<Event>, i: nat)
    requires IsRun(run, events) && i < |run|
    ensures run[i].ex == FailedSince(events, i) && (!run[i].batch ==> !run[i].ex)
  {
    if i > 0 {
      ErrorKept(run, events, i - 1);
      EveryState(run, events, i - 1);
      assert StepAt(run, events, i - 1);
      StepError(run[i - 1], events[i - 1]);
    }
  }

  lemma StepError(s: Stream, e: Event)
    requires Inv(s) && Enabled(s, e) && (!s.batch ==> !s.ex)
    ensures Next(s, e).batch == s.batch
    ensures Next(s, e).ex == (e == PollPutDone(false) || e == PollFlushDone(false) || (e != CallFlush && s.ex))
    ensures !s.batch ==> !e.PollPutDone? && !e.PollFlushDone?
  {
    match e
    case CallWrite(bytes) => WriteError(s.(written := s.written + bytes, accepted := s.accepted + bytes), bytes);
    case CallWritePacket(p) => PacketError(s.(written := s.written + p), p);
    case PutDone(ok) => ContinueError(s, s.writer.cont);
    case _ =>
  }

  ghost predicate SameErrors(s: Stream, t: Stream) {
    t.ex == s.ex && t.batch == s.batch
  }

  lemma PutError(s: Stream, bytes: seq<byte>, c: Cont)
    ensures SameErrors(s, Put(s, bytes, c))
  {
  }

  lemma WriteError(s: Stream, bytes: seq<byte>)
    requires |s.buf| <= s.size
    ensures SameErrors(s, Write(s, bytes))
  {
    if |bytes| >= (if |s.buf| > 0 then 2 * s.size - |s.buf| else s.size) && |s.buf| == 0 && s.trim {
      ContinueError(s, SplitRest(bytes));
    }
  }

  lemma PacketError(s: Stream, p: seq<byte>)
    ensures SameErrors(s, WritePacket(s, p))
  {
  }

  lemma ContinueError(s: Stream, c: Cont)
    ensures SameErrors(s, Continue(s, c))
  {
  }

  // ----- writes

  /** A write is buffered, with nothing put, if and only if it fits behind what is buffered
      and, with nothing buffered, does not fill a buffer by itself. */
  lemma WriteWaits(s: Stream, bytes: seq<byte>)
    requires Inv(s) && Enabled(s, CallWrite(bytes))
    ensures var t := Next(s, CallWrite(bytes));
      && (t.writer == Free <==> |s.buf| + |bytes| <= s.size && (s.buf != [] || |bytes| < s.size))
      && (t.writer == Free ==> t.buf == s.buf + bytes && t.handed == s.handed && t.zc == [] && t.flush == s.flush)
      && (t.writer != Free ==> t.writer.Putting? || t.writer.Blocked?)
  {
    var u := s.(written := s.written + bytes, accepted := s.accepted + bytes);
    if |bytes| >= (if |u.buf| > 0 then 2 * u.size - |u.buf| else u.size) {
      BulkPuts(u, bytes);
    } else if |bytes| > u.size - |u.buf| {
      OverPuts(u, bytes);
    }
  }

  lemma BulkPuts(s: Stream, bytes: seq<byte>)
    requires |s.buf| <= s.size && |bytes| >= if |s.buf| > 0 then 2 * s.size - |s.buf| else s.size
    ensures Write(s, bytes).writer.Putting? || Write(s, bytes).writer.Blocked?
  {
  }

  lemma OverPuts(s: Stream, bytes: seq<byte>)
    requires |s.buf| <= s.size && s.size - |s.buf| < |bytes| < if |s.buf| > 0 then 2 * s.size - |s.buf| else s.size
    ensures Write(s, bytes).writer.Putting? || Write(s, bytes).writer.Blocked?
  {
  }

  /** A packet is held, with nothing put, if and only if what is held then, which is it alone
      when that had the length zero, is shorter than a chunk in 32 bits. */
  lemma PacketWaits(s: Stream, p: seq<byte>)
    requires Inv(s) && Enabled(s, CallWritePacket(p)) && Low32(|p|) > 0
    ensures var t, all := Next(s, CallWritePacket(p)), if Low32(|s.zc|) == 0 then p else s.zc + p;
      && (t.writer == Free <==> Low32(|all|) < s.size)
      && (t.writer == Free ==> t.zc == all && t.handed == s.handed && t.buf == s.buf)
  {
  }
}
