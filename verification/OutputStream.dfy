/** Buffered output to an asynchronous sink: buffering, splitting into chunks, and flushes
    that are put off to a poller. The caller waits for each call before the next one. */
module OutputStreams {
  import opened Utils

  type byte = b: nat | b < 256

  type positive = n: nat | n > 0 witness 1

  /** What the future returned to the caller still does once its put is through: nothing, put
      the rest in chunks, put the rest as it is, put a packet in chunks, or flush the sink. */
  datatype Cont = Done | SplitRest(bytes: seq<byte>) | PutRest(bytes: seq<byte>) | ZeroCopyRest(bytes: seq<byte>) | SinkFlush

  /** The caller: free to call; waiting for a put it has outstanding; waiting for the flush in
      progress to end before it puts; let go by it; or waiting for a flush of the sink. */
  datatype Writer = Free | Putting(cont: Cont) | Blocked(bytes: seq<byte>, cont: Cont)
                  | Released(bytes: seq<byte>, cont: Cont) | Flushing

  /** The put-off flush: none; in the poller's queue; with a put outstanding; about to flush
      the sink; with that flush outstanding. */
  datatype Poller = NoBatch | Scheduled | PollPut | PollReady | PollFlushing

  /** `buf` is what `_buf` holds up to `_end` and `zc` what `_zc_bufs` holds; `ex` tells
      whether an error waits to be reported. `written` and `handed` record the bytes the
      caller wrote and those given to the sink, `accepted` the bytes written without those the
      stream has dropped, `puts` the caller's puts other than those of a flush, and `flushes`
      how many bytes had been handed over before each flush of the sink. */
  datatype Stream = Stream(
    size: positive,
    trim: bool,
    batch: bool,
    buf: seq<byte>,
    zc: seq<byte>,
    inBatch: bool,
    flush: bool,
    flushing: bool,
    ex: bool,
    writer: Writer,
    poller: Poller,
    written: seq<byte>,
    handed: seq<byte>,
    accepted: seq<byte>,
    puts: seq<seq<byte>>,
    flushes: seq<nat>)

  /** What the stream drops are the last bytes it has accepted. */
  function Drop(s: Stream, bytes: seq<byte>): Stream {
    s.(accepted := if |bytes| <= |s.accepted| then s.accepted[..|s.accepted| - |bytes|] else [])
  }

  /** `_fd.put` by the caller. */
  function SinkPut(s: Stream, bytes: seq<byte>, cont: Cont): Stream {
    s.(writer := Putting(cont), handed := s.handed + bytes,
       puts := if cont == SinkFlush then s.puts else s.puts + [bytes])
  }

  /** `put` and `zero_copy_put`: a flush that is scheduled is called off, one in progress is
      waited for. */
  function Put(s: Stream, bytes: seq<byte>, cont: Cont): Stream {
    if s.flushing then s.(flush := false, writer := Blocked(bytes, cont))
    else SinkPut(s.(flush := false), bytes, cont)
  }

  function SplitAndPut(s: Stream, bytes: seq<byte>): Stream {
    if |bytes| < s.size then s.(buf := bytes, writer := Free)
    else Put(s, bytes[..s.size], SplitRest(bytes[s.size..]))
  }

  /** The length of a packet is kept in 32 bits; one of length zero is not kept. */
  function ZeroCopySplitAndPut(s: Stream, bytes: seq<byte>): Stream {
    if Low32(|bytes|) == 0 then Drop(s, bytes).(writer := Free)
    else if Low32(|bytes|) < s.size then s.(zc := bytes, writer := Free)
    else Put(s, bytes[..s.size], ZeroCopyRest(bytes[s.size..]))
  }

  function Continue(s: Stream, cont: Cont): Stream {
    match cont
    case Done => s.(writer := Free)
    case SplitRest(bytes) => SplitAndPut(s, bytes)
    case PutRest(bytes) => Put(s, bytes, Done)
    case ZeroCopyRest(bytes) => ZeroCopySplitAndPut(s, bytes)
    case SinkFlush => s.(writer := Flushing, flushes := s.flushes + [|s.handed|])
  }

  function Write(s: Stream, bytes: seq<byte>): Stream
    requires |s.buf| <= s.size
  {
    var n, end := |bytes|, |s.buf|;
    var bulkThreshold := if end > 0 then 2 * s.size - end else s.size;
    if n >= bulkThreshold then
      if end > 0 then
        var now := s.size - end;
        Put(s.(buf := []), s.buf + bytes[..now], if s.trim then SplitRest(bytes[now..]) else PutRest(bytes[now..]))
      else if s.trim then SplitAndPut(s, bytes)
      else Put(s, bytes, Done)
    else
      var now := if n < s.size - end then n else s.size - end;
      if now == n then s.(buf := s.buf + bytes)
      else Put(s.(buf := bytes[now..]), s.buf + bytes[..now], Done)
  }

  /** What is held together with a new packet goes out once there is enough of it. */
  function HoldOrPut(s: Stream, all: seq<byte>): Stream {
    if Low32(|all|) < s.size then s.(zc := all)
    else if s.trim then ZeroCopySplitAndPut(s.(zc := []), all)
    else Put(s.(zc := []), all, Done)
  }

  /** `append` replaces what has length zero in 32 bits, and what comes with that length is
      skipped. */
  function WritePacket(s: Stream, p: seq<byte>): Stream {
    if Low32(|p|) == 0 then s
    else if Low32(|s.zc|) == 0 then
      var t := Drop(s, s.zc);
      HoldOrPut(t.(zc := [], accepted := t.accepted + p), p)
    else HoldOrPut(s.(accepted := s.accepted + p), s.zc + p)
  }

  function Flush(s: Stream): Stream {
    if !s.batch then
      if s.buf != [] then Put(s.(buf := []), s.buf, SinkFlush)
      else if s.zc != [] then Put(s.(zc := []), s.zc, SinkFlush)
      else s
    else if s.ex then s.(ex := false)
    else s.(flush := true, inBatch := true, poller := if s.inBatch then s.poller else Scheduled)
  }

  /** A put-off flush that goes ahead puts what is held, if anything is. */
  function PollHandOver(t: Stream): Stream {
    if t.buf != [] then t.(buf := [], handed := t.handed + t.buf, poller := PollPut)
    else if t.zc != [] then t.(zc := [], handed := t.handed + t.zc, poller := PollPut)
    else t.(poller := PollReady)
  }

  function PollFlush(s: Stream): Stream {
    if !s.flush then
      s.(flushing := false, inBatch := false, poller := NoBatch,
         writer := if s.writer.Blocked? then Released(s.writer.bytes, s.writer.cont) else s.writer)
    else PollHandOver(s.(flush := false, flushing := true))
  }

  /** What a put is to be followed by. */
  function Rest(c: Cont): seq<byte> {
    match c
    case SplitRest(bytes) => bytes
    case PutRest(bytes) => bytes
    case ZeroCopyRest(bytes) => bytes
    case _ => []
  }

  datatype Event =
    | CallWrite(bytes: seq<byte>)
    | CallWritePacket(bytes: seq<byte>)
    | CallFlush
    | PutDone(ok: bool)
    | Resume
    | FlushDone
    | Poll
    | PollPutDone(ok: bool)
    | PollContinue
    | PollFlushDone(ok: bool)

  /** Buffered and zero-copy writes are not to be mixed. */
  predicate Enabled(s: Stream, e: Event) {
    match e
    case CallWrite(_) => s.writer == Free && s.zc == [] && |s.buf| <= s.size
    case CallWritePacket(bytes) => s.writer == Free && (Low32(|bytes|) > 0 ==> s.buf == [])
    case CallFlush => s.writer == Free
    case PutDone(_) => s.writer.Putting?
    case Resume => s.writer.Released?
    case FlushDone => s.writer == Flushing
    case Poll => s.poller == Scheduled
    case PollPutDone(_) => s.poller == PollPut
    case PollContinue => s.poller == PollReady
    case PollFlushDone(_) => s.poller == PollFlushing
  }

  /** A put of the caller that fails ends its write, and what was to follow it is dropped; an
      error of the put-off flush is kept for the next flush, and the flush goes on if it was
      asked for again. */
  function Next(s: Stream, e: Event): Stream
    requires Enabled(s, e)
  {
    match e
    case CallWrite(bytes) => Write(s.(written := s.written + bytes, accepted := s.accepted + bytes), bytes)
    case CallWritePacket(bytes) => WritePacket(s.(written := s.written + bytes), bytes)
    case CallFlush => Flush(s)
    case PutDone(ok) => if ok then Continue(s, s.writer.cont) else Drop(s, Rest(s.writer.cont)).(writer := Free)
    case Resume => SinkPut(s, s.writer.bytes, s.writer.cont)
    case FlushDone => s.(writer := Free)
    case Poll => PollFlush(s)
    case PollPutDone(ok) => if ok then s.(poller := PollReady) else PollFlush(s.(ex := true))
    case PollContinue => s.(poller := PollFlushing, flushes := s.flushes + [|s.handed|])
    case PollFlushDone(ok) => PollFlush(s.(ex := s.ex || !ok))
  }

  // ----- the invariant

  /** Bytes the caller's pending call has not handed to the sink yet. */
  function Pending(w: Writer): seq<byte> {
    match w
    case Putting(c) => Rest(c)
    case Blocked(bytes, c) => bytes + Rest(c)
    case Released(bytes, c) => bytes + Rest(c)
    case _ => []
  }

  predicate ContOk(s: Stream, c: Cont) {
    match c
    case Done => true
    case SplitRest(_) => s.trim && s.buf == [] && s.zc == []
    case PutRest(_) => !s.trim && s.buf == [] && s.zc == []
    case ZeroCopyRest(_) => s.trim && s.buf == [] && s.zc == []
    case SinkFlush => !s.batch
  }

  predicate PollerActive(s: Stream) {
    s.poller == PollPut || s.poller == PollReady || s.poller == PollFlushing
  }

  /** A put of the caller runs only while no put-off flush is asked for or in progress, and
      one that waits does so for a flush that is. */
  predicate WriterOk(s: Stream) {
    match s.writer
    case Free => true
    case Putting(c) => !s.flush && !s.flushing && ContOk(s, c)
    case Blocked(bytes, c) => !s.flush && s.flushing && ContOk(s, c) && (s.trim && c != SinkFlush ==> |bytes| == s.size)
    case Released(bytes, c) =>
      !s.flush && s.poller == NoBatch && ContOk(s, c) && (s.trim && c != SinkFlush ==> |bytes| == s.size)
    case Flushing => !s.batch
  }

  predicate FlagsOk(s: Stream) {
    && (s.inBatch <==> s.poller != NoBatch) && (s.flushing <==> PollerActive(s))
    && (s.flush ==> s.inBatch) && (!s.batch ==> !s.inBatch)
  }

  predicate BuffersOk(s: Stream) {
    |s.buf| <= s.size && Low32(|s.zc|) < s.size && (s.buf == [] || s.zc == [])
  }

  /** The sink, then `pending`, then the buffer have what was accepted, in order. */
  ghost predicate Conserved(s: Stream, pending: seq<byte>) {
    s.accepted == s.handed + pending + s.buf + s.zc
  }

  predicate ChunksOk(s: Stream) {
    s.trim ==> forall i {:trigger s.puts[i]} :: 0 <= i < |s.puts| ==> |s.puts[i]| == s.size
  }

  ghost predicate Inv(s: Stream) {
    FlagsOk(s) && WriterOk(s) && BuffersOk(s) && Conserved(s, Pending(s.writer)) && ChunksOk(s)
  }

  /** Everything but the caller's state, with `pending` still to be handed over. */
  ghost predicate Ready(s: Stream, pending: seq<byte>) {
    FlagsOk(s) && BuffersOk(s) && ChunksOk(s) && Conserved(s, pending)
  }

  lemma PutKeeps(s: Stream, bytes: seq<byte>, c: Cont)
    requires Ready(s, bytes + Rest(c)) && ContOk(s, c) && (s.trim && c != SinkFlush ==> |bytes| == s.size)
    ensures Inv(Put(s, bytes, c))
  {
    var t := Put(s, bytes, c);
    assert s.handed + (bytes + Rest(c)) + s.buf + s.zc == (s.handed + bytes) + Rest(c) + s.buf + s.zc;
  }

  lemma SplitKeeps(s: Stream, bytes: seq<byte>)
    requires Ready(s, bytes) && s.trim && s.buf == [] && s.zc == []
    ensures Inv(SplitAndPut(s, bytes))
  {
    if |bytes| < s.size {
      assert s.handed + bytes + [] + [] == s.handed + [] + bytes + [];
    } else {
      assert bytes == bytes[..s.size] + bytes[s.size..];
      PutKeeps(s, bytes[..s.size], SplitRest(bytes[s.size..]));
    }
  }

  /** Dropping what is still to come, when nothing is buffered behind it. */
  lemma DropKeeps(s: Stream, bytes: seq<byte>)
    requires Ready(s, bytes) && s.buf == [] && s.zc == []
    ensures Drop(s, bytes).accepted == s.handed
  {
    assert s.handed + bytes + [] + [] == s.handed + bytes;
  }

  lemma ZeroCopySplitKeeps(s: Stream, bytes: seq<byte>)
    requires Ready(s, bytes) && s.trim && s.buf == [] && s.zc == []
    ensures Inv(ZeroCopySplitAndPut(s, bytes))
  {
    if Low32(|bytes|) == 0 {
      DropKeeps(s, bytes);
      assert s.handed == s.handed + [] + [] + [];
    } else if Low32(|bytes|) < s.size {
      assert s.handed + bytes + [] + [] == s.handed + [] + [] + bytes;
    } else {
      assert bytes == bytes[..s.size] + bytes[s.size..];
      PutKeeps(s, bytes[..s.size], ZeroCopyRest(bytes[s.size..]));
    }
  }

  lemma ContinueKeeps(s: Stream, c: Cont)
    requires Ready(s, Rest(c)) && ContOk(s, c)
    ensures Inv(Continue(s, c))
  {
    match c
    case Done =>
    case SplitRest(bytes) => SplitKeeps(s, bytes);
    case PutRest(bytes) =>
      assert bytes + Rest(Done) == bytes;
      PutKeeps(s, bytes, Done);
    case ZeroCopyRest(bytes) => ZeroCopySplitKeeps(s, bytes);
    case SinkFlush =>
  }

  /** The parts a write is cut into are what was buffered and what came. */
  lemma WriteKeeps(s: Stream, bytes: seq<byte>)
    requires Inv(s) && s.writer == Free && s.zc == []
    ensures Inv(Write(s.(written := s.written + bytes, accepted := s.accepted + bytes), bytes))
  {
    var t := s.(written := s.written + bytes, accepted := s.accepted + bytes);
    var n, end := |bytes|, |s.buf|;
    assert s.handed + [] + s.buf + [] == s.handed + s.buf;
    assert (s.handed + s.buf) + bytes == s.handed + (s.buf + bytes);
    if n >= (if end > 0 then 2 * s.size - end else s.size) {
      WriteBulkKeeps(t, bytes);
    } else {
      WriteBufferedKeeps(t, bytes);
    }
  }

  lemma WriteBulkKeeps(t: Stream, bytes: seq<byte>)
    requires FlagsOk(t) && BuffersOk(t) && ChunksOk(t) && t.zc == [] && t.writer == Free
    requires t.accepted == t.handed + (t.buf + bytes)
    requires |bytes| >= if |t.buf| > 0 then 2 * t.size - |t.buf| else t.size
    ensures Inv(Write(t, bytes))
  {
    if |t.buf| > 0 {
      var now := t.size - |t.buf|;
      var c := if t.trim then SplitRest(bytes[now..]) else PutRest(bytes[now..]);
      assert (t.buf + bytes[..now]) + Rest(c) == t.buf + bytes;
      PutKeeps(t.(buf := []), t.buf + bytes[..now], c);
    } else {
      assert t.buf + bytes == bytes && bytes + Rest(Done) == bytes;
      if t.trim {
        SplitKeeps(t, bytes);
      } else {
        PutKeeps(t, bytes, Done);
      }
    }
  }

  lemma WriteBufferedKeeps(t: Stream, bytes: seq<byte>)
    requires FlagsOk(t) && BuffersOk(t) && ChunksOk(t) && t.zc == [] && t.writer == Free
    requires t.accepted == t.handed + (t.buf + bytes)
    requires |bytes| < if |t.buf| > 0 then 2 * t.size - |t.buf| else t.size
    ensures Inv(Write(t, bytes))
  {
    var room := t.size - |t.buf|;
    if |bytes| > room {
      var u, full := t.(buf := bytes[room..]), t.buf + bytes[..room];
      assert full + Rest(Done) == full;
      assert t.handed + (t.buf + bytes) == t.handed + full + bytes[room..] + [];
      PutKeeps(u, full, Done);
    }
  }

  lemma HoldOrPutKeeps(s: Stream, all: seq<byte>)
    requires Ready(s.(zc := []), all) && s.buf == [] && s.writer == Free
    ensures Inv(HoldOrPut(s, all))
  {
    if Low32(|all|) < s.size {
      assert s.handed + all + [] + [] == s.handed + [] + [] + all;
    } else if s.trim {
      ZeroCopySplitKeeps(s.(zc := []), all);
    } else {
      assert all + Rest(Done) == all;
      PutKeeps(s.(zc := []), all, Done);
    }
  }

  lemma WritePacketKeeps(s: Stream, p: seq<byte>)
    requires Inv(s) && s.writer == Free && (Low32(|p|) > 0 ==> s.buf == [])
    ensures Inv(WritePacket(s.(written := s.written + p), p))
  {
    var t := s.(written := s.written + p);
    if Low32(|p|) > 0 {
      assert s.handed + [] + [] + s.zc == s.handed + s.zc;
      if Low32(|s.zc|) == 0 {
        var u := Drop(t, s.zc);
        assert u.accepted == s.handed;
        assert s.handed + p == s.handed + p + [] + [];
        HoldOrPutKeeps(u.(zc := [], accepted := u.accepted + p), p);
      } else {
        assert (s.handed + s.zc) + p == s.handed + (s.zc + p) + [] + [];
        HoldOrPutKeeps(t.(accepted := t.accepted + p), s.zc + p);
      }
    }
  }

  lemma FlushKeeps(s: Stream)
    requires Inv(s) && s.writer == Free
    ensures Inv(Flush(s))
  {
    if !s.batch && s.buf != [] {
      assert s.handed + [] + s.buf + s.zc == s.handed + (s.buf + Rest(SinkFlush)) + [] + s.zc;
      PutKeeps(s.(buf := []), s.buf, SinkFlush);
    } else if !s.batch && s.zc != [] {
      assert s.handed + [] + [] + s.zc == s.handed + (s.zc + Rest(SinkFlush)) + [] + [];
      PutKeeps(s.(zc := []), s.zc, SinkFlush);
    }
  }

  /** The put-off flush takes the buffer when nobody else is putting. */
  lemma PollFlushKeeps(s: Stream)
    requires Inv(s) && s.inBatch
    ensures Inv(PollFlush(s))
  {
    if s.flush {
      assert Pending(s.writer) == [];
      assert s.handed + [] + s.buf + [] == (s.handed + s.buf) + [] + [] + [];
      assert s.handed + [] + [] + s.zc == (s.handed + s.zc) + [] + [] + [];
    }
  }

  lemma ResumeKeeps(s: Stream)
    requires Inv(s) && Enabled(s, Resume)
    ensures Inv(Next(s, Resume))
  {
    var b, c := s.writer.bytes, s.writer.cont;
    assert s.handed + (b + Rest(c)) + s.buf + s.zc == (s.handed + b) + Rest(c) + s.buf + s.zc;
  }

  /** What is dropped with a failed put is the end of what was accepted. */
  lemma FailureKeeps(s: Stream, c: Cont)
    requires Inv(s) && s.writer == Putting(c)
    ensures Inv(Drop(s, Rest(c)).(writer := Free))
  {
    if Rest(c) == [] {
      assert s.accepted[..|s.accepted|] == s.accepted;
    } else {
      DropKeeps(s, Rest(c));
      assert s.handed == s.handed + [] + [] + [];
    }
  }

  lemma StepKeeps(s: Stream, e: Event)
    requires Inv(s) && Enabled(s, e)
    ensures Inv(Next(s, e))
  {
    match e
    case CallWrite(bytes) => WriteKeeps(s, bytes);
    case CallWritePacket(bytes) => WritePacketKeeps(s, bytes);
    case CallFlush => FlushKeeps(s);
    case PutDone(ok) =>
      if ok {
        ContinueKeeps(s, s.writer.cont);
      } else {
        FailureKeeps(s, s.writer.cont);
      }
    case Resume => ResumeKeeps(s);
    case FlushDone =>
    case Poll => PollFlushKeeps(s);
    case PollPutDone(ok) =>
      if !ok {
        PollFlushKeeps(s.(ex := true));
      }
    case PollContinue =>
    case PollFlushDone(ok) => PollFlushKeeps(s.(ex := s.ex || !ok));
  }

  // ----- runs

  predicate Init(s: Stream) {
    && s.buf == [] && s.zc == [] && !s.inBatch && !s.flush && !s.flushing && !s.ex
    && s.writer == Free && s.poller == NoBatch
    && s.written == [] && s.handed == [] && s.accepted == [] && s.puts == [] && s.flushes == []
  }

  ghost predicate StepAt(run: seq<Stream>, events: seq<Event>, i: nat)
    requires i < |events| && |run| == |events| + 1
  {
    Enabled(run[i], events[i]) && run[i + 1] == Next(run[i], events[i])
  }

  ghost predicate IsRun(run: seq<Stream>, events: seq<Event>) {
    |run| == |events| + 1 && Init(run[0]) && forall i :: 0 <= i < |events| ==> StepAt(run, events, i)
  }

  lemma {:induction false} EveryState(run: seq<Stream>, events: seq<Event>, i: nat)
    requires IsRun(run, events) && i < |run|
    ensures Inv(run[i])
  {
    if i > 0 {
      EveryState(run, events, i - 1);
      assert StepAt(run, events, i - 1);
      StepKeeps(run[i - 1], events[i - 1]);
    }
  }

  /** The sink operations that have been issued and not finished. */
  function Outstanding(s: Stream): nat {
    (if s.writer.Putting? || s.writer == Flushing then 1 else 0)
    + (if s.poller == PollPut || s.poller == PollFlushing then 1 else 0)
  }

  /** At most one put or flush of the sink is outstanding at any time. */
  lemma OneAtATime(run: seq<Stream>, events: seq<Event>, i: nat)
    requires IsRun(run, events) && i < |run|
    ensures Outstanding(run[i]) <= 1
  {
    EveryState(run, events, i);
  }

  /** The bytes handed to the sink, then those of the pending call, then the buffer are the
      bytes accepted, in order, in every state of every run. */
  lemma BytesConserved(run: seq<Stream>, events: seq<Event>, i: nat)
    requires IsRun(run, events) && i < |run|
    ensures run[i].accepted == run[i].handed + Pending(run[i].writer) + run[i].buf + run[i].zc
  {
    EveryState(run, events, i);
  }

  /** How many bytes an event drops: what was to follow a put that failed, and, where 32 bits
      keep nothing of a length, a packet, what was held before it, or what stays of it. */
  function Lost(s: Stream, e: Event): nat {
    match e
    case CallWritePacket(p) => if Low32(|p|) == 0 then |p| else if Low32(|s.zc|) == 0 then |s.zc| else 0
    case PutDone(ok) =>
      if !s.writer.Putting? then 0
      else if !ok then |Rest(s.writer.cont)|
      else if s.writer.cont.ZeroCopyRest? && Low32(|s.writer.cont.bytes|) == 0 then |s.writer.cont.bytes|
      else 0
    case _ => 0
  }

  function Wrote(e: Event): seq<byte> {
    match e
    case CallWrite(bytes) => bytes
    case CallWritePacket(bytes) => bytes
    case _ => []
  }

  /** Nothing more is written, and `lost` of what was accepted is dropped. */
  ghost predicate Drops(s: Stream, t: Stream, lost: nat) {
    t.written == s.written && |t.accepted| + lost == |s.accepted| && (lost == 0 ==> t.accepted == s.accepted)
  }

  lemma DropDrops(s: Stream, bytes: seq<byte>)
    requires |bytes| <= |s.accepted|
    ensures Drops(s, Drop(s, bytes), |bytes|)
  {
    assert s.accepted[..|s.accepted|] == s.accepted;
  }

  lemma ZeroCopySplitDrops(s: Stream, bytes: seq<byte>)
    requires |bytes| <= |s.accepted|
    ensures Drops(s, ZeroCopySplitAndPut(s, bytes), if Low32(|bytes|) == 0 then |bytes| else 0)
  {
    DropDrops(s, bytes);
  }

  lemma PutReturnDrops(s: Stream, ok: bool)
    requires Inv(s) && Enabled(s, PutDone(ok))
    ensures Drops(s, Next(s, PutDone(ok)), Lost(s, PutDone(ok)))
  {
    var c := s.writer.cont;
    assert |Rest(c)| <= |s.accepted|;
    if !ok {
      DropDrops(s, Rest(c));
    } else if c.ZeroCopyRest? {
      ZeroCopySplitDrops(s, c.bytes);
    } else {
      ContinueDrops(s, c);
    }
  }

  lemma ContinueDrops(s: Stream, c: Cont)
    requires !c.ZeroCopyRest?
    ensures Drops(s, Continue(s, c), 0)
  {
  }

  lemma WriteDrops(s: Stream, bytes: seq<byte>)
    requires |s.buf| <= s.size
    ensures Drops(s, Write(s, bytes), 0)
  {
    var n, end := |bytes|, |s.buf|;
    if n >= (if end > 0 then 2 * s.size - end else s.size) {
      if end == 0 && s.trim {
        ContinueDrops(s, SplitRest(bytes));
      }
    }
  }

  lemma HoldOrPutDrops(s: Stream, all: seq<byte>)
    ensures Drops(s, HoldOrPut(s, all), 0)
  {
  }

  /** Nothing is dropped that was written before, but what had length zero in 32 bits. */
  lemma WritePacketAccepts(s: Stream, p: seq<byte>)
    requires Inv(s) && Enabled(s, CallWritePacket(p))
    ensures StepAccounts(s, CallWritePacket(p))
  {
    var t := s.(written := s.written + p);
    assert |s.zc| <= |s.accepted|;
    if Low32(|p|) > 0 {
      if Low32(|s.zc|) == 0 {
        DropDrops(t, s.zc);
        var u := Drop(t, s.zc);
        HoldOrPutDrops(u.(zc := [], accepted := u.accepted + p), p);
      } else {
        HoldOrPutDrops(t.(accepted := t.accepted + p), s.zc + p);
      }
    } else if p == [] {
      assert s.accepted + [] == s.accepted;
    }
  }

  /** An event accepts what it writes, less what it drops. */
  ghost predicate StepAccounts(s: Stream, e: Event)
    requires Enabled(s, e)
  {
    && Next(s, e).written == s.written + Wrote(e)
    && |Next(s, e).accepted| + Lost(s, e) == |s.accepted| + |Wrote(e)|
    && (Lost(s, e) == 0 ==> Next(s, e).accepted == s.accepted + Wrote(e))
  }

  lemma StepAccepts(s: Stream, e: Event)
    requires Inv(s) && Enabled(s, e)
    ensures StepAccounts(s, e)
  {
    assert s.accepted + [] == s.accepted && s.written + [] == s.written;
    match e
    case CallWrite(bytes) => WriteDrops(s.(written := s.written + bytes, accepted := s.accepted + bytes), bytes);
    case CallWritePacket(p) => WritePacketAccepts(s, p);
    case PutDone(ok) => PutReturnDrops(s, ok);
    case _ => OtherDrops(s, e);
  }

  lemma OtherDrops(s: Stream, e: Event)
    requires Enabled(s, e) && !e.CallWrite? && !e.CallWritePacket? && !e.PutDone?
    ensures Drops(s, Next(s, e), 0)
  {
    match e
    case CallFlush => FlushDrops(s);
    case Poll => PollDrops(s);
    case PollPutDone(ok) => PollDrops(s.(ex := true));
    case PollFlushDone(ok) => PollDrops(s.(ex := s.ex || !ok));
    case _ =>
  }

  lemma FlushDrops(s: Stream)
    ensures Drops(s, Flush(s), 0)
  {
  }

  lemma PollDrops(s: Stream)
    ensures Drops(s, PollFlush(s), 0)
  {
  }

  /** What is dropped was accepted last: the bytes that were to follow a failed put, what
      stays of a packet, or the packet held before a new one. */
  lemma LostAreLast(s: Stream, e: Event)
    requires Inv(s) && Enabled(s, e) && Lost(s, e) > 0
    ensures e.PutDone? ==> s.accepted == Next(s, e).accepted + Rest(s.writer.cont)
    ensures e.CallWritePacket? && Low32(|e.bytes|) > 0 ==>
      s.accepted == s.handed + s.zc && Next(s, e).accepted == s.handed + e.bytes
  {
    if e.PutDone? {
      var c := s.writer.cont;
      assert s.accepted == s.handed + Rest(c);
      assert Drop(s, Rest(c)).accepted == s.handed;
    } else if Low32(|e.bytes|) > 0 {
      assert s.accepted == s.handed + s.zc;
      assert Drop(s, s.zc).accepted == s.handed;
    }
  }

  /** The bytes dropped by the first `i` events. */
  function LostTo(run: seq<Stream>, events: seq<Event>, i: nat): nat
    requires i <= |events| < |run|
  {
    if i == 0 then 0 else LostTo(run, events, i - 1) + Lost(run[i - 1], events[i - 1])
  }

  /** Everything written has been accepted if and only if no event has dropped anything; what
      is missing are the bytes dropped. */
  lemma {:induction false} AllAccepted(run: seq<Stream>, events: seq<Event>, i: nat)
    requires IsRun(run, events) && i < |run|
    ensures |run[i].accepted| + LostTo(run, events, i) == |run[i].written|
    ensures run[i].accepted == run[i].written <==> LostTo(run, events, i) == 0
  {
    if i > 0 {
      AllAccepted(run, events, i - 1);
      EveryState(run, events, i - 1);
      assert StepAt(run, events, i - 1);
      StepAccepts(run[i - 1], events[i - 1]);
    }
  }

  /** A packet that leaves fewer than 2^32 bytes to hold. */
  predicate Fits(s: Stream, e: Event) {
    e.CallWritePacket? ==> |s.zc| + |e.bytes| < 0x1_0000_0000
  }

  function WaitingCont(w: Writer): Cont {
    match w
    case Putting(c) => c
    case Blocked(_, c) => c
    case Released(_, c) => c
    case _ => Done
  }

  predicate HeldShort(s: Stream) {
    |s.zc| < s.size && |s.zc| < 0x1_0000_0000
  }

  /** No packet in the stream has lost its length. */
  predicate Short(s: Stream) {
    HeldShort(s) && ContShort(WaitingCont(s.writer))
  }

  predicate ContShort(c: Cont) {
    c.ZeroCopyRest? ==> |c.bytes| < 0x1_0000_0000
  }

  lemma StepShort(s: Stream, e: Event)
    requires Inv(s) && Enabled(s, e) && Short(s) && Fits(s, e)
    ensures Short(Next(s, e))
  {
    match e
    case CallWritePacket(p) => PacketShort(s.(written := s.written + p), p);
    case PutDone(ok) =>
      if ok {
        ContinueShort(s, s.writer.cont);
      }
    case CallWrite(bytes) => WriteShort(s.(written := s.written + bytes, accepted := s.accepted + bytes), bytes);
    case _ => OtherShort(s, e);
  }

  lemma PutShort(s: Stream, bytes: seq<byte>, c: Cont)
    requires HeldShort(s) && ContShort(c)
    ensures Short(Put(s, bytes, c))
  {
  }

  lemma ZeroCopySplitShort(s: Stream, bytes: seq<byte>)
    requires HeldShort(s) && |bytes| < 0x1_0000_0000
    ensures Short(ZeroCopySplitAndPut(s, bytes))
  {
    if |bytes| >= s.size {
      PutShort(s, bytes[..s.size], ZeroCopyRest(bytes[s.size..]));
    }
  }

  lemma HoldOrPutShort(s: Stream, all: seq<byte>)
    requires HeldShort(s) && s.writer == Free && |all| < 0x1_0000_0000
    ensures Short(HoldOrPut(s, all))
  {
    if |all| >= s.size {
      if s.trim {
        ZeroCopySplitShort(s.(zc := []), all);
      } else {
        PutShort(s.(zc := []), all, Done);
      }
    }
  }

  lemma PacketShort(s: Stream, p: seq<byte>)
    requires Short(s) && s.writer == Free && |s.zc| + |p| < 0x1_0000_0000
    ensures Short(WritePacket(s, p))
  {
    if p != [] {
      if s.zc == [] {
        var u := Drop(s, s.zc);
        HoldOrPutShort(u.(zc := [], accepted := u.accepted + p), p);
      } else {
        HoldOrPutShort(s.(accepted := s.accepted + p), s.zc + p);
      }
    }
  }

  lemma ContinueShort(s: Stream, c: Cont)
    requires Inv(s) && Short(s) && s.writer == Putting(c)
    ensures Short(Continue(s, c))
  {
    match c
    case Done =>
    case SplitRest(bytes) => SplitShort(s, bytes);
    case PutRest(bytes) => PutShort(s, bytes, Done);
    case ZeroCopyRest(bytes) => ZeroCopySplitShort(s, bytes);
    case SinkFlush =>
  }

  lemma SplitShort(s: Stream, bytes: seq<byte>)
    requires HeldShort(s)
    ensures Short(SplitAndPut(s, bytes))
  {
    if |bytes| >= s.size {
      PutShort(s, bytes[..s.size], SplitRest(bytes[s.size..]));
    }
  }

  lemma WriteShort(s: Stream, bytes: seq<byte>)
    requires Short(s) && s.writer == Free && |s.buf| <= s.size
    ensures Short(Write(s, bytes))
  {
    var n, end := |bytes|, |s.buf|;
    if n >= (if end > 0 then 2 * s.size - end else s.size) {
      if end > 0 {
        var now := s.size - end;
        PutShort(s.(buf := []), s.buf + bytes[..now], if s.trim then SplitRest(bytes[now..]) else PutRest(bytes[now..]));
      } else if s.trim {
        SplitShort(s, bytes);
      } else {
        PutShort(s, bytes, Done);
      }
    } else if n > s.size - end {
      var now := s.size - end;
      PutShort(s.(buf := bytes[now..]), s.buf + bytes[..now], Done);
    }
  }

  lemma FlushShort(s: Stream)
    requires Short(s) && s.writer == Free
    ensures Short(Flush(s))
  {
    if !s.batch && s.buf != [] {
      PutShort(s.(buf := []), s.buf, SinkFlush);
    } else if !s.batch && s.zc != [] {
      PutShort(s.(zc := []), s.zc, SinkFlush);
    }
  }

  lemma PollShort(s: Stream)
    requires Short(s)
    ensures Short(PollFlush(s))
  {
    assert WaitingCont(PollFlush(s).writer) == WaitingCont(s.writer);
  }

  lemma OtherShort(s: Stream, e: Event)
    requires Short(s) && Enabled(s, e) && !e.CallWrite? && !e.CallWritePacket? && !e.PutDone?
    ensures Short(Next(s, e))
  {
    match e
    case CallFlush => FlushShort(s);
    case Poll => PollShort(s);
    case PollPutDone(ok) => PollShort(s.(ex := true));
    case PollFlushDone(ok) => PollShort(s.(ex := s.ex || !ok));
    case Resume =>
    case _ =>
  }

  /** Short packets are dropped with a failed put only. */
  lemma ShortLost(s: Stream, e: Event)
    requires Short(s) && Enabled(s, e) && Fits(s, e)
    ensures Lost(s, e) > 0 <==> CutShort(s, e)
  {
  }

  ghost predicate AllFit(run: seq<Stream>, events: seq<Event>, i: nat)
    requires i <= |events| < |run|
  {
    forall j {:trigger events[j]} :: 0 <= j < i ==> Fits(run[j], events[j])
  }

  /** A put that failed with bytes left to follow it. */
  predicate CutShort(s: Stream, e: Event) {
    e == PutDone(false) && s.writer.Putting? && Rest(s.writer.cont) != []
  }

  lemma {:induction false} StaysShort(run: seq<Stream>, events: seq<Event>, i: nat)
    requires IsRun(run, events) && i < |run| && AllFit(run, events, i)
    ensures Short(run[i])
  {
    if i > 0 {
      StaysShort(run, events, i - 1);
      EveryState(run, events, i - 1);
      assert StepAt(run, events, i - 1);
      StepShort(run[i - 1], events[i - 1]);
    }
  }

  lemma {:induction false} LostIffCut(run: seq<Stream>, events: seq<Event>, i: nat)
    requires IsRun(run, events) && i < |run| && AllFit(run, events, i)
    ensures LostTo(run, events, i) == 0 <==> forall j {:trigger events[j]} :: 0 <= j < i ==> !CutShort(run[j], events[j])
  {
    if i > 0 {
      LostIffCut(run, events, i - 1);
      StaysShort(run, events, i - 1);
      assert StepAt(run, events, i - 1);
      ShortLost(run[i - 1], events[i - 1]);
    }
  }

  /** As long as no write of a packet makes 2^32 bytes to hold, less than a chunk of them is
      held, and everything written is accepted if and only if no failed put had bytes left
      after it. */
  lemma ShortPackets(run: seq<Stream>, events: seq<Event>, i: nat)
    requires IsRun(run, events) && i < |run| && AllFit(run, events, i)
    ensures |run[i].zc| < run[i].size
    ensures run[i].accepted == run[i].written
      <==> forall j {:trigger events[j]} :: 0 <= j < i ==> !CutShort(run[j], events[j])
  {
    StaysShort(run, events, i);
    LostIffCut(run, events, i);
    AllAccepted(run, events, i);
  }

  /** 2^32 bytes in one packet are skipped, and 2^31 and 2^31 of them are held under the
      length zero until the next packet replaces them. */
  lemma PacketWrapExample(s: Stream, p: seq<byte>, h: seq<byte>, q: seq<byte>)
    requires |p| == 0x1_0000_0000 && |h| == 0x8000_0000 && 0 < |q| < 0x8000_0000
    requires s.writer == Free && s.buf == [] && s.zc == h && s.size > 0x8000_0000
    ensures Lost(s, CallWritePacket(p)) == |p| && Next(s, CallWritePacket(p)).accepted == s.accepted
    ensures Next(s, CallWritePacket(h)).zc == h + h
    ensures Next(Next(s, CallWritePacket(h)), CallWritePacket(q)).zc == q
  {
    assert Low32(|h + h|) == 0;
  }

  /** On a stream that trims to size every put that is not a flush has exactly that size, and
      what stays behind is shorter than a chunk or a full buffer. */
  lemma ChunksExact(run: seq<Stream>, events: seq<Event>, i: nat, k: nat)
    requires IsRun(run, events) && i < |run| && run[i].trim && k < |run[i].puts|
    ensures |run[i].puts[k]| == run[i].size && |run[i].buf| <= run[i].size && Low32(|run[i].zc|) < run[i].size
  {
    EveryState(run, events, i);
  }

  /** A put-off flush that goes ahead hands over everything accepted so far. */
  lemma PollFlushHandsAll(run: seq<Stream>, events: seq<Event>, i: nat)
    requires IsRun(run, events) && i < |run| && run[i].flush
    ensures PollFlush(run[i]).handed == run[i].accepted && PollFlush(run[i]).buf == [] && PollFlush(run[i]).zc == []
  {
    EveryState(run, events, i);
    assert Pending(run[i].writer) == [];
  }

  // ----- the stream object

  class OutputStream {
    const size: positive
    const trimToSize: bool
    const batchFlushes: bool
    var buf: array?<byte>
    var end: nat
    var zcBufs: seq<byte>
    var inBatch: bool
    var flush: bool
    var flushing: bool
    var ex: bool
    // what the pending futures are to do, and the history
    ghost var writer: Writer
    ghost var poller: Poller
    ghost var written: seq<byte>
    ghost var handed: seq<byte>
    ghost var accepted: seq<byte>
    ghost var puts: seq<seq<byte>>
    ghost var flushes: seq<nat>

    /** The buffer, if there is one, has the stream's size. What holds in every run of the
        methods below is what holds of `State()` in every run above. */
    ghost predicate Valid()
      reads this, buf
    {
      (buf != null ==> buf.Length == size && end <= size) && (buf == null ==> end == 0)
    }

    ghost function Buffered(): seq<byte>
      reads this, buf
    {
      if buf == null || end > buf.Length then [] else buf[..end]
    }

    ghost function State(): Stream
      reads this, buf
    {
      Stream(size, trimToSize, batchFlushes, Buffered(), zcBufs, inBatch, flush, flushing, ex,
             writer, poller, written, handed, accepted, puts, flushes)
    }

    constructor (bufferSize: positive, trim: bool, batch: bool)
      ensures Valid() && Init(State()) && size == bufferSize && trimToSize == trim && batchFlushes == batch
    {
      size, trimToSize, batchFlushes := bufferSize, trim, batch;
      buf, end, zcBufs, inBatch, flush, flushing, ex := null, 0, [], false, false, false, false;
      writer, poller, written, handed, accepted, puts, flushes := Free, NoBatch, [], [], [], [], [];
    }

    /** `put` and `zero_copy_put`. */
    method PutOrWait(bytes: seq<byte>, ghost cont: Cont)
      modifies this`flush, this`writer, this`handed, this`puts
      ensures State() == Put(old(State()), bytes, cont)
    {
      flush := false;
      if flushing {
        writer := Blocked(bytes, cont);
      } else {
        writer, handed := Putting(cont), handed + bytes;
        puts := if cont == SinkFlush then puts else puts + [bytes];
      }
    }

    /** Copies bytes behind those in the buffer, which has room for them. */
    method Fill(bytes: seq<byte>)
      requires (buf != null ==> buf.Length == size) && (buf == null ==> end == 0) && end + |bytes| <= size
      modifies this`buf, this`end, buf
      ensures buf != null && buf.Length == size && (fresh(buf) || buf == old(buf))
      ensures end == old(end) + |bytes| && Buffered() == old(Buffered()) + bytes
    {
      if buf == null {
        buf := new byte[size];
      }
      for i := 0 to |bytes|
        modifies buf
        invariant buf[..end + i] == old(Buffered()) + bytes[..i]
      {
        buf[end + i] := bytes[i];
      }
      end := end + |bytes|;
    }

    /** `_buf.trim(_end); _end = 0; std::move(_buf)`. */
    method TakeBuffer() returns (bytes: seq<byte>)
      requires buf != null && end <= buf.Length
      modifies this`buf, this`end
      ensures bytes == old(Buffered()) && buf == null && end == 0
    {
      bytes := buf[..end];
      buf, end := null, 0;
    }

    /** Fills the buffer up and takes it. */
    method FillAndTake(bytes: seq<byte>) returns (full: seq<byte>)
      requires Valid() && end + |bytes| <= size
      modifies this`buf, this`end, buf
      ensures full == old(Buffered()) + bytes && buf == null && end == 0
    {
      Fill(bytes);
      full := TakeBuffer();
    }

    /** One round of `split_and_put`. */
    method SplitRound(bytes: seq<byte>)
      requires (buf != null ==> buf.Length == size) && end == 0
      modifies this`buf, this`end, buf, this`flush, this`writer, this`handed, this`puts
      ensures State() == SplitAndPut(old(State()), bytes)
      ensures Valid()
    {
      if |bytes| < size {
        Fill(bytes);
        writer := Free;
        return;
      }
      PutOrWait(bytes[..size], SplitRest(bytes[size..]));
    }

    /** A write that fills the buffer at least twice: what completes it goes out, then the
        rest. */
    method WriteBulk(bytes: seq<byte>)
      requires Valid()
      requires |bytes| >= if end > 0 then 2 * size - end else size
      modifies this`buf, this`end, buf, this`flush, this`writer, this`handed, this`puts
      ensures State() == Write(old(State()), bytes)
      ensures Valid()
    {
      if end > 0 {
        var now := size - end;
        var full := FillAndTake(bytes[..now]);
        PutOrWait(full, if trimToSize then SplitRest(bytes[now..]) else PutRest(bytes[now..]));
        return;
      }
      if trimToSize {
        SplitRound(bytes);
        return;
      }
      PutOrWait(bytes, Done);
    }

    /** What a write does that fills the buffer up and fits in the next one. */
    lemma WriteOver(s: Stream, bytes: seq<byte>, now: nat)
      requires |s.buf| <= s.size && now == s.size - |s.buf| < |bytes| < if s.buf != [] then 2 * s.size - |s.buf| else s.size
      ensures Write(s, bytes) == Put(s.(buf := bytes[now..]), s.buf + bytes[..now], Done)
    {
    }

    /** A write that goes into the buffer, and when that fills up, into the next one. */
    method WriteBuffered(bytes: seq<byte>)
      requires Valid()
      requires |bytes| < if end > 0 then 2 * size - end else size
      modifies this`buf, this`end, buf, this`flush, this`writer, this`handed, this`puts
      ensures Valid() && State() == Write(old(State()), bytes)
    {
      var n := |bytes|;
      if n <= size - end {
        Fill(bytes);
        return;
      }
      ghost var s := State();
      var now := size - end;
      var full := FillAndTake(bytes[..now]);
      Fill(bytes[now..]);
      assert Buffered() == bytes[now..];
      WriteOver(s, bytes, now);
      PutOrWait(full, Done);
    }

    method WriteBytes(bytes: seq<byte>)
      requires Valid() && writer == Free && zcBufs == []
      modifies this`buf, this`end, buf, this`flush, this`writer, this`handed, this`puts, this`written, this`accepted
      ensures Valid() && State() == Next(old(State()), CallWrite(bytes))
    {
      written, accepted := written + bytes, accepted + bytes;
      if |bytes| >= (if end > 0 then 2 * size - end else size) {
        WriteBulk(bytes);
        return;
      }
      WriteBuffered(bytes);
    }

    /** The last bytes accepted are dropped. */
    ghost method DropBytes(bytes: seq<byte>)
      modifies this`accepted
      ensures State() == Drop(old(State()), bytes)
    {
      accepted := if |bytes| <= |accepted| then accepted[..|accepted| - |bytes|] else [];
    }

    /** One round of `zero_copy_split_and_put`. */
    method ZeroCopyRound(bytes: seq<byte>)
      modifies this`zcBufs, this`flush, this`writer, this`handed, this`puts, this`accepted
      ensures State() == ZeroCopySplitAndPut(old(State()), bytes)
    {
      var len := Low32(|bytes|);
      if len < size {
        if len == 0 {
          DropBytes(bytes);
        } else {
          zcBufs := bytes;
        }
        writer := Free;
        return;
      }
      PutOrWait(bytes[..size], ZeroCopyRest(bytes[size..]));
    }

    /** `_zc_bufs.append(p)`, which replaces what has length zero. */
    method Gather(p: seq<byte>) returns (all: seq<byte>)
      modifies this`accepted
      ensures State() == (if Low32(|zcBufs|) == 0 then Drop(old(State()), zcBufs) else old(State())).(accepted := accepted)
      ensures accepted == (if Low32(|zcBufs|) == 0 then Drop(old(State()), zcBufs).accepted else old(accepted)) + p
      ensures all == if Low32(|zcBufs|) == 0 then p else zcBufs + p
    {
      if Low32(|zcBufs|) == 0 {
        DropBytes(zcBufs);
        all := p;
      } else {
        all := zcBufs + p;
      }
      accepted := accepted + p;
    }

    /** What is gathered goes out once there is enough of it. */
    method KeepOrPut(all: seq<byte>)
      requires Valid()
      modifies this`zcBufs, this`flush, this`writer, this`handed, this`puts, this`accepted
      ensures Valid() && State() == HoldOrPut(old(State()), all)
    {
      if Low32(|all|) < size {
        zcBufs := all;
        return;
      }
      zcBufs := [];
      if trimToSize {
        ZeroCopyRound(all);
        return;
      }
      PutOrWait(all, Done);
    }

    /** `write(packet)`. The length of a packet is kept in 32 bits. */
    method WritePacketBytes(p: seq<byte>)
      requires Valid() && writer == Free && (Low32(|p|) > 0 ==> end == 0)
      modifies this`zcBufs, this`flush, this`writer, this`handed, this`puts, this`written, this`accepted
      ensures Valid() && State() == Next(old(State()), CallWritePacket(p))
    {
      written := written + p;
      if Low32(|p|) == 0 {
        return;
      }
      var all := Gather(p);
      KeepOrPut(all);
    }

    /** A put of the caller is through: what it was followed by goes on, unless it failed. */
    method PutReturns(cont: Cont, ok: bool)
      requires Valid() && Inv(State()) && writer == Putting(cont)
      modifies this`buf, this`end, buf, this`zcBufs, this`flush, this`writer, this`handed, this`puts, this`accepted,
               this`flushes
      ensures Valid() && State() == Next(old(State()), PutDone(ok))
    {
      if !ok {
        DropBytes(Rest(cont));
        writer := Free;
        return;
      }
      match cont {
        case Done => writer := Free;
        case SplitRest(bytes) => SplitRound(bytes);
        case PutRest(bytes) => PutOrWait(bytes, Done);
        case ZeroCopyRest(bytes) => ZeroCopyRound(bytes);
        case SinkFlush => writer, flushes := Flushing, flushes + [|handed|];
      }
    }

    /** The put-off flush's turn, from the poller's queue or after a flush of the sink. */
    method PollFlushNow()
      requires Valid() && inBatch
      modifies this`buf, this`end, this`zcBufs, this`flush, this`flushing, this`inBatch,
               this`writer, this`poller, this`handed
      ensures Valid() && State() == PollFlush(old(State()))
    {
      if !flush {
        flushing, inBatch, poller := false, false, NoBatch;
        writer := if writer.Blocked? then Released(writer.bytes, writer.cont) else writer;
        return;
      }
      flush, flushing := false, true;
      HandOver();
    }

    /** Puts what is held, if anything is. */
    method HandOver()
      requires Valid()
      modifies this`buf, this`end, this`zcBufs, this`poller, this`handed
      ensures Valid() && State() == PollHandOver(old(State()))
    {
      if end > 0 {
        var bytes := TakeBuffer();
        poller, handed := PollPut, handed + bytes;
        return;
      }
      if zcBufs != [] {
        poller, handed, zcBufs := PollPut, handed + zcBufs, [];
        return;
      }
      poller := PollReady;
    }

    /** The flush of a stream that does not batch: the caller waits for the put and then for
        the flush of the sink. */
    method FlushNow()
      requires Valid() && !batchFlushes
      modifies this`buf, this`end, this`zcBufs, this`flush, this`writer, this`handed, this`puts
      ensures old(end) > 0 && !flushing ==>
        end == 0 && writer == Putting(SinkFlush) && handed == old(handed) + old(Buffered())
      ensures old(end) == 0 && old(zcBufs) != [] && !flushing ==>
        zcBufs == [] && writer == Putting(SinkFlush) && handed == old(handed) + old(zcBufs)
      ensures Valid() && State() == Flush(old(State()))
    {
      if end > 0 {
        var bytes := TakeBuffer();
        PutOrWait(bytes, SinkFlush);
        return;
      }
      if zcBufs != [] {
        var bytes := zcBufs;
        zcBufs := [];
        PutOrWait(bytes, SinkFlush);
      }
    }

    /** Without batching the stream is flushed at once; with it the flush is put off, or an
        earlier error is reported. */
    method CallFlushNow() returns (error: bool)
      requires Valid() && writer == Free
      modifies this`buf, this`end, this`zcBufs, this`flush, this`inBatch, this`ex,
               this`writer, this`poller, this`handed, this`puts
      ensures Valid() && State() == Next(old(State()), CallFlush)
      ensures error == (batchFlushes && old(ex))
    {
      if !batchFlushes {
        FlushNow();
        return false;
      }
      if ex {
        ex := false;
        return true;
      }
      poller := if inBatch then poller else Scheduled;
      flush, inBatch := true, true;
      return false;
    }

    /** The poller's turn. */
    method PollBatch()
      requires Valid() && Inv(State()) && poller == Scheduled
      modifies this`buf, this`end, this`zcBufs, this`flush, this`flushing, this`inBatch,
               this`writer, this`poller, this`handed
      ensures Valid() && State() == Next(old(State()), Poll)
    {
      PollFlushNow();
    }

    /** The put of a put-off flush is through; when it failed the error is kept, and the flush
        ends or starts over. */
    method PollPutReturns(ok: bool)
      requires Valid() && Inv(State()) && poller == PollPut
      modifies this`buf, this`end, this`zcBufs, this`flush, this`flushing, this`inBatch, this`ex,
               this`writer, this`poller, this`handed
      ensures Valid() && State() == Next(old(State()), PollPutDone(ok))
    {
      if ok {
        poller := PollReady;
        return;
      }
      ex := true;
      PollFlushNow();
    }

    /** The put-off flush goes on to flush the sink. */
    method PollContinues()
      requires Valid() && poller == PollReady
      modifies this`poller, this`flushes
      ensures Valid() && State() == Next(old(State()), PollContinue)
    {
      poller, flushes := PollFlushing, flushes + [|handed|];
    }

    /** The flush of the sink is through; the put-off flush ends or starts over. */
    method PollFlushReturns(ok: bool)
      requires Valid() && Inv(State()) && poller == PollFlushing
      modifies this`buf, this`end, this`zcBufs, this`flush, this`flushing, this`inBatch, this`ex,
               this`writer, this`poller, this`handed
      ensures Valid() && State() == Next(old(State()), PollFlushDone(ok))
    {
      ex := ex || !ok;
      PollFlushNow();
    }

    /** A put that waited for a flush in progress is let go. */
    method ResumePut(bytes: seq<byte>, cont: Cont)
      requires Valid() && writer == Released(bytes, cont)
      modifies this`writer, this`handed, this`puts
      ensures Valid() && State() == Next(old(State()), Resume)
    {
      writer, handed := Putting(cont), handed + bytes;
      puts := if cont == SinkFlush then puts else puts + [bytes];
    }

    /** The flush of the sink that the caller waited for is through. */
    method FlushReturns()
      requires Valid() && writer == Flushing
      modifies this`writer
      ensures Valid() && State() == Next(old(State()), FlushDone)
    {
      writer := Free;
    }
  }
}
