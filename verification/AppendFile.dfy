/** The operation scheduler of a file on which a write that changes the size must not run
    beside any other I/O. Operations queue up in order, run concurrently where that is safe,
    and the file is grown ahead of queued appending writes so that they can. */
module AppendFiles {
  import opened Bits
  import opened Utils

  type positive = n: nat | n > 0 witness 1

  datatype Opcode = Read | Write | Truncate | Flush

  datatype Op = Op(kind: Opcode, pos: nat, len: nat)

  /** An operation in flight: counted as size-changing or not when it was dispatched; once
      `returned` its result has come in, and only the continuation that uncounts it is due. */
  datatype Flight = Flight(op: Op, changing: bool, returned: bool)

  /** The state of a file. `disk` is its length on disk; `submitted` and `started` record the
      order in which operations were queued and dispatched, `completions` how often
      `_completed` was set. */
  datatype File = File(
    committed: nat,
    logical: nat,
    disk: nat,
    q: seq<Op>,
    flights: seq<Flight>,
    done: bool,
    completions: nat,
    sloppy: bool,
    maxOps: nat,
    align: positive,
    submitted: seq<Op>,
    started: seq<Op>)

  predicate RunsAlone(sloppy: bool, op: Op) {
    op.kind == Truncate || (sloppy && op.kind == Flush)
  }

  predicate Appends(committed: nat, op: Op) {
    op.kind == Write && op.pos + op.len > committed
  }

  predicate ChangesSize(f: File, op: Op) {
    Appends(f.committed, op) || RunsAlone(f.sloppy, op)
  }

  /** How many flights were counted as size-changing, or as not. */
  function Count(flights: seq<Flight>, changing: bool): nat {
    if flights == [] then 0
    else Count(flights[..|flights| - 1], changing) + if flights[|flights| - 1].changing == changing then 1 else 0
  }

  predicate CanStart(f: File, op: Op) {
    if ChangesSize(f, op) then
      Count(f.flights, true) == 0 && Count(f.flights, false) == 0
    else
      Count(f.flights, true) == 0
  }

  /** The effect of starting `op`: a flush gives back the space beyond the logical size before
      anything else, if the truncation succeeds. */
  function Start(f: File, op: Op, truncated: bool): File {
    f.(flights := f.flights + [Flight(op, ChangesSize(f, op), false)],
       started := f.started + [op],
       committed := if op.kind == Flush && truncated then f.logical else f.committed,
       disk := if op.kind == Flush && f.logical != f.committed && truncated then f.logical else f.disk)
  }

  /** Dispatches from the front of the queue for as long as the front may run. */
  function Drain(f: File, truncated: bool): File
    decreases |f.q|
  {
    if f.q != [] && CanStart(f, f.q[0]) then
      Drain(Start(f.(q := f.q[1..]), f.q[0], truncated), truncated)
    else
      f
  }

  // ----- growing ahead of the writes

  /** How many queued operations come before the first that must run alone. */
  function Batch(sloppy: bool, q: seq<Op>): (n: nat)
    ensures n <= |q|
    ensures forall i :: 0 <= i < n ==> !RunsAlone(sloppy, q[i])
    ensures n < |q| ==> RunsAlone(sloppy, q[n])
  {
    if q == [] || RunsAlone(sloppy, q[0]) then 0 else 1 + Batch(sloppy, q[1..])
  }

  /** The size that covers the first `n` queued writes, and how many of them append. */
  function Covering(committed: nat, q: seq<Op>, n: nat): (r: (nat, nat))
    requires n <= |q|
    ensures r.0 >= committed
  {
    if n == 0 then (committed, 0)
    else
      var r := Covering(committed, q, n - 1);
      var op := q[n - 1];
      if Appends(committed, op) then (Max(r.0, op.pos + op.len), r.1 + 1) else r
  }

  /** The covering size is just enough for the writes, and the count is of those that append. */
  lemma {:induction false} CoveringFacts(committed: nat, q: seq<Op>, n: nat)
    requires n <= |q|
    ensures var (size, appending) := Covering(committed, q, n);
      && (forall i :: 0 <= i < n && q[i].kind == Write ==> q[i].pos + q[i].len <= size)
      && (size == committed || exists i :: 0 <= i < n && q[i].kind == Write && size == q[i].pos + q[i].len)
      && (appending == 0 <==> forall i :: 0 <= i < n ==> !Appends(committed, q[i]))
  {
    if n > 0 {
      CoveringFacts(committed, q, n - 1);
    }
  }

  /** The size to grow the file to, or none when growing does not pay. */
  datatype Growth = Grow(size: nat) | Stay

  function Speculate(f: File): Growth {
    var (size, appending) := Covering(f.committed, f.q, Batch(f.sloppy, f.q));
    if appending > f.maxOps || (appending > 0 && f.sloppy) then
      Grow(if f.sloppy && size < 2 * f.committed then AlignUp(2 * f.committed, f.align) else size)
    else
      Stay
  }

  function Optimized(f: File, grown: bool): File {
    if f.flights != [] then f
    else
      match Speculate(f)
      case Stay => f
      case Grow(size) => if grown then f.(committed := size, disk := size) else f
  }

  predicate AtRest(f: File) {
    f.done && f.q == [] && f.flights == []
  }

  function Quit(f: File): File {
    if AtRest(f) then f.(completions := f.completions + 1, done := false) else f
  }

  /** `grown` and `truncated` are the outcomes of the system calls it may make. */
  function Processed(f: File, grown: bool, truncated: bool): File {
    Quit(Drain(Optimized(f, grown), truncated))
  }

  // ----- what can happen to a file

  datatype Event =
    | Submit(op: Op)
    | Return(i: nat, ok: bool, bytes: nat)
    | Retire(i: nat)
    | Close

  predicate Enabled(f: File, e: Event) {
    match e
    case Submit(op) => op.kind == Flush ==> f.sloppy
    case Return(i, _, bytes) => i < |f.flights| && !f.flights[i].returned && bytes <= f.flights[i].op.len
    case Retire(i) => i < |f.flights| && f.flights[i].returned
    case Close => true
  }

  /** The result of an operation: a write that succeeded moves the sizes up to what it wrote,
      a truncation sets them. The file on disk covers the bytes that were written, also by a
      write that failed after that; one of no bytes leaves it as it is. */
  function Resized(f: File, op: Op, ok: bool, bytes: nat): File {
    var g := f.(disk := if op.kind == Write && bytes > 0 then Max(op.pos + bytes, f.disk) else f.disk);
    if ok && op.kind == Write then
      g.(committed := Max(op.pos + bytes, f.committed), logical := Max(op.pos + bytes, f.logical))
    else if ok && op.kind == Truncate then
      g.(committed := op.pos, logical := op.pos, disk := op.pos)
    else
      g
  }

  function Returned(f: File, i: nat, ok: bool, bytes: nat): File
    requires i < |f.flights|
  {
    Resized(f.(flights := f.flights[i := f.flights[i].(returned := true)]), f.flights[i].op, ok, bytes)
  }

  function Next(f: File, e: Event, grown: bool, truncated: bool): File
    requires Enabled(f, e)
  {
    match e
    case Submit(op) => Processed(f.(q := f.q + [op], submitted := f.submitted + [op]), grown, truncated)
    case Return(i, ok, bytes) => Returned(f, i, ok, bytes)
    case Retire(i) => Processed(f.(flights := f.flights[..i] + f.flights[i + 1..]), grown, truncated)
    case Close => Processed(f.(done := true), grown, truncated)
  }

  // ----- the invariant

  ghost predicate FlightOk(f: File, i: nat)
    requires i < |f.flights|
  {
    var l := f.flights[i];
    && (l.changing ==> |f.flights| == 1)
    && (RunsAlone(f.sloppy, l.op) ==> l.changing)
    && (l.changing && !l.returned ==> ChangesSize(f, l.op))
    && (!l.changing && l.op.kind == Write ==> l.op.pos + l.op.len <= f.committed)
  }

  /** A size-changing operation in flight is alone there; a write in flight that was not
      counted as one lies within the committed size; and the logical size does too. */
  ghost predicate Safe(f: File) {
    && f.logical <= f.committed
    && (forall i {:trigger FlightOk(f, i)} :: 0 <= i < |f.flights| ==> FlightOk(f, i))
    && (forall op :: op in f.q && op.kind == Flush ==> f.sloppy)
    && f.started + f.q == f.submitted
  }

  /** Nothing waits with nothing running, and nothing waits to be told of the end. */
  ghost predicate Settled(f: File) {
    && (f.q != [] ==> f.flights != [] && !CanStart(f, f.q[0]))
    && (f.done ==> f.flights != [])
  }

  lemma {:induction false} CountFacts(flights: seq<Flight>)
    ensures Count(flights, true) + Count(flights, false) == |flights|
    ensures forall i :: 0 <= i < |flights| && flights[i].changing ==> Count(flights, true) > 0
    ensures Count(flights, true) > 0 ==> exists i :: 0 <= i < |flights| && flights[i].changing
  {
    if flights != [] {
      CountFacts(flights[..|flights| - 1]);
    }
  }

  lemma StartKeepsSafe(f: File, op: Op, truncated: bool)
    requires Safe(f) && f.q != [] && op == f.q[0] && CanStart(f, op)
    ensures Safe(Start(f.(q := f.q[1..]), op, truncated))
  {
    var g := Start(f.(q := f.q[1..]), op, truncated);
    CountFacts(f.flights);
    assert f.q == [op] + f.q[1..];
    assert g.started + g.q == f.started + f.q;
    assert op in f.q;
    forall i {:trigger FlightOk(g, i)} | 0 <= i < |g.flights|
      ensures FlightOk(g, i)
    {
      assert i < |f.flights| ==> FlightOk(f, i);
    }
  }

  lemma {:induction false} DrainKeepsSafe(f: File, truncated: bool)
    requires Safe(f)
    ensures Safe(Drain(f, truncated))
    decreases |f.q|
  {
    if f.q != [] && CanStart(f, f.q[0]) {
      StartKeepsSafe(f, f.q[0], truncated);
      DrainKeepsSafe(Start(f.(q := f.q[1..]), f.q[0], truncated), truncated);
    }
  }

  /** Draining touches the queue, the flights and the committed size only. */
  lemma {:induction false} DrainKeeps(f: File, truncated: bool)
    ensures var g := Drain(f, truncated);
      && g.done == f.done && g.completions == f.completions && g.submitted == f.submitted
      && g.sloppy == f.sloppy && g.maxOps == f.maxOps && g.align == f.align && g.logical == f.logical
      && |g.q| <= |f.q| && |g.flights| - |f.flights| == |f.q| - |g.q|
    decreases |f.q|
  {
    if f.q != [] && CanStart(f, f.q[0]) {
      DrainKeeps(Start(f.(q := f.q[1..]), f.q[0], truncated), truncated);
    }
  }

  /** The queue is drained until its front may not run. */
  lemma {:induction false} DrainSettles(f: File, truncated: bool)
    ensures var g := Drain(f, truncated); g.q != [] ==> !CanStart(g, g.q[0]) && g.flights != []
    decreases |f.q|
  {
    CountFacts(f.flights);
    if f.q != [] && CanStart(f, f.q[0]) {
      DrainSettles(Start(f.(q := f.q[1..]), f.q[0], truncated), truncated);
    }
  }

  lemma OptimizeKeepsSafe(f: File, grown: bool)
    requires Safe(f)
    ensures Safe(Optimized(f, grown)) && Optimized(f, grown).committed >= f.committed
  {
  }

  lemma ProcessKeepsSafe(f: File, grown: bool, truncated: bool)
    requires Safe(f)
    ensures Safe(Processed(f, grown, truncated)) && Settled(Processed(f, grown, truncated))
  {
    OptimizeKeepsSafe(f, grown);
    var g := Optimized(f, grown);
    DrainKeepsSafe(g, truncated);
    DrainKeeps(g, truncated);
    DrainSettles(g, truncated);
    var h := Drain(g, truncated);
    assert forall i :: 0 <= i < |h.flights| ==> FlightOk(h, i);
    forall i {:trigger FlightOk(Quit(h), i)} | 0 <= i < |h.flights|
      ensures FlightOk(Quit(h), i)
    {
      assert FlightOk(h, i);
    }
  }

  lemma ReturnKeepsSafe(f: File, i: nat, ok: bool, bytes: nat)
    requires Safe(f) && Settled(f) && Enabled(f, Return(i, ok, bytes))
    ensures Safe(Returned(f, i, ok, bytes)) && Settled(Returned(f, i, ok, bytes))
  {
    var g := Returned(f, i, ok, bytes);
    assert FlightOk(f, i);
    CountFacts(f.flights);
    CountFacts(g.flights);
    SameCounts(f.flights, g.flights);
    forall j {:trigger FlightOk(g, j)} | 0 <= j < |g.flights|
      ensures FlightOk(g, j)
    {
      assert FlightOk(f, j);
    }
  }

  lemma {:induction false} SameCounts(a: seq<Flight>, b: seq<Flight>)
    requires |a| == |b| && forall i :: 0 <= i < |a| ==> a[i].changing == b[i].changing
    ensures Count(a, true) == Count(b, true) && Count(a, false) == Count(b, false)
  {
    if a != [] {
      SameCounts(a[..|a| - 1], b[..|b| - 1]);
    }
  }

  lemma StepKeepsSafe(f: File, e: Event, grown: bool, truncated: bool)
    requires Safe(f) && Settled(f) && Enabled(f, e)
    ensures Safe(Next(f, e, grown, truncated)) && Settled(Next(f, e, grown, truncated))
  {
    match e
    case Submit(op) =>
      SubmitKeepsSafe(f, op);
      ProcessKeepsSafe(f.(q := f.q + [op], submitted := f.submitted + [op]), grown, truncated);
    case Return(i, ok, bytes) =>
      ReturnKeepsSafe(f, i, ok, bytes);
    case Retire(i) =>
      RetireKeepsSafe(f, i);
      ProcessKeepsSafe(f.(flights := f.flights[..i] + f.flights[i + 1..]), grown, truncated);
    case Close =>
      CloseKeepsSafe(f);
      ProcessKeepsSafe(f.(done := true), grown, truncated);
  }

  // ----- runs

  /** An event, with the outcomes of the system calls made while it is handled. */
  datatype Step = Step(event: Event, grown: bool, truncated: bool)

  ghost predicate Init(f: File) {
    && f.q == [] && f.flights == [] && !f.done && f.completions == 0
    && f.logical <= f.committed == f.disk && f.submitted == [] && f.started == []
  }

  ghost predicate StepAt(run: seq<File>, steps: seq<Step>, i: nat)
    requires i < |steps| && |run| == |steps| + 1
  {
    && Enabled(run[i], steps[i].event)
    && run[i + 1] == Next(run[i], steps[i].event, steps[i].grown, steps[i].truncated)
  }

  ghost predicate IsRun(run: seq<File>, steps: seq<Step>) {
    |run| == |steps| + 1 && Init(run[0]) && forall i :: 0 <= i < |steps| ==> StepAt(run, steps, i)
  }

  lemma {:induction false} EveryState(run: seq<File>, steps: seq<Step>, i: nat)
    requires IsRun(run, steps) && i < |run|
    ensures Safe(run[i]) && Settled(run[i])
  {
    if i > 0 {
      EveryState(run, steps, i - 1);
      assert StepAt(run, steps, i - 1);
      StepKeepsSafe(run[i - 1], steps[i - 1].event, steps[i - 1].grown, steps[i - 1].truncated);
    }
  }

  /** At most one size-changing operation is in flight, never beside another; and a write in
      flight that was not counted as one lies within the committed size for as long as it is
      there. */
  lemma InFlightSafety(run: seq<File>, steps: seq<Step>, i: nat, k: nat)
    requires IsRun(run, steps) && i < |run| && k < |run[i].flights|
    ensures run[i].flights[k].changing ==> |run[i].flights| == 1
    ensures var op := run[i].flights[k].op;
      && (op.kind == Truncate || (op.kind == Flush && run[i].sloppy) ==> |run[i].flights| == 1)
      && (op.kind == Write && !run[i].flights[k].changing ==> op.pos + op.len <= run[i].committed)
      && (op.kind == Write && |run[i].flights| > 1 ==> op.pos + op.len <= run[i].committed)
    ensures run[i].logical <= run[i].committed
  {
    EveryState(run, steps, i);
    assert FlightOk(run[i], k);
  }

  /** Operations start in the order they were submitted, and one that waits has another in
      flight before it. */
  lemma StartedInOrder(run: seq<File>, steps: seq<Step>, i: nat)
    requires IsRun(run, steps) && i < |run|
    ensures run[i].submitted == run[i].started + run[i].q
    ensures run[i].q != [] ==> run[i].flights != []
  {
    EveryState(run, steps, i);
  }

  /** What waits would change the size itself while others are in flight, or does so for an
      operation that changes the size and is in flight alone, if it has not returned. */
  lemma WaitsFor(run: seq<File>, steps: seq<Step>, i: nat)
    requires IsRun(run, steps) && i < |run| && run[i].q != []
    ensures run[i].flights != []
    ensures var f := run[i];
      Resizes(f, f.q[0]) || (|f.flights| == 1 && (f.flights[0].returned || Resizes(f, f.flights[0].op)))
  {
    EveryState(run, steps, i);
    var f := run[i];
    CountFacts(f.flights);
    if !Resizes(f, f.q[0]) {
      assert !ChangesSize(f, f.q[0]);
      var k :| 0 <= k < |f.flights| && f.flights[k].changing;
      assert FlightOk(f, k);
    }
  }

  /** A truncation, a flush that gives back space, or a write beyond the committed size. */
  ghost predicate Resizes(f: File, op: Op) {
    match op.kind
    case Read => false
    case Write => op.pos + op.len > f.committed
    case Truncate => true
    case Flush => f.sloppy
  }

  // ----- the logical size

  /** Where a successful write of this event ends, or -1. */
  function WriteEnd(f: File, e: Event): int {
    if e.Return? && e.i < |f.flights| && f.flights[e.i].op.kind == Write && e.ok then f.flights[e.i].op.pos + e.bytes else -1
  }

  /** The size set by a successful truncation of this event, or -1. */
  function CutTo(f: File, e: Event): int {
    if e.Return? && e.i < |f.flights| && f.flights[e.i].op.kind == Truncate && e.ok then f.flights[e.i].op.pos else -1
  }

  lemma ProcessedLogical(f: File, grown: bool, truncated: bool)
    ensures Processed(f, grown, truncated).logical == f.logical
  {
    DrainKeeps(Optimized(f, grown), truncated);
  }

  lemma StepSizes(f: File, e: Event, grown: bool, truncated: bool)
    requires Enabled(f, e)
    ensures CutTo(f, e) >= 0 ==> Next(f, e, grown, truncated).logical == CutTo(f, e)
    ensures CutTo(f, e) < 0 ==> Next(f, e, grown, truncated).logical == Max(f.logical, WriteEnd(f, e))
  {
    match e
    case Submit(op) => ProcessedLogical(f.(q := f.q + [op], submitted := f.submitted + [op]), grown, truncated);
    case Return(_, _, _) =>
    case Retire(i) => ProcessedLogical(f.(flights := f.flights[..i] + f.flights[i + 1..]), grown, truncated);
    case Close => ProcessedLogical(f.(done := true), grown, truncated);
  }

  ghost predicate NoCut(run: seq<File>, steps: seq<Step>, t: nat, i: nat)
    requires i <= |steps| < |run|
  {
    forall j {:trigger steps[j]} :: t <= j < i ==> CutTo(run[j], steps[j].event) < 0
  }

  ghost predicate CoversWrites(run: seq<File>, steps: seq<Step>, t: nat, i: nat, size: int)
    requires i <= |steps| < |run|
  {
    forall j {:trigger steps[j]} :: t <= j < i ==> WriteEnd(run[j], steps[j].event) <= size
  }

  /** The logical size is the one that the last successful truncation set, or that the file had
      at first, raised to the end of every write that has succeeded since, and no further. The
      truncation was the event before state `t`. */
  lemma {:induction false} LogicalSize(run: seq<File>, steps: seq<Step>, i: nat) returns (t: nat, base: int)
    requires IsRun(run, steps) && i < |run|
    ensures t <= i && NoCut(run, steps, t, i) && CoversWrites(run, steps, t, i, run[i].logical)
    ensures base == (if t == 0 then run[0].logical else CutTo(run[t - 1], steps[t - 1].event)) && 0 <= base <= run[i].logical
    ensures run[i].logical == base ||
            exists j {:trigger steps[j]} :: t <= j < i && WriteEnd(run[j], steps[j].event) == run[i].logical
  {
    if i == 0 {
      return 0, run[0].logical;
    }
    assert StepAt(run, steps, i - 1);
    var f, s := run[i - 1], steps[i - 1];
    StepSizes(f, s.event, s.grown, s.truncated);
    if CutTo(f, s.event) >= 0 {
      return i, CutTo(f, s.event);
    }
    t, base := LogicalSize(run, steps, i - 1);
  }

  // ----- the file on disk

  /** A write returns that has written nothing beyond the end of the file on disk. */
  predicate Hollow(f: File, e: Event) {
    e.Return? && e.i < |f.flights| && f.flights[e.i].op.kind == Write && e.ok && e.bytes == 0 && f.flights[e.i].op.pos > f.disk
  }

  /** A write fails that has written something beyond the end of the file on disk. */
  predicate LeavesRest(f: File, e: Event) {
    e.Return? && e.i < |f.flights| && f.flights[e.i].op.kind == Write && !e.ok && e.bytes > 0
    && f.flights[e.i].op.pos + e.bytes > f.disk
  }

  lemma {:induction false} DrainDisk(f: File, truncated: bool)
    ensures f.committed <= f.disk ==> Drain(f, truncated).committed <= Drain(f, truncated).disk
    ensures f.committed == f.disk ==> Drain(f, truncated).committed == Drain(f, truncated).disk
    ensures f.committed > f.disk && !(exists op :: op in f.q && op.kind == Flush) ==>
      Drain(f, truncated).committed == f.committed && Drain(f, truncated).disk == f.disk
    decreases |f.q|
  {
    if f.q != [] && CanStart(f, f.q[0]) {
      var g := Start(f.(q := f.q[1..]), f.q[0], truncated);
      assert f.q[0] in f.q && forall op :: op in g.q ==> op in f.q;
      DrainDisk(g, truncated);
    }
  }

  lemma ProcessedDisk(f: File, grown: bool, truncated: bool)
    ensures f.committed <= f.disk ==> Processed(f, grown, truncated).committed <= Processed(f, grown, truncated).disk
    ensures f.committed == f.disk ==> Processed(f, grown, truncated).committed == Processed(f, grown, truncated).disk
  {
    DrainDisk(Optimized(f, grown), truncated);
  }

  /** An event keeps the committed size on disk if and only if it is not the return of a write
      of nothing beyond the end, and keeps both the same if and only if it is not that of a
      failed write that got beyond the end either. */
  lemma StepKeepsDisk(f: File, e: Event, grown: bool, truncated: bool)
    requires Enabled(f, e) && f.committed <= f.disk
    ensures Next(f, e, grown, truncated).committed <= Next(f, e, grown, truncated).disk <==> !Hollow(f, e)
    ensures f.committed == f.disk ==>
      (Next(f, e, grown, truncated).committed == Next(f, e, grown, truncated).disk <==> !Hollow(f, e) && !LeavesRest(f, e))
  {
    match e
    case Submit(op) => ProcessedDisk(f.(q := f.q + [op], submitted := f.submitted + [op]), grown, truncated);
    case Return(_, _, _) =>
    case Retire(i) => ProcessedDisk(f.(flights := f.flights[..i] + f.flights[i + 1..]), grown, truncated);
    case Close => ProcessedDisk(f.(done := true), grown, truncated);
  }

  ghost predicate NoneHollow(run: seq<File>, steps: seq<Step>, i: nat)
    requires i <= |steps| < |run|
  {
    forall j {:trigger steps[j]} :: 0 <= j < i ==> !Hollow(run[j], steps[j].event)
  }

  /** As long as no write has returned with nothing beyond the end, the committed size is on
      disk, and a write that is in flight beside other operations does not change the length
      of the file. */
  lemma {:induction false} CommittedOnDisk(run: seq<File>, steps: seq<Step>, i: nat)
    requires IsRun(run, steps) && i < |run| && NoneHollow(run, steps, i)
    ensures run[i].logical <= run[i].committed <= run[i].disk
    ensures forall k {:trigger run[i].flights[k]} ::
      0 <= k < |run[i].flights| && |run[i].flights| > 1 && run[i].flights[k].op.kind == Write ==>
      run[i].flights[k].op.pos + run[i].flights[k].op.len <= run[i].disk
  {
    EveryState(run, steps, i);
    if i > 0 {
      CommittedOnDisk(run, steps, i - 1);
      assert StepAt(run, steps, i - 1);
      StepKeepsDisk(run[i - 1], steps[i - 1].event, steps[i - 1].grown, steps[i - 1].truncated);
    }
    forall k {:trigger run[i].flights[k]} |
      0 <= k < |run[i].flights| && |run[i].flights| > 1 && run[i].flights[k].op.kind == Write
      ensures run[i].flights[k].op.pos + run[i].flights[k].op.len <= run[i].disk
    {
      assert FlightOk(run[i], k);
    }
  }

  /** If no write has failed beyond the end either, the committed size is the length on disk. */
  lemma {:induction false} CommittedIsDisk(run: seq<File>, steps: seq<Step>, i: nat)
    requires IsRun(run, steps) && i < |run| && NoneHollow(run, steps, i)
    requires forall j {:trigger steps[j]} :: 0 <= j < i ==> !LeavesRest(run[j], steps[j].event)
    ensures run[i].committed == run[i].disk
  {
    if i > 0 {
      CommittedIsDisk(run, steps, i - 1);
      assert StepAt(run, steps, i - 1);
      StepKeepsDisk(run[i - 1], steps[i - 1].event, steps[i - 1].grown, steps[i - 1].truncated);
    }
  }

  /** After a write of nothing beyond the end of any file at rest, two writes that make the
      file longer are in flight at once. */
  lemma HollowExample(f: File, w: Op, a: Op, b: Op) returns (sent: File, returned: File, retired: File, both: File)
    requires f.q == [] && f.flights == [] && !f.done && f.disk == f.committed >= f.logical
    requires w.kind == Write && w.len == 0 && w.pos > f.committed && a.kind == b.kind == Write
    requires f.disk < a.pos + a.len <= w.pos && f.disk < b.pos + b.len <= w.pos
    ensures sent == Next(f, Submit(w), false, false) && Hollow(sent, Return(0, true, 0)) && Enabled(sent, Return(0, true, 0))
    ensures returned == Next(sent, Return(0, true, 0), false, false) && Enabled(returned, Retire(0))
    ensures retired == Next(returned, Retire(0), false, false)
    ensures both == Next(Next(retired, Submit(a), false, false), Submit(b), false, false)
    ensures both.flights == [Flight(a, false, false), Flight(b, false, false)] && both.disk == f.disk
  {
    sent := EmptyWrite(f, w);
    returned := sent.(flights := [Flight(w, true, true)], committed := w.pos, logical := w.pos);
    retired := returned.(flights := []);
    StartsAtOnce(retired, a);
    var one := Start(retired.(submitted := retired.submitted + [a]), a, false);
    assert one.flights == [Flight(a, false, false)];
    CountFacts(one.flights);
    StartsAtOnce(one, b);
    both := Start(one.(submitted := one.submitted + [b]), b, false);
  }

  /** A write of nothing beyond the end starts, returns and retires. */
  lemma EmptyWrite(f: File, w: Op) returns (g: File)
    requires f.q == [] && f.flights == [] && !f.done && w.kind == Write && w.len == 0 && w.pos > f.committed >= f.logical
    ensures g == f.(flights := [Flight(w, true, false)], submitted := f.submitted + [w], started := f.started + [w])
    ensures g == Next(f, Submit(w), false, false)
    ensures var h := g.(flights := [Flight(w, true, true)], committed := w.pos, logical := w.pos);
      h == Next(g, Return(0, true, 0), false, false) && h.(flights := []) == Next(h, Retire(0), false, false)
  {
    StartsAtOnce(f, w);
    g := Start(f.(submitted := f.submitted + [w]), w, false);
    var l := [Flight(w, true, true)];
    assert l[..0] + l[1..] == [];
  }

  /** An operation that may start, with nothing queued before it, does. */
  lemma StartsAtOnce(f: File, op: Op)
    requires f.q == [] && CanStart(f, op) && op.kind != Flush
    ensures Next(f, Submit(op), false, false) == Start(f.(submitted := f.submitted + [op]), op, false)
  {
    var g := f.(q := f.q + [op], submitted := f.submitted + [op]);
    var h := Start(g.(q := g.q[1..]), op, false);
    assert g.q == [op] && g.q[1..] == [] && Optimized(g, false) == g && CanStart(g, op);
    assert Drain(g, false) == Drain(h, false) == h;
  }

  // ----- what growing the file achieves

  /** The appending writes among the first `n` queued operations. */
  ghost function Appending(committed: nat, q: seq<Op>, n: nat): set<nat>
    requires n <= |q|
  {
    set i | 0 <= i < n && Appends(committed, q[i])
  }

  lemma {:induction false} CoveringCounts(committed: nat, q: seq<Op>, n: nat)
    requires n <= |q|
    ensures Covering(committed, q, n).1 == |Appending(committed, q, n)|
  {
    if n > 0 {
      CoveringCounts(committed, q, n - 1);
      var was, now := Appending(committed, q, n - 1), Appending(committed, q, n);
      if Appends(committed, q[n - 1]) {
        assert now == was + {n - 1};
      } else {
        assert now == was;
      }
    } else {
      assert Appending(committed, q, 0) == {};
    }
  }

  /** With appending writes among them, the covering size is the end of one of them. */
  lemma CoveringEnd(committed: nat, q: seq<Op>, n: nat)
    requires n <= |q| && Appending(committed, q, n) != {}
    ensures var size := Covering(committed, q, n).0;
      && (forall i :: i in Appending(committed, q, n) ==> q[i].pos + q[i].len <= size)
      && (exists i :: i in Appending(committed, q, n) && q[i].pos + q[i].len == size)
  {
    CoveringFacts(committed, q, n);
    var size := Covering(committed, q, n).0;
    var j :| j in Appending(committed, q, n);
    assert q[j].pos + q[j].len <= size;
    var i :| 0 <= i < n && q[i].kind == Write && size == q[i].pos + q[i].len;
    assert i in Appending(committed, q, n);
  }

  /** The file is grown if and only if, before the first operation that must run alone, more
      appending writes wait than may run one by one, or any does and the file is sloppy. */
  lemma GrowthWhen(f: File)
    ensures var appending := Appending(f.committed, f.q, Batch(f.sloppy, f.q));
      Speculate(f).Grow? <==> |appending| > f.maxOps || (f.sloppy && appending != {})
  {
    CoveringCounts(f.committed, f.q, Batch(f.sloppy, f.q));
  }

  /** It is grown just enough for those writes, but a sloppy file to twice its size at least. */
  lemma GrowthSize(f: File)
    requires Speculate(f).Grow?
    ensures var appending, size := Appending(f.committed, f.q, Batch(f.sloppy, f.q)), Speculate(f).size;
      && (forall i :: i in appending ==> f.q[i].pos + f.q[i].len <= size) && (f.sloppy ==> size >= 2 * f.committed)
      && ((exists i :: i in appending && f.q[i].pos + f.q[i].len == size)
          || (f.sloppy && size == AlignUp(2 * f.committed, f.align)))
  {
    var n := Batch(f.sloppy, f.q);
    CoveringCounts(f.committed, f.q, n);
    assert Appending(f.committed, f.q, n) != {};
    CoveringEnd(f.committed, f.q, n);
  }

  /** Operations that do not change the size, up to one that must run alone, all start. */
  lemma {:induction false} DrainBatch(f: File, n: nat, truncated: bool)
    requires n <= |f.q| && Count(f.flights, true) == 0 && (n > 0 || f.flights != [])
    requires forall i :: 0 <= i < n ==> !ChangesSize(f, f.q[i]) && f.q[i].kind != Flush
    requires n < |f.q| ==> RunsAlone(f.sloppy, f.q[n])
    ensures var g := Drain(f, truncated); |g.q| == |f.q| - n && Count(g.flights, true) == 0
    decreases n
  {
    CountFacts(f.flights);
    if n > 0 {
      var g := Start(f.(q := f.q[1..]), f.q[0], truncated);
      CountFacts(g.flights);
      assert g.flights[..|g.flights| - 1] == f.flights;
      DrainBatch(g, n - 1, truncated);
    }
  }

  /** When the file was grown, everything queued before the first operation that must run
      alone is in flight at once, none of it counted as size-changing. */
  lemma GrowthReleasesBatch(f: File, truncated: bool)
    requires Safe(f) && f.flights == [] && Speculate(f).Grow?
    ensures var g, n := Processed(f, true, truncated), Batch(f.sloppy, f.q);
      && n > 0 && g.started == f.started + f.q[..n] && g.q == f.q[n..]
      && |g.flights| == n && forall i :: 0 <= i < n ==> !g.flights[i].changing
  {
    var n, g := Batch(f.sloppy, f.q), Optimized(f, true);
    CoveringFacts(f.committed, f.q, n);
    var (size, appending) := Covering(f.committed, f.q, n);
    assert g.committed >= size;
    forall i | 0 <= i < n
      ensures !ChangesSize(g, g.q[i]) && g.q[i].kind != Flush
    {
      assert g.q[i] in f.q;
    }
    DrainBatch(g, n, truncated);
    DrainKeeps(g, truncated);
    OptimizeKeepsSafe(f, true);
    DrainKeepsSafe(g, truncated);
    var h := Drain(g, truncated);
    CountFacts(h.flights);
    SameSplit(h.started, h.q, f.started, f.q, n);
  }

  /** The same sequence, cut `n` further to the right. */
  lemma SameSplit<T>(a: seq<T>, b: seq<T>, c: seq<T>, d: seq<T>, n: nat)
    requires a + b == c + d && n <= |d| && |b| == |d| - n
    ensures a == c + d[..n] && b == d[n..]
  {
    var all, k := c + d, |c| + n;
    assert a == all[..k] && b == all[k..];
  }

  // ----- closing

  /** `steps[c]` closes the file, nothing else does, and nothing is submitted afterwards. */
  ghost predicate ClosedAt(steps: seq<Step>, c: nat) {
    && c < |steps| && steps[c].event == Close
    && (forall i :: 0 <= i < |steps| && i != c ==> steps[i].event != Close)
    && (forall i :: c < i < |steps| ==> !steps[i].event.Submit?)
  }

  lemma ProcessTells(f: File, grown: bool, truncated: bool)
    ensures var g := Processed(f, grown, truncated);
      g.completions == (if g.q == [] && g.flights == [] && f.done then f.completions + 1 else f.completions)
      && (g.done <==> f.done && !(g.q == [] && g.flights == []))
  {
    DrainKeeps(Optimized(f, grown), truncated);
  }

  /** `_completed` is set once: in the first state after the close in which nothing is queued
      or in flight. */
  lemma {:induction false} CompletedOnce(run: seq<File>, steps: seq<Step>, c: nat, i: nat)
    requires IsRun(run, steps) && ClosedAt(steps, c) && i < |run|
    ensures run[i].completions == if i > c && run[i].q == [] && run[i].flights == [] then 1 else 0
    ensures run[i].done <==> i > c && !(run[i].q == [] && run[i].flights == [])
  {
    if i > 0 {
      CompletedOnce(run, steps, c, i - 1);
      EveryState(run, steps, i - 1);
      assert StepAt(run, steps, i - 1);
      var f, s := run[i - 1], steps[i - 1];
      match s.event
      case Submit(op) => ProcessTells(f.(q := f.q + [op], submitted := f.submitted + [op]), s.grown, s.truncated);
      case Return(_, _, _) =>
      case Retire(k) => ProcessTells(f.(flights := f.flights[..k] + f.flights[k + 1..]), s.grown, s.truncated);
      case Close => ProcessTells(f.(done := true), s.grown, s.truncated);
    }
  }

  // ----- progress

  function Load(flights: seq<Flight>): nat {
    if flights == [] then 0
    else Load(flights[..|flights| - 1]) + if flights[|flights| - 1].returned then 1 else 2
  }

  /** What is left to happen: three things for a queued operation, two for one in flight and
      one for one that has returned. */
  function Left(f: File): nat {
    3 * |f.q| + Load(f.flights)
  }

  lemma {:induction false} LoadConcat(a: seq<Flight>, b: seq<Flight>)
    ensures Load(a + b) == Load(a) + Load(b)
  {
    if b == [] {
      assert a + b == a;
    } else {
      LoadConcat(a, b[..|b| - 1]);
      assert (a + b)[..|a + b| - 1] == a + b[..|b| - 1];
    }
  }

  lemma LoadSplit(l: seq<Flight>, i: nat)
    requires i < |l|
    ensures Load(l) == Load(l[..i]) + Load([l[i]]) + Load(l[i + 1..])
    ensures Load([l[i]]) == if l[i].returned then 1 else 2
  {
    assert l == l[..i] + ([l[i]] + l[i + 1..]);
    LoadConcat(l[..i], [l[i]] + l[i + 1..]);
    LoadConcat([l[i]], l[i + 1..]);
    assert [l[i]][..0] == [];
  }

  lemma {:induction false} DrainLeavesLess(f: File, truncated: bool)
    ensures Left(Drain(f, truncated)) <= Left(f)
    decreases |f.q|
  {
    if f.q != [] && CanStart(f, f.q[0]) {
      var g := Start(f.(q := f.q[1..]), f.q[0], truncated);
      assert g.flights[..|g.flights| - 1] == f.flights;
      DrainLeavesLess(g, truncated);
    }
  }

  /** Every result and every continuation brings the file closer to rest. */
  lemma StepsRunOut(f: File, e: Event, grown: bool, truncated: bool)
    requires Enabled(f, e) && (e.Return? || e.Retire?)
    ensures Left(Next(f, e, grown, truncated)) < Left(f)
  {
    var i := e.i;
    LoadSplit(f.flights, i);
    if e.Return? {
      var l := f.flights[i := f.flights[i].(returned := true)];
      LoadSplit(l, i);
      assert l[..i] == f.flights[..i] && l[i + 1..] == f.flights[i + 1..];
    } else {
      var g := f.(flights := f.flights[..i] + f.flights[i + 1..]);
      LoadConcat(f.flights[..i], f.flights[i + 1..]);
      DrainLeavesLess(Optimized(g, grown), truncated);
    }
  }

  /** And until then one of them is due: no file gets stuck with work left. */
  lemma NeverStuck(run: seq<File>, steps: seq<Step>, i: nat) returns (e: Event)
    requires IsRun(run, steps) && i < |run| && Left(run[i]) > 0
    ensures (e.Return? || e.Retire?) && Enabled(run[i], e)
  {
    EveryState(run, steps, i);
    var f := run[i];
    assert f.flights != [];
    e := if f.flights[0].returned then Retire(0) else Return(0, false, 0);
  }

  // ----- the file object

  class AppendFile {
    const sloppySize: bool
    const maxSizeChangingOps: nat
    const readAlign: positive
    const writeAlign: positive
    var committedSize: nat
    var logicalSize: nat
    // the length of the file on disk
    ghost var disk: nat
    var q: seq<Op>
    var currentNonSizeChangingOps: nat
    var currentSizeChangingOps: nat
    var done: bool
    // how often `_completed` was set
    var completions: nat
    // the operations whose continuation is still to run, and the history
    ghost var flights: seq<Flight>
    ghost var submitted: seq<Op>
    ghost var started: seq<Op>

    ghost function State(): File
      reads this
    {
      File(committedSize, logicalSize, disk, q, flights, done, completions, sloppySize, maxSizeChangingOps, writeAlign,
           submitted, started)
    }

    ghost predicate CountersOk()
      reads this
    {
      currentSizeChangingOps == Count(flights, true) && currentNonSizeChangingOps == Count(flights, false)
    }

    ghost predicate Valid()
      reads this
    {
      CountersOk() && Safe(State()) && Settled(State())
    }

    /** A file of `size` bytes; a sloppy one may be grown to its size hint at once. */
    constructor (size: nat, sloppy: bool, sizeHint: nat, maxOps: nat, readDma: positive, writeDma: positive, grown: bool)
      ensures Valid() && Init(State()) && logicalSize == size
      ensures committedSize == if sloppy && grown then Max(size, AlignUp(sizeHint, writeDma)) else size
    {
      sloppySize, maxSizeChangingOps, readAlign, writeAlign := sloppy, maxOps, readDma, writeDma;
      var hint := AlignUp(sizeHint, writeDma);
      committedSize, logicalSize := if sloppy && size < hint && grown then hint else size, size;
      disk := if sloppy && size < hint && grown then hint else size;
      q, currentNonSizeChangingOps, currentSizeChangingOps, done, completions := [], 0, 0, false, 0;
      flights, submitted, started := [], [], [];
    }

    predicate MustRunAlone(candidate: Op) {
      candidate.kind == Truncate || (sloppySize && candidate.kind == Flush)
    }

    predicate SizeChanging(candidate: Op)
      reads this
    {
      (candidate.kind == Write && candidate.pos + candidate.len > committedSize) || MustRunAlone(candidate)
    }

    predicate MayDispatch(candidate: Op)
      reads this
      ensures CountersOk() ==> (MayDispatch(candidate) <==> CanStart(State(), candidate))
    {
      if SizeChanging(candidate) then
        currentSizeChangingOps == 0 && currentNonSizeChangingOps == 0
      else
        currentSizeChangingOps == 0
    }

    /** Counts a candidate in. */
    method CountIn(changing: bool, ghost l: Flight)
      requires CountersOk() && l.changing == changing
      modifies this`currentNonSizeChangingOps, this`currentSizeChangingOps, this`flights
      ensures CountersOk() && flights == old(flights) + [l]
    {
      if changing {
        currentSizeChangingOps := currentSizeChangingOps + 1;
      } else {
        currentNonSizeChangingOps := currentNonSizeChangingOps + 1;
      }
      flights := flights + [l];
      CountWith(old(flights), l);
    }

    /** Counts a candidate and starts it. */
    method Dispatch(candidate: Op, truncated: bool)
      requires CountersOk() && (candidate.kind == Flush ==> sloppySize)
      modifies this`committedSize, this`disk, this`currentNonSizeChangingOps, this`currentSizeChangingOps,
               this`flights, this`started
      ensures CountersOk() && logicalSize == old(logicalSize)
      ensures committedSize == if candidate.kind == Flush && truncated then logicalSize else old(committedSize)
      ensures State() == Start(old(State()), candidate, truncated)
    {
      ghost var f := State();
      CountIn(SizeChanging(candidate), Flight(candidate, ChangesSize(f, candidate), false));
      started := started + [candidate];
      assert State() == f.(flights := f.flights + [Flight(candidate, ChangesSize(f, candidate), false)],
                           started := f.started + [candidate]);
      if candidate.kind == Flush {
        CutToLogical(truncated);
      }
    }

    /** The file is cut down to its logical size, if the system call succeeds. */
    method CutToLogical(truncated: bool)
      modifies this`committedSize, this`disk
      ensures State() == old(State()).(committed := if truncated then logicalSize else old(committedSize),
                                       disk := if truncated && old(committedSize) != logicalSize then logicalSize else old(disk))
    {
      if logicalSize != committedSize && truncated {
        committedSize, disk := logicalSize, logicalSize;
      }
    }

    /** The size that covers the queued writes up to the first operation that must run alone,
        and how many of them append. */
    method CoverWrites() returns (speculativeSize: nat, nAppendingWrites: nat)
      ensures (speculativeSize, nAppendingWrites) == Covering(committedSize, q, Batch(sloppySize, q))
    {
      ghost var n := Batch(sloppySize, q);
      speculativeSize, nAppendingWrites := committedSize, 0;
      for i := 0 to |q|
        invariant i <= n && (speculativeSize, nAppendingWrites) == Covering(committedSize, q, i)
      {
        var op := q[i];
        if MustRunAlone(op) {
          assert i == n;
          return;
        }
        assert i < n by {
          BatchGoesOn(sloppySize, q, i);
        }
        CoverStep(committedSize, q, i);
        if op.kind == Write && op.pos + op.len > committedSize {
          speculativeSize := Max(speculativeSize, op.pos + op.len);
          nAppendingWrites := nAppendingWrites + 1;
        }
      }
    }

    /** Grows the file ahead of queued appending writes when nothing is in flight. */
    method OptimizeQueue(grown: bool)
      requires CountersOk()
      modifies this`committedSize, this`disk
      ensures CountersOk() && State() == Optimized(old(State()), grown)
    {
      CountFacts(flights);
      if currentNonSizeChangingOps != 0 || currentSizeChangingOps != 0 {
        return;
      }
      assert flights == [];
      var speculativeSize, nAppendingWrites := CoverWrites();
      if nAppendingWrites > maxSizeChangingOps || (nAppendingWrites > 0 && sloppySize) {
        if sloppySize && speculativeSize < 2 * committedSize {
          speculativeSize := AlignUp(2 * committedSize, writeAlign);
        }
        if grown {
          committedSize, disk := speculativeSize, speculativeSize;
          return;
        }
      }
    }

    /** Starts what may run, from the front of the queue. */
    method ProcessQueue(grown: bool, truncated: bool)
      requires CountersOk() && Safe(State())
      modifies this`committedSize, this`disk, this`q, this`currentNonSizeChangingOps, this`currentSizeChangingOps,
               this`flights, this`started, this`done, this`completions
      ensures Valid() && State() == Processed(old(State()), grown, truncated)
    {
      ProcessKeepsSafe(State(), grown, truncated);
      OptimizeKeepsSafe(State(), grown);
      OptimizeQueue(grown);
      ghost var from := State();
      while q != [] && MayDispatch(q[0])
        modifies this`committedSize, this`disk, this`q, this`currentNonSizeChangingOps, this`currentSizeChangingOps,
                 this`flights, this`started
        invariant CountersOk() && Safe(State()) && Drain(State(), truncated) == Drain(from, truncated)
        decreases |q|
      {
        var candidate := q[0];
        StartKeepsSafe(State(), candidate, truncated);
        assert candidate in q;
        q := q[1..];
        Dispatch(candidate, truncated);
      }
      CountFacts(flights);
      if MayQuit() {
        completions := completions + 1;
        done := false;
      }
    }

    predicate MayQuit()
      reads this
    {
      done && q == [] && currentNonSizeChangingOps == 0 && currentSizeChangingOps == 0
    }

    /** Queues an operation and starts what may run. */
    method Enqueue(op: Op, grown: bool, truncated: bool)
      requires Valid() && (op.kind == Flush ==> sloppySize)
      modifies this`committedSize, this`disk, this`q, this`currentNonSizeChangingOps, this`currentSizeChangingOps,
               this`flights, this`started, this`submitted, this`done, this`completions
      ensures Valid() && State() == Next(old(State()), Submit(op), grown, truncated)
    {
      SubmitKeepsSafe(State(), op);
      submitted := submitted + [op];
      q := q + [op];
      ProcessQueue(grown, truncated);
    }

    /** A read past the logical size gets nothing; any other is cut at the aligned size. */
    method ReadDma(pos: nat, len: nat, grown: bool, truncated: bool) returns (queued: bool, ghost op: Op)
      requires Valid()
      modifies this`committedSize, this`disk, this`q, this`currentNonSizeChangingOps, this`currentSizeChangingOps,
               this`flights, this`started, this`submitted, this`done, this`completions
      ensures Valid() && queued == (pos < old(logicalSize))
      ensures !queued ==> State() == old(State())
      ensures queued ==> op.kind == Read && op.pos == pos
      ensures queued ==> op.len == Min(pos + len, AlignUp(old(logicalSize), readAlign)) - pos
      ensures queued ==> State() == Next(old(State()), Submit(op), grown, truncated)
    {
      op := Op(Read, pos, len);
      if pos >= logicalSize {
        return false, op;
      }
      var end := AlignUp(logicalSize, readAlign);
      var n: nat := (if pos + len < end then pos + len else end) - pos;
      op := Op(Read, pos, n);
      Enqueue(Op(Read, pos, n), grown, truncated);
      queued := true;
    }

    method WriteDma(pos: nat, len: nat, grown: bool, truncated: bool)
      requires Valid()
      modifies this`committedSize, this`disk, this`q, this`currentNonSizeChangingOps, this`currentSizeChangingOps,
               this`flights, this`started, this`submitted, this`done, this`completions
      ensures Valid() && State() == Next(old(State()), Submit(Op(Write, pos, len)), grown, truncated)
    {
      Enqueue(Op(Write, pos, len), grown, truncated);
    }

    method TruncateTo(length: nat, grown: bool, truncated: bool)
      requires Valid()
      modifies this`committedSize, this`disk, this`q, this`currentNonSizeChangingOps, this`currentSizeChangingOps,
               this`flights, this`started, this`submitted, this`done, this`completions
      ensures Valid() && State() == Next(old(State()), Submit(Op(Truncate, length, 0)), grown, truncated)
    {
      Enqueue(Op(Truncate, length, 0), grown, truncated);
    }

    /** Only a sloppy file that is larger than its contents queues its flush; any other is
        flushed at once. */
    method FlushFile(grown: bool, truncated: bool) returns (queued: bool)
      requires Valid()
      modifies this`committedSize, this`disk, this`q, this`currentNonSizeChangingOps, this`currentSizeChangingOps,
               this`flights, this`started, this`submitted, this`done, this`completions
      ensures Valid() && queued == (sloppySize && old(logicalSize < committedSize))
      ensures State() == if queued then Next(old(State()), Submit(Op(Flush, 0, 0)), grown, truncated) else old(State())
    {
      if !sloppySize || logicalSize == committedSize {
        return false;
      }
      Enqueue(Op(Flush, 0, 0), grown, truncated);
      return true;
    }

    /** The result of the `i`-th operation in flight. */
    method OperationReturns(op: Op, ok: bool, bytes: nat, ghost i: nat)
      requires Valid() && i < |flights| && flights[i].op == op && Enabled(State(), Return(i, ok, bytes))
      modifies this`committedSize, this`logicalSize, this`disk, this`flights
      ensures op.kind == Write && ok ==>
        logicalSize == Max(old(logicalSize), op.pos + bytes) && committedSize == Max(old(committedSize), op.pos + bytes)
      ensures op.kind == Truncate && ok ==> logicalSize == committedSize == op.pos
      ensures !ok || (op.kind != Write && op.kind != Truncate) ==>
        logicalSize == old(logicalSize) && committedSize == old(committedSize)
      ensures Valid() && State() == Returned(old(State()), i, ok, bytes)
    {
      ReturnKeepsSafe(State(), i, ok, bytes);
      SameCounts(flights, flights[i := flights[i].(returned := true)]);
      flights := flights[i := flights[i].(returned := true)];
      TakeResult(op, ok, bytes);
    }

    /** The sizes after an operation. */
    method TakeResult(op: Op, ok: bool, bytes: nat)
      modifies this`committedSize, this`logicalSize, this`disk
      ensures State() == Resized(old(State()), op, ok, bytes)
    {
      disk := if op.kind == Write && bytes > 0 then Max(op.pos + bytes, disk) else disk;
      if op.kind == Write && ok {
        CommitSize(op.pos + bytes);
      } else if op.kind == Truncate && ok {
        committedSize, logicalSize, disk := op.pos, op.pos, op.pos;
      }
    }

    /** Both sizes cover `size`; neither falls, nor grows further than that. */
    method CommitSize(size: nat)
      modifies this`committedSize, this`logicalSize
      ensures size <= committedSize && old(committedSize) <= committedSize
      ensures size <= logicalSize && old(logicalSize) <= logicalSize
      ensures committedSize == old(committedSize) || committedSize == size
      ensures logicalSize == old(logicalSize) || logicalSize == size
    {
      committedSize := Max(size, committedSize);
      logicalSize := Max(size, logicalSize);
    }

    /** The continuation of the `i`-th operation in flight: it is counted out. */
    method OperationRetires(changing: bool, grown: bool, truncated: bool, ghost i: nat)
      requires Valid() && i < |flights| && flights[i].changing == changing && Enabled(State(), Retire(i))
      modifies this`committedSize, this`disk, this`q, this`currentNonSizeChangingOps, this`currentSizeChangingOps,
               this`flights, this`started, this`done, this`completions
      ensures Valid() && State() == Next(old(State()), Retire(i), grown, truncated)
    {
      RetireKeepsSafe(State(), i);
      CountWithout(flights, i);
      if changing {
        currentSizeChangingOps := currentSizeChangingOps - 1;
      } else {
        currentNonSizeChangingOps := currentNonSizeChangingOps - 1;
      }
      flights := flights[..i] + flights[i + 1..];
      ProcessQueue(grown, truncated);
    }

    method CloseFile(grown: bool, truncated: bool)
      requires Valid()
      modifies this`committedSize, this`disk, this`q, this`currentNonSizeChangingOps, this`currentSizeChangingOps,
               this`flights, this`started, this`done, this`completions
      ensures Valid() && State() == Next(old(State()), Close, grown, truncated)
    {
      CloseKeepsSafe(State());
      done := true;
      ProcessQueue(grown, truncated);
    }

    /** What follows `_completed`, with nothing left to do: the file on disk is cut down to its
        contents, and if the system call fails it stays as it is. */
    method FinishClose(truncated: bool)
      requires Valid() && completions > 0 && q == [] && flights == []
      modifies this`committedSize, this`disk
      ensures Valid() && State() == old(State()).(committed := committedSize, disk := disk)
      ensures committedSize == logicalSize <==> truncated || old(committedSize) == logicalSize
      ensures committedSize == logicalSize || committedSize == old(committedSize)
      ensures disk == logicalSize <==> (truncated && old(committedSize) != logicalSize) || old(disk) == logicalSize
      ensures disk == logicalSize || disk == old(disk)
      ensures old(committedSize == disk) ==> committedSize == disk
    {
      CutToLogical(truncated);
    }
  }

  lemma CoverStep(committed: nat, q: seq<Op>, i: nat)
    requires i < |q|
    ensures var r := Covering(committed, q, i);
      Covering(committed, q, i + 1) == if Appends(committed, q[i]) then (Max(r.0, q[i].pos + q[i].len), r.1 + 1) else r
  {
  }

  lemma {:induction false} BatchGoesOn(sloppy: bool, q: seq<Op>, i: nat)
    requires i < |q| && i <= Batch(sloppy, q) && !RunsAlone(sloppy, q[i])
    ensures i + 1 <= Batch(sloppy, q)
  {
  }

  lemma SubmitKeepsSafe(f: File, op: Op)
    requires Safe(f) && (op.kind == Flush ==> f.sloppy)
    ensures Safe(f.(q := f.q + [op], submitted := f.submitted + [op]))
  {
    var g := f.(q := f.q + [op], submitted := f.submitted + [op]);
    assert g.started + g.q == (f.started + f.q) + [op];
    forall i {:trigger FlightOk(g, i)} | 0 <= i < |g.flights|
      ensures FlightOk(g, i)
    {
      assert FlightOk(f, i);
    }
  }

  lemma RetireKeepsSafe(f: File, i: nat)
    requires Safe(f) && i < |f.flights|
    ensures Safe(f.(flights := f.flights[..i] + f.flights[i + 1..]))
  {
    var g := f.(flights := f.flights[..i] + f.flights[i + 1..]);
    forall j {:trigger FlightOk(g, j)} | 0 <= j < |g.flights|
      ensures FlightOk(g, j)
    {
      assert FlightOk(f, if j < i then j else j + 1);
    }
  }

  lemma CloseKeepsSafe(f: File)
    requires Safe(f)
    ensures Safe(f.(done := true))
  {
    forall i {:trigger FlightOk(f.(done := true), i)} | 0 <= i < |f.flights|
      ensures FlightOk(f.(done := true), i)
    {
      assert FlightOk(f, i);
    }
  }

  lemma CountWith(flights: seq<Flight>, l: Flight)
    ensures forall c :: Count(flights + [l], c) == Count(flights, c) + if l.changing == c then 1 else 0
  {
    assert (flights + [l])[..|flights|] == flights;
  }

  lemma {:induction false} CountWithout(l: seq<Flight>, i: nat)
    requires i < |l|
    ensures forall c :: Count(l, c) == Count(l[..i] + l[i + 1..], c) + if l[i].changing == c then 1 else 0
  {
    var n, r := |l| - 1, l[..i] + l[i + 1..];
    if i < n {
      CountWithout(l[..n], i);
      assert r[..n - 1] == l[..n][..i] + l[..n][i + 1..];
    } else {
      assert r == l[..n];
    }
  }
}
