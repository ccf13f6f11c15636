/** The ring never deadlocks, and no run is longer than a number known at its start. */
module RingProgress {
  import Orders
  import opened Records
  import opened Ring
  import opened RingFeeding

  function ChunksIn(n: nat, size: pos): nat
    decreases n
  {
    if n == 0 then 0 else 1 + ChunksIn(n - Orders.Min(size, n), size)
  }

  function FileWork(c: Config, f: File): nat {
    4 * ChunksIn(|f.orderBytes|, c.chunk) + 5
  }

  /** Steps and segments that the files from number i on still take. */
  function LaterWork(c: Config, i: nat): nat
    decreases |c.files| - i
  {
    if i >= |c.files| then 0 else FileWork(c, c.files[i]) + LaterWork(c, i + 1)
  }

  function LaterSegments(c: Config, i: nat): nat
    decreases |c.files| - i
  {
    if i >= |c.files| then 0 else ChunksIn(|c.files[i].orderBytes|, c.chunk) + 1 + LaterSegments(c, i + 1)
  }

  function ChunksLeft(c: Config, p: Producer): nat
    requires InFile(c, p)
  {
    ChunksIn(|c.files[p.file].orderBytes| - p.offset, c.chunk)
  }

  /** Steps the reader still has to make. */
  function ReaderWork(c: Config, p: Producer): nat
    requires InFile(c, p) || p.pc == Finished
  {
    match p.pc
    case AwaitHead => LaterWork(c, p.file)
    case WriteFlag => LaterWork(c, p.file) - 1
    case WriteInfo => LaterWork(c, p.file) - 2
    case ReadOrders => 4 * ChunksLeft(c, p) + 2 + LaterWork(c, p.file + 1)
    case Publish => 4 * ChunksLeft(c, p) + 5 + LaterWork(c, p.file + 1)
    case AwaitNext => 4 * ChunksLeft(c, p) + 4 + LaterWork(c, p.file + 1)
    case Reset => 4 * ChunksLeft(c, p) + 3 + LaterWork(c, p.file + 1)
    case PublishEnd => 1 + LaterWork(c, p.file + 1)
    case Finished => 0
  }

  /** Segments the reader still has to publish. */
  function SegmentsLeft(c: Config, p: Producer): nat
    requires InFile(c, p) || p.pc == Finished
  {
    match p.pc
    case AwaitHead => LaterSegments(c, p.file)
    case WriteFlag => LaterSegments(c, p.file)
    case WriteInfo => LaterSegments(c, p.file)
    case ReadOrders => ChunksLeft(c, p) + 1 + LaterSegments(c, p.file + 1)
    case Publish => ChunksLeft(c, p) + 2 + LaterSegments(c, p.file + 1)
    case AwaitNext => ChunksLeft(c, p) + 1 + LaterSegments(c, p.file + 1)
    case Reset => ChunksLeft(c, p) + 1 + LaterSegments(c, p.file + 1)
    case PublishEnd => 1 + LaterSegments(c, p.file + 1)
    case Finished => 0
  }

  function Passed(pc: WorkerPc): nat {
    match pc
    case Await => 0 case CheckHead => 1 case Create => 2 case Feed => 3
    case CheckEnd => 4 case CompleteDay => 5 case Mark => 6
  }

  /** A bound on the steps worker k still has to make when `total` segments will be published. */
  function WorkerWork(total: nat, k: Worker): int {
    7 * (total - k.consumed) - Passed(k.pc)
  }

  function WorkersWork(total: nat, ks: seq<Worker>): int {
    if ks == [] then 0 else WorkersWork(total, ks[..|ks| - 1]) + WorkerWork(total, ks[|ks| - 1])
  }

  function Measure(c: Config, st: State): int
    requires InFile(c, st.producer) || st.producer.pc == Finished
  {
    ReaderWork(c, st.producer) + WorkersWork(|st.history| + SegmentsLeft(c, st.producer), st.workers)
  }

  lemma {:induction false} WorkersWorkUpdate(total: nat, ks: seq<Worker>, w: nat, k: Worker)
    requires w < |ks|
    ensures WorkersWork(total, ks[w := k]) == WorkersWork(total, ks) - WorkerWork(total, ks[w]) + WorkerWork(total, k)
  {
    var n := |ks| - 1;
    if w < n {
      assert ks[w := k][..n] == ks[..n][w := k];
      WorkersWorkUpdate(total, ks[..n], w, k);
    } else {
      assert ks[w := k][..n] == ks[..n];
    }
  }

  lemma {:induction false} WorkersWorkNonNegative(total: nat, ks: seq<Worker>)
    requires forall w :: 0 <= w < |ks| ==> ks[w].consumed <= total && (Reading(ks[w]) ==> ks[w].consumed < total)
    ensures WorkersWork(total, ks) >= 0
  {
    if ks != [] {
      WorkersWorkNonNegative(total, ks[..|ks| - 1]);
    }
  }

  lemma ChunksStep(file: seq<byte>, offset: nat, size: pos)
    requires offset <= |file|
    ensures var bytes := Chunk(file, offset, size);
      && offset + |bytes| <= |file|
      && (bytes != [] ==> ChunksIn(|file| - offset, size) == 1 + ChunksIn(|file| - (offset + |bytes|), size))
      && (bytes == [] ==> ChunksIn(|file| - offset, size) == 0)
  {
  }

  /** A step of the reader is one step less for it and the same number of segments overall. */
  lemma ReaderStepCounts(c: Config, st: State)
    requires Shape(c, st) && OnTrack(c, st) && ProducerEnabled(c, st)
    ensures var st' := ProducerNext(c, st);
      && (InFile(c, st'.producer) || st'.producer.pc == Finished)
      && ReaderWork(c, st'.producer) == ReaderWork(c, st.producer) - 1
      && |st'.history| + SegmentsLeft(c, st'.producer) == |st.history| + SegmentsLeft(c, st.producer)
      && st'.workers == st.workers
  {
    hide Split, Chunk, ChunksIn;
    var p := st.producer;
    assert p.file < |c.files| ==> LaterWork(c, p.file) == FileWork(c, c.files[p.file]) + LaterWork(c, p.file + 1);
    ChunksStep(c.files[p.file].orderBytes, p.offset, c.chunk);
  }

  lemma WorkerStepCounts(c: Config, st: State, w: nat)
    requires OnTrack(c, st) && WorkerEnabled(st, w)
    ensures var st' := WorkerNext(c, st, w);
      st'.producer == st.producer && Measure(c, st') < Measure(c, st)
  {
    hide ReaderWork, SegmentsLeft, WorkersWork, Filled;
    WorkersWorkUpdate(|st.history| + SegmentsLeft(c, st.producer), st.workers, w, WorkerNext(c, st, w).workers[w]);
  }

  lemma StepCounts(c: Config, st: State, step: Step)
    requires Safe(c, st) && OnTrack(c, st) && Enabled(c, st, step) && OnTrack(c, Next(c, st, step))
    ensures Measure(c, Next(c, st, step)) < Measure(c, st)
  {
    hide ReaderWork, SegmentsLeft, WorkersWork, ProducerNext, WorkerNext, Masks, Intact, Filled;
    match step
    case ProducerStep => ReaderStepCounts(c, st);
    case WorkerStep(w) => WorkerStepCounts(c, st, w);
  }

  lemma MeasureNonNegative(c: Config, st: State)
    requires Safe(c, st) && OnTrack(c, st)
    ensures Measure(c, st) >= 0
  {
    forall w | 0 <= w < |st.workers|
      ensures st.workers[w].consumed <= |st.history|
      ensures Reading(st.workers[w]) ==> st.workers[w].consumed < |st.history|
    {
      assert Progress(c, st, w);
    }
    WorkersWorkNonNegative(|st.history| + SegmentsLeft(c, st.producer), st.workers);
  }

  /** No run is longer than the measure of its first state. */
  lemma {:induction false} RunsAreBounded(c: Config, st: State, steps: seq<Step>)
    requires c.chunk % c.record == 0 && Feeding(c, st) && Legal(c, st, steps)
    ensures |steps| <= Measure(c, st)
    decreases |steps|
  {
    MeasureNonNegative(c, st);
    if steps != [] {
      hide Safe, AllFollow, OnTrack, Accounted, Enabled, Next, Measure;
      StepFeeds(c, st, steps[0]);
      OnTrackBounds(c, st);
      OnTrackBounds(c, Next(c, st, steps[0]));
      StepCounts(c, st, steps[0]);
      RunsAreBounded(c, Next(c, st, steps[0]), steps[1..]);
    }
  }

  lemma OnTrackBounds(c: Config, st: State)
    requires OnTrack(c, st)
    ensures InFile(c, st.producer) || st.producer.pc == Finished
  {
  }

  /** The reader waits only for a worker that has a segment to consume. */
  lemma HeldUpBy(c: Config, st: State) returns (w: nat)
    requires Safe(c, st) && st.slots[st.producer.index].finished != All(c)
    ensures w < c.workers && st.workers[w].consumed < |st.history|
  {
    var i := st.producer.index;
    w :| w in All(c) && w !in st.slots[i].finished;
    LatestBound(|st.history|, i, c.Size());
    assert st.workers[w].consumed <= Latest(|st.history|, i, c.Size());
  }

  /** As long as anything is left to do, somebody can do something. */
  lemma SomebodyCanStep(c: Config, st: State) returns (step: Step)
    requires Safe(c, st) && OnTrack(c, st) && !Done(st)
    ensures Enabled(c, st, step)
  {
    hide Masks, Intact, Filled;
    var p := st.producer;
    step := ProducerStep;
    if p.pc == Finished {
      var w: nat :| w < |st.workers| && (st.workers[w].pc != Await || st.workers[w].consumed != |st.history|);
      assert Progress(c, st, w);
      BehindCanStep(c, st, w);
      step := WorkerStep(w);
    } else if p.pc in {AwaitHead, AwaitNext} && st.slots[p.index].finished != All(c) {
      var w := HeldUpBy(c, st);
      BehindCanStep(c, st, w);
      step := WorkerStep(w);
    }
  }

  lemma BehindCanStep(c: Config, st: State, w: nat)
    requires Safe(c, st) && w < c.workers
    requires Reading(st.workers[w]) || st.workers[w].consumed < |st.history|
    ensures WorkerEnabled(st, w)
  {
    assert Progress(c, st, w);
    var k := st.workers[w];
    LatestOf(|st.history|, k.consumed, c.Size());
  }

  /** Every run can be continued until all published segments are consumed by all workers, and
      none goes on forever: a run is complete exactly when no step is possible any more, and
      all runs end within the same bound. */
  lemma RingProgress(c: Config, steps: seq<Step>)
    requires c.chunk % c.record == 0 && Legal(c, Start(c), steps)
    ensures var st := Exec(c, Start(c), steps);
      Done(st) <==> forall step :: !Enabled(c, st, step)
    ensures |steps| <= LaterWork(c, 0) + AllWork(c.workers, LaterSegments(c, 0))
  {
    StartFeeds(c);
    RunFeeds(c, Start(c), steps);
    var st := Exec(c, Start(c), steps);
    if !Done(st) {
      var step := SomebodyCanStep(c, st);
    } else {
      forall step ensures !Enabled(c, st, step) {
        DoneIsStuck(c, st, step);
      }
    }
    RunsAreBounded(c, Start(c), steps);
    StartMeasure(c);
  }

  lemma DoneIsStuck(c: Config, st: State, step: Step)
    requires Safe(c, st) && Done(st)
    ensures !Enabled(c, st, step)
  {
    if step.WorkerStep? && step.w < |st.workers| {
      assert Progress(c, st, step.w);
      LatestBound(|st.history|, st.workers[step.w].index, c.Size());
    }
  }

  /** Seven steps per worker and segment. */
  function AllWork(workers: nat, segments: nat): nat {
    7 * workers * segments
  }

  lemma {:induction false} IdleWorkers(total: nat, ks: seq<Worker>)
    requires forall w :: 0 <= w < |ks| ==> ks[w].consumed == 0 && ks[w].pc == Await
    ensures WorkersWork(total, ks) == AllWork(|ks|, total)
  {
    if ks != [] {
      IdleWorkers(total, ks[..|ks| - 1]);
      assert AllWork(|ks|, total) == AllWork(|ks| - 1, total) + 7 * total;
    }
  }

  lemma StartMeasure(c: Config)
    ensures Measure(c, Start(c)) == LaterWork(c, 0) + AllWork(c.workers, LaterSegments(c, 0))
  {
    hide AllWork, WorkersWork, LaterWork, LaterSegments, FirstNumbers;
    var st := Start(c);
    NothingLater(c);
    IdleWorkers(|st.history| + SegmentsLeft(c, st.producer), st.workers);
    assert |st.workers| == c.workers;
  }

  lemma NothingLater(c: Config)
    ensures c.files == [] ==> LaterWork(c, 0) == 0 && LaterSegments(c, 0) == 0
  {
  }
}
