/** The ring of buffers between the reader thread and the matching threads, as interleaved
    steps of which each makes at most one access to a shared buffer's finish mask. */
module Ring {
  import opened Modular
  import opened Records

  datatype Flag = FileHead | FileEnd | InProcess

  /** What a buffer holds besides its finish mask. */
  datatype Segment = Segment(flag: Flag, path: string, prev: seq<Record>, alphas: seq<Record>, orders: seq<Record>)

  /** The workers that are through with the buffer, and its contents. */
  datatype Slot = Slot(finished: set<nat>, content: Segment)

  datatype File = File(path: string, prev: seq<Record>, alphas: seq<Record>, orderBytes: seq<byte>)

  datatype ProducerPc =
    | AwaitHead | WriteFlag | WriteInfo   // the first buffer of a file
    | ReadOrders | Publish                // one chunk of order logs
    | AwaitNext | Reset                   // the next buffer of the same file
    | PublishEnd | Finished

  datatype Producer = Producer(pc: ProducerPc, index: nat, file: nat, offset: nat)

  datatype WorkerPc = Await | CheckHead | Create | Feed | CheckEnd | CompleteDay | Mark

  /** What a worker has done to its engine. */
  datatype Action =
    | Created(path: string, prev: seq<Record>, alphas: seq<Record>)
    | Fed(order: Record)
    | Completed

  /** `consumed` and the ring's `history` only record the past; no step depends on them. */
  datatype Worker = Worker(pc: WorkerPc, index: nat, log: seq<Action>, consumed: nat)

  datatype Config = Config(files: seq<File>, workers: nat, bits: nat, chunk: pos, record: pos) {
    function Size(): nat {
      Pow2(bits)
    }
  }

  datatype State = State(slots: seq<Slot>, producer: Producer, workers: seq<Worker>, history: seq<Segment>)

  datatype Step = ProducerStep | WorkerStep(w: nat)

  function FirstNumbers(n: nat): (s: set<nat>)
    ensures forall w: nat :: w in s <==> w < n
  {
    if n == 0 then {} else FirstNumbers(n - 1) + {n - 1}
  }

  function All(c: Config): set<nat> {
    FirstNumbers(c.workers)
  }

  /** The ring's successor of an index, by masking. */
  function Incr(c: Config, i: nat): nat {
    BitAnd(i + 1, c.Size() - 1)
  }

  function Start(c: Config): State {
    State(seq(c.Size(), _ => Slot(All(c), Segment(InProcess, "", [], [], []))),
          Producer(if c.files == [] then Finished else AwaitHead, 0, 0, 0),
          seq(c.workers, _ => Worker(Await, 0, [], 0)),
          [])
  }

  // --------------------------------------------------------------- the reader

  predicate ProducerEnabled(c: Config, st: State) {
    && st.producer.index < |st.slots| && st.producer.pc != Finished
    && (st.producer.pc in {AwaitHead, AwaitNext} ==> st.slots[st.producer.index].finished == All(c))
    && st.producer.file < |c.files| && st.producer.offset <= |c.files[st.producer.file].orderBytes|
  }

  function Write(st: State, content: Segment, pc: ProducerPc): State
    requires st.producer.index < |st.slots|
  {
    var i := st.producer.index;
    st.(slots := st.slots[i := st.slots[i].(content := content)], producer := st.producer.(pc := pc))
  }

  /** The mask is cleared: the buffer belongs to the workers. */
  function Release(c: Config, st: State, producer: Producer): State
    requires st.producer.index < |st.slots|
  {
    var i := st.producer.index;
    State(st.slots[i := st.slots[i].(finished := {})], producer.(index := Incr(c, i)),
          st.workers, st.history + [st.slots[i].content])
  }

  function ProducerNext(c: Config, st: State): State
    requires ProducerEnabled(c, st)
  {
    var p, f, b := st.producer, c.files[st.producer.file], st.slots[st.producer.index].content;
    match p.pc
    case AwaitHead => st.(producer := p.(pc := WriteFlag))
    case WriteFlag => Write(st, b.(flag := FileHead, path := f.path), WriteInfo)
    case WriteInfo =>
      Write(st.(producer := p.(offset := 0)), b.(prev := f.prev, alphas := f.alphas), ReadOrders)
    case ReadOrders =>
      var bytes := Chunk(f.orderBytes, p.offset, c.chunk);
      if bytes != [] then
        Write(st.(producer := p.(offset := p.offset + |bytes|)), b.(orders := Split(bytes, c.record)), Publish)
      else Write(st, b.(flag := FileEnd), PublishEnd)
    case Publish => Release(c, st, p.(pc := AwaitNext))
    case AwaitNext => st.(producer := p.(pc := Reset))
    case Reset => Write(st, b.(flag := InProcess, orders := []), ReadOrders)
    case PublishEnd =>
      Release(c, st, p.(pc := if p.file + 1 < |c.files| then AwaitHead else Finished, file := p.file + 1, offset := 0))
    case Finished => st
  }

  // -------------------------------------------------------------- the workers

  predicate WorkerEnabled(st: State, w: nat) {
    && w < |st.workers| && st.workers[w].index < |st.slots|
    && (st.workers[w].pc == Await ==> w !in st.slots[st.workers[w].index].finished)
  }

  function FeedAll(orders: seq<Record>): seq<Action> {
    seq(|orders|, i requires 0 <= i < |orders| => Fed(orders[i]))
  }

  function WorkerNext(c: Config, st: State, w: nat): State
    requires WorkerEnabled(st, w)
  {
    var k, b := st.workers[w], st.slots[st.workers[w].index].content;
    match k.pc
    case Await => st.(workers := st.workers[w := k.(pc := CheckHead)])
    case CheckHead => st.(workers := st.workers[w := k.(pc := if b.flag == FileHead then Create else Feed)])
    case Create => st.(workers := st.workers[w := k.(pc := Feed, log := k.log + [Created(b.path, b.prev, b.alphas)])])
    case Feed => st.(workers := st.workers[w := k.(pc := CheckEnd, log := k.log + FeedAll(b.orders))])
    case CheckEnd => st.(workers := st.workers[w := k.(pc := if b.flag == FileEnd then CompleteDay else Mark)])
    case CompleteDay => st.(workers := st.workers[w := k.(pc := Mark, log := k.log + [Completed])])
    case Mark =>
      var s := st.slots[k.index];
      st.(slots := st.slots[k.index := s.(finished := s.finished + {w})],
          workers := st.workers[w := k.(pc := Await, index := Incr(c, k.index), consumed := k.consumed + 1)])
  }

  // --------------------------------------------------------------------- runs

  predicate Enabled(c: Config, st: State, step: Step) {
    match step
    case ProducerStep => ProducerEnabled(c, st)
    case WorkerStep(w) => WorkerEnabled(st, w)
  }

  function Next(c: Config, st: State, step: Step): State
    requires Enabled(c, st, step)
  {
    match step
    case ProducerStep => ProducerNext(c, st)
    case WorkerStep(w) => WorkerNext(c, st, w)
  }

  /** A legal interleaving. */
  predicate Legal(c: Config, st: State, steps: seq<Step>)
    decreases |steps|
  {
    steps == [] || (Enabled(c, st, steps[0]) && Legal(c, Next(c, st, steps[0]), steps[1..]))
  }

  function Exec(c: Config, st: State, steps: seq<Step>): State
    requires Legal(c, st, steps)
    decreases |steps|
  {
    if steps == [] then st else Exec(c, Next(c, st, steps[0]), steps[1..])
  }

  // ---------------------------------------------------------------- invariant

  /** The last of the first p segments that went into slot s, or -1. */
  function Latest(p: nat, s: nat, n: nat): int
    requires n > 0
  {
    if p == 0 then -1 else if (p - 1) % n == s then p - 1 else Latest(p - 1, s, n)
  }

  lemma {:induction false} LatestOf(p: nat, g: nat, n: nat)
    requires n > 0 && g < p <= g + n
    ensures Latest(p, g % n, n) == g
    decreases p
  {
    if g < p - 1 {
      ModDiffers(g, p - 1, n);
      LatestOf(p - 1, g, n);
    }
  }

  lemma {:induction false} LatestBound(p: nat, s: nat, n: nat)
    requires n > 0
    ensures -1 <= Latest(p, s, n) < p
    ensures Latest(p, s, n) >= 0 ==> Latest(p, s, n) % n == s
  {
    if p > 0 && (p - 1) % n != s {
      LatestBound(p - 1, s, n);
    }
  }

  predicate Writing(p: Producer) {
    p.pc !in {AwaitHead, AwaitNext, Finished}
  }

  predicate Reading(k: Worker) {
    k.pc != Await
  }

  ghost predicate Shape(c: Config, st: State) {
    && |st.slots| == c.Size() && |st.workers| == c.workers
    && st.producer.index == |st.history| % c.Size()
    && (forall s :: 0 <= s < c.Size() ==> st.slots[s].finished <= All(c))
  }

  /** Bit w of a slot is clear exactly if worker w has not consumed its latest segment. */
  ghost predicate Masks(c: Config, st: State)
    requires Shape(c, st)
  {
    forall s, w :: 0 <= s < c.Size() && 0 <= w < c.workers ==>
      (w in st.slots[s].finished <==> st.workers[w].consumed > Latest(|st.history|, s, c.Size()))
  }

  /** No worker is ahead of the reader or a whole ring behind it. */
  ghost predicate Progress(c: Config, st: State, w: nat)
    requires w < |st.workers|
  {
    var k, p := st.workers[w], |st.history|;
    && k.consumed <= p <= k.consumed + c.Size() && k.index == k.consumed % c.Size()
    && (Reading(k) ==> k.consumed < p)
    && (Writing(st.producer) ==> p < k.consumed + c.Size())
  }

  /** The published segments that a worker may still read are intact. */
  ghost predicate Intact(c: Config, st: State)
    requires Shape(c, st)
  {
    var p := |st.history|;
    forall g :: 0 <= g < p <= g + c.Size() && (p < g + c.Size() || !Writing(st.producer)) ==>
      st.slots[g % c.Size()].content == st.history[g]
  }

  ghost predicate Safe(c: Config, st: State) {
    && Shape(c, st) && Masks(c, st) && Intact(c, st)
    && (forall w :: 0 <= w < c.workers ==> Progress(c, st, w))
  }

  lemma IncrIsMod(c: Config, a: nat)
    ensures Incr(c, a % c.Size()) == (a + 1) % c.Size()
  {
    MaskIsMod(a % c.Size() + 1, c.bits);
    ModNext(a, c.Size());
  }

  lemma StartIsSafe(c: Config)
    ensures Safe(c, Start(c))
  {
    ModUnique(0, c.Size(), 0, 0);
  }

  /** An empty mask position: the reader may only write when everyone is through. */
  lemma AllThrough(c: Config, st: State)
    requires Safe(c, st) && st.slots[st.producer.index].finished == All(c)
    ensures forall w :: 0 <= w < c.workers ==> |st.history| < st.workers[w].consumed + c.Size()
  {
    var p, n := |st.history|, c.Size();
    if p >= n {
      ModShift(p - n, n);
      LatestOf(p, p - n, n);
    }
    forall w: nat | w < c.workers ensures p < st.workers[w].consumed + n {
      assert w in All(c);
      assert Progress(c, st, w);
    }
  }

  lemma WriteIsSafe(c: Config, st: State, content: Segment, pc: ProducerPc)
    requires Safe(c, st) && Writing(st.producer) && pc in {WriteInfo, ReadOrders, Publish, PublishEnd}
    ensures Safe(c, Write(st, content, pc))
  {
    var st', p, n := Write(st, content, pc), |st.history|, c.Size();
    assert Shape(c, st') && Masks(c, st');
    forall g: nat | g < p < g + n ensures st'.slots[g % n].content == st.history[g] {
      ModDiffers(g, p, n);
    }
    forall w | 0 <= w < c.workers ensures Progress(c, st', w) {
      assert Progress(c, st, w);
    }
  }

  lemma ReleaseIsSafe(c: Config, st: State, producer: Producer)
    requires Safe(c, st) && Writing(st.producer) && !Writing(producer)
    ensures Safe(c, Release(c, st, producer))
  {
    var st', p, n := Release(c, st, producer), |st.history|, c.Size();
    IncrIsMod(c, p);
    forall w | 0 <= w < c.workers ensures Progress(c, st', w) {
      assert Progress(c, st, w);
    }
    assert Shape(c, st');
    assert Masks(c, st') by {
      hide Intact;
      forall s: nat, w: nat | s < n && w < c.workers
        ensures w in st'.slots[s].finished <==> st'.workers[w].consumed > Latest(p + 1, s, n)
      {
        assert Progress(c, st, w);
        assert w in st.slots[s].finished <==> st.workers[w].consumed > Latest(p, s, n);
      }
    }
    assert Intact(c, st') by {
      hide Masks, Progress;
      forall g: nat | g < p + 1 <= g + n ensures st'.slots[g % n].content == st'.history[g] {
        if g < p {
          ModDiffers(g, p, n);
          assert st.slots[g % n].content == st.history[g];
        }
      }
    }
  }

  lemma ProducerIsSafe(c: Config, st: State)
    requires Safe(c, st) && ProducerEnabled(c, st)
    ensures Safe(c, ProducerNext(c, st))
  {
    hide Masks, Intact, Progress, Chunk, Split;
    var p, f, b := st.producer, c.files[st.producer.file], st.slots[st.producer.index].content;
    match p.pc
    case AwaitHead => AllThrough(c, st); SetPcIsSafe(c, st, WriteFlag);
    case AwaitNext => AllThrough(c, st); SetPcIsSafe(c, st, Reset);
    case WriteFlag => WriteIsSafe(c, st, b.(flag := FileHead, path := f.path), WriteInfo);
    case WriteInfo =>
      SetOffsetIsSafe(c, st, 0);
      WriteIsSafe(c, st.(producer := p.(offset := 0)), b.(prev := f.prev, alphas := f.alphas), ReadOrders);
    case ReadOrders =>
      var bytes := Chunk(f.orderBytes, p.offset, c.chunk);
      SetOffsetIsSafe(c, st, p.offset + |bytes|);
      WriteIsSafe(c, st.(producer := p.(offset := p.offset + |bytes|)), b.(orders := Split(bytes, c.record)), Publish);
      WriteIsSafe(c, st, b.(flag := FileEnd), PublishEnd);
    case Publish => ReleaseIsSafe(c, st, p.(pc := AwaitNext));
    case Reset => WriteIsSafe(c, st, b.(flag := InProcess, orders := []), ReadOrders);
    case PublishEnd =>
      var pc := if p.file + 1 < |c.files| then AwaitHead else Finished;
      ReleaseIsSafe(c, st, p.(pc := pc, file := p.file + 1, offset := 0));
  }

  lemma SetPcIsSafe(c: Config, st: State, pc: ProducerPc)
    requires Safe(c, st) && !Writing(st.producer)
    requires forall w :: 0 <= w < c.workers ==> |st.history| < st.workers[w].consumed + c.Size()
    ensures Safe(c, st.(producer := st.producer.(pc := pc)))
  {
    var st' := st.(producer := st.producer.(pc := pc));
    forall w | 0 <= w < c.workers ensures Progress(c, st', w) {
      assert Progress(c, st, w);
    }
  }

  lemma SetOffsetIsSafe(c: Config, st: State, offset: nat)
    requires Safe(c, st)
    ensures Safe(c, st.(producer := st.producer.(offset := offset)))
  {
    var st' := st.(producer := st.producer.(offset := offset));
    forall w | 0 <= w < c.workers ensures Progress(c, st', w) {
      assert Progress(c, st, w);
    }
  }

  // ---------------------------------------------------------- the workers' steps

  /** A worker that found its bit clear is looking at the segment it has to consume next. */
  lemma ClearBit(c: Config, st: State, w: nat)
    requires Safe(c, st) && w < c.workers && WorkerEnabled(st, w) && st.workers[w].pc == Await
    ensures st.workers[w].consumed < |st.history|
  {
    assert Progress(c, st, w);
    LatestBound(|st.history|, st.workers[w].index, c.Size());
  }

  /** Changes of a worker's program counter and log only. */
  lemma LocalIsSafe(c: Config, st: State, w: nat, k: Worker)
    requires Safe(c, st) && w < c.workers && st.workers[w].consumed < |st.history|
    requires k == st.workers[w].(pc := k.pc, log := k.log)
    ensures Safe(c, st.(workers := st.workers[w := k]))
  {
    var st' := st.(workers := st.workers[w := k]);
    forall v | 0 <= v < c.workers ensures Progress(c, st', v) {
      assert Progress(c, st, v);
    }
  }

  lemma MarkIsSafe(c: Config, st: State, w: nat)
    requires Safe(c, st) && w < c.workers && WorkerEnabled(st, w) && st.workers[w].pc == Mark
    ensures Safe(c, WorkerNext(c, st, w))
  {
    var st', k, p, n := WorkerNext(c, st, w), st.workers[w], |st.history|, c.Size();
    assert Progress(c, st, w);
    IncrIsMod(c, k.consumed);
    LatestOf(p, k.consumed, n);
    assert w in All(c);
    assert Masks(c, st') by {
      hide Intact;
      forall s: nat, v: nat | s < n && v < c.workers
        ensures v in st'.slots[s].finished <==> st'.workers[v].consumed > Latest(p, s, n)
      {
        assert v in st.slots[s].finished <==> st.workers[v].consumed > Latest(p, s, n);
        LatestBound(p, s, n);
      }
    }
    forall v | 0 <= v < c.workers ensures Progress(c, st', v) {
      assert Progress(c, st, v);
    }
    assert forall s :: 0 <= s < n ==> st'.slots[s].content == st.slots[s].content;
    forall g: nat | g < p <= g + n && (p < g + n || !Writing(st.producer))
      ensures st'.slots[g % n].content == st.history[g]
    {
      assert st.slots[g % n].content == st.history[g];
    }
  }

  lemma WorkerIsSafe(c: Config, st: State, w: nat)
    requires Safe(c, st) && WorkerEnabled(st, w)
    ensures Safe(c, WorkerNext(c, st, w))
  {
    var k := st.workers[w];
    assert Progress(c, st, w);
    if k.pc == Mark {
      MarkIsSafe(c, st, w);
    } else {
      if k.pc == Await {
        ClearBit(c, st, w);
      }
      LocalIsSafe(c, st, w, WorkerNext(c, st, w).workers[w]);
    }
  }

  lemma StepIsSafe(c: Config, st: State, step: Step)
    requires Safe(c, st) && Enabled(c, st, step)
    ensures Safe(c, Next(c, st, step))
  {
    hide Safe, ProducerNext, WorkerNext;
    match step
    case ProducerStep => ProducerIsSafe(c, st);
    case WorkerStep(w) => WorkerIsSafe(c, st, w);
  }

  lemma {:induction false} RunIsSafe(c: Config, st: State, steps: seq<Step>)
    requires Safe(c, st) && Legal(c, st, steps)
    ensures Safe(c, Exec(c, st, steps))
    decreases |steps|
  {
    if steps != [] {
      hide Safe, Next, Enabled;
      StepIsSafe(c, st, steps[0]);
      RunIsSafe(c, Next(c, st, steps[0]), steps[1..]);
    }
  }

  /** In every reachable state of every interleaving, for any number of workers and any
      power-of-two ring: the mask bits say who has consumed what, no worker is ahead of the
      reader or more than a ring behind it, the reader never writes into the buffer a worker
      is reading, and that buffer holds the segment that is the worker's next one. */
  lemma RingSafety(c: Config, steps: seq<Step>)
    requires Legal(c, Start(c), steps)
    ensures var st := Exec(c, Start(c), steps);
      && |st.slots| == c.Size() && |st.workers| == c.workers
      && (forall s, w :: 0 <= s < |st.slots| && 0 <= w < |st.workers| ==>
            (w !in st.slots[s].finished <==>
             st.workers[w].consumed <= Latest(|st.history|, s, c.Size())))
      && (forall w :: 0 <= w < |st.workers| ==>
            var k := st.workers[w];
            && k.consumed <= |st.history| <= k.consumed + c.Size()
            && (Reading(k) ==>
                  && k.index < |st.slots| && k.consumed < |st.history|
                  && st.slots[k.index].content == st.history[k.consumed]
                  && (Writing(st.producer) ==> st.producer.index != k.index)))
  {
    StartIsSafe(c);
    RunIsSafe(c, Start(c), steps);
    var st := Exec(c, Start(c), steps);
    forall w | 0 <= w < |st.workers|
      ensures var k := st.workers[w];
        && k.consumed <= |st.history| <= k.consumed + c.Size()
        && (Reading(k) ==>
              && k.index < |st.slots| && k.consumed < |st.history|
              && st.slots[k.index].content == st.history[k.consumed]
              && (Writing(st.producer) ==> st.producer.index != k.index))
    {
      ReadsNextSegment(c, st, w);
    }
  }

  lemma ReadsNextSegment(c: Config, st: State, w: nat)
    requires Safe(c, st) && w < c.workers
    ensures var k := st.workers[w];
      && k.consumed <= |st.history| <= k.consumed + c.Size()
      && (Reading(k) ==>
            && k.index < |st.slots| && k.consumed < |st.history|
            && st.slots[k.index].content == st.history[k.consumed]
            && (Writing(st.producer) ==> st.producer.index != k.index))
  {
    assert Progress(c, st, w);
    var k := st.workers[w];
    if Reading(k) && Writing(st.producer) {
      ModDiffers(k.consumed, |st.history|, c.Size());
    }
  }
}
