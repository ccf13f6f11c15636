/** What flows through the ring: every worker does to its engine exactly what the files say,
    and every run comes to an end with all of it done. */
module RingFeeding {
  import opened Records
  import opened Ring

  /** Five workers, eight buffers, 36-byte records read 360 MiB at a time. */
  function SourceConfig(files: seq<File>): (c: Config)
    ensures c.Size() == 8 && c.chunk % c.record == 0
  {
    Config(files, 5, 3, 1024 * 1024 * 360, 36)
  }

  // ------------------------------------------------------- what a worker does

  function Begin(s: Segment): seq<Action> {
    if s.flag == FileHead then [Created(s.path, s.prev, s.alphas)] else []
  }

  function End(s: Segment): seq<Action> {
    if s.flag == FileEnd then [Completed] else []
  }

  function Actions(s: Segment): seq<Action> {
    Begin(s) + FeedAll(s.orders) + End(s)
  }

  function Script(history: seq<Segment>): seq<Action> {
    if history == [] then []
    else Script(history[..|history| - 1]) + Actions(history[|history| - 1])
  }

  /** The part of its current segment that a worker is through with. */
  function Partial(pc: WorkerPc, s: Segment): seq<Action> {
    match pc
    case Await => []
    case CheckHead => []
    case Create => []
    case Feed => Begin(s)
    case CheckEnd => Begin(s) + FeedAll(s.orders)
    case CompleteDay => Begin(s) + FeedAll(s.orders)
    case Mark => Actions(s)
  }

  /** A worker's log is the script of the segments it has consumed and its part of the next. */
  ghost predicate Follows(c: Config, st: State, w: nat)
    requires w < |st.workers|
  {
    var k := st.workers[w];
    && k.consumed <= |st.history|
    && if Reading(k) then
         && k.consumed < |st.history|
         && k.log == Script(st.history[..k.consumed]) + Partial(k.pc, st.history[k.consumed])
         && (k.pc == Create ==> st.history[k.consumed].flag == FileHead)
         && (k.pc == CompleteDay ==> st.history[k.consumed].flag == FileEnd)
       else k.log == Script(st.history[..k.consumed])
  }

  ghost predicate AllFollow(c: Config, st: State) {
    |st.workers| == c.workers && forall w :: 0 <= w < |st.workers| ==> Follows(c, st, w)
  }

  lemma WorkerFollows(c: Config, st: State, w: nat)
    requires Safe(c, st) && AllFollow(c, st) && WorkerEnabled(st, w)
    ensures AllFollow(c, WorkerNext(c, st, w))
  {
    var st' := WorkerNext(c, st, w);
    var k := st.workers[w];
    assert Follows(c, st, w);
    ReadsNextSegment(c, st, w);
    if k.pc == Await {
      ClearBit(c, st, w);
    }
    if Reading(k) {
      var h := st.history[..k.consumed + 1];
      assert h[..k.consumed] == st.history[..k.consumed] && h[k.consumed] == st.history[k.consumed];
    }
    assert Follows(c, st', w) by { OwnStepFollows(c, st, w); }
    forall v | 0 <= v < |st'.workers| ensures Follows(c, st', v) {
      assert Follows(c, st, v);
    }
  }

  lemma OwnStepFollows(c: Config, st: State, w: nat)
    requires WorkerEnabled(st, w) && Follows(c, st, w)
    requires var k := st.workers[w];
      && k.consumed < |st.history|
      && (k.pc != Await ==> st.slots[k.index].content == st.history[k.consumed])
    ensures Follows(c, WorkerNext(c, st, w), w)
  {
    hide FeedAll, Script;
    var k := st.workers[w];
    var s, before := st.history[k.consumed], Script(st.history[..k.consumed]);
    var orders := FeedAll(s.orders);
    assert before + [] == before;
    Assoc(before, Begin(s), orders);
    Assoc(before, Begin(s) + orders, End(s));
    assert Begin(s) + orders + [] == Begin(s) + orders;
    ScriptNext(st.history, k.consumed);
  }

  lemma ScriptNext(history: seq<Segment>, k: nat)
    requires k < |history|
    ensures Script(history[..k + 1]) == Script(history[..k]) + Actions(history[k])
  {
    assert history[..k + 1][..k] == history[..k];
  }

  lemma HistoryGrowsFollows(c: Config, st: State, st': State)
    requires AllFollow(c, st) && st'.workers == st.workers && st.history <= st'.history
    ensures AllFollow(c, st')
  {
    forall w | 0 <= w < |st'.workers| ensures Follows(c, st', w) {
      assert Follows(c, st, w);
      assert st'.history[..st.workers[w].consumed] == st.history[..st.workers[w].consumed];
    }
  }

  // ------------------------------------------------------- what the files say

  function Day(c: Config, f: File): seq<Action> {
    [Created(f.path, f.prev, f.alphas)] + FeedAll(Split(f.orderBytes, c.record)) + [Completed]
  }

  function Days(c: Config, files: seq<File>): seq<Action> {
    if files == [] then [] else Day(c, files[0]) + Days(c, files[1..])
  }

  /** How many actions the files take: for each one the creation, the records and the completion. */
  function Length(c: Config, files: seq<File>): nat {
    if files == [] then 0
    else Length(c, files[..|files| - 1]) + |files[|files| - 1].orderBytes| / c.record + 2
  }

  /** From position `at` on, the log says: the engine is created with the file's path and infos,
      then it is fed one record after the other, each made of the next bytes of the file, as
      many as there are whole records, and then it is completed. */
  ghost predicate DayAt(c: Config, f: File, log: seq<Action>, at: nat) {
    var n := |f.orderBytes| / c.record;
    && at + n + 2 <= |log|
    && log[at] == Created(f.path, f.prev, f.alphas)
    && (forall j :: at < j <= at + n ==>
          log[j].Fed? && IsRecord(f.orderBytes, c.record, j - at - 1, log[j].order))
    && log[at + n + 1] == Completed
  }

  /** The log consists of the days of all files, one after the other. */
  ghost predicate SpellsOut(c: Config, files: seq<File>, log: seq<Action>) {
    && |log| == Length(c, files)
    && forall i :: 0 <= i < |files| ==> DayAt(c, files[i], log, Length(c, files[..i]))
  }

  lemma DayIsSpelled(c: Config, f: File)
    ensures |Day(c, f)| == |f.orderBytes| / c.record + 2 && DayAt(c, f, Day(c, f), 0)
  {
    var day, n, records := Day(c, f), |f.orderBytes| / c.record, Split(f.orderBytes, c.record);
    SplitCount(f.orderBytes, c.record);
    FeedsEach(records);
    hide Split, FeedAll, IsRecord;
    forall j | 0 < j <= n ensures day[j].Fed? && IsRecord(f.orderBytes, c.record, j - 1, day[j].order) {
      SplitAt(f.orderBytes, c.record, j - 1);
      assert day[j] == FeedAll(records)[j - 1];
    }
  }

  /** Every record is fed, in order. */
  lemma FeedsEach(records: seq<Record>)
    ensures |FeedAll(records)| == |records|
    ensures forall i :: 0 <= i < |records| ==> FeedAll(records)[i] == Fed(records[i])
  {
  }

  lemma SameRecord(bytes: seq<byte>, size: pos, k: nat, r: Record, s: Record)
    requires IsRecord(bytes, size, k, r) && IsRecord(bytes, size, k, s)
    ensures r == s
  {
  }

  /** Two stretches of logs that both spell out the same day are equal. */
  lemma DayIsUnique(c: Config, f: File, a: seq<Action>, at: nat, b: seq<Action>)
    requires DayAt(c, f, a, at) && DayAt(c, f, b, 0) && |b| == |f.orderBytes| / c.record + 2
    ensures a[at..at + |b|] == b
  {
    hide IsRecord;
    var n, s := |f.orderBytes| / c.record, a[at..at + |b|];
    forall j | 0 <= j < |b| ensures s[j] == b[j] {
      if 0 < j <= n {
        assert a[at + j].Fed? && IsRecord(f.orderBytes, c.record, j - 1, a[at + j].order);
        SameRecord(f.orderBytes, c.record, j - 1, a[at + j].order, b[j].order);
      }
    }
  }

  lemma {:induction false} DaysSnoc(c: Config, files: seq<File>, f: File)
    ensures Days(c, files + [f]) == Days(c, files) + Day(c, f)
  {
    hide Day;
    if files == [] {
      assert Days(c, []) == [] && ([] + [f])[1..] == [];
      assert Day(c, f) + [] == Day(c, f) == [] + Day(c, f);
    } else {
      assert (files + [f])[0] == files[0] && (files + [f])[1..] == files[1..] + [f];
      DaysSnoc(c, files[1..], f);
      Assoc(Day(c, files[0]), Days(c, files[1..]), Day(c, f));
    }
  }

  /** A day stays where it is when a log grows or is cut behind it. */
  lemma DayAtPrefix(c: Config, f: File, log: seq<Action>, m: nat, at: nat)
    requires at + |f.orderBytes| / c.record + 2 <= m <= |log|
    ensures DayAt(c, f, log, at) <==> DayAt(c, f, log[..m], at)
  {
    hide IsRecord;
    assert forall j :: 0 <= j < m ==> log[..m][j] == log[j];
  }

  lemma {:induction false} LengthGrows(c: Config, files: seq<File>, i: nat)
    requires i < |files|
    ensures Length(c, files[..i]) + |files[i].orderBytes| / c.record + 2 <= Length(c, files)
  {
    var n := |files| - 1;
    if i == n {
      assert files[..i] == files[..n];
    } else {
      LengthGrows(c, files[..n], i);
      assert files[..n][..i] == files[..i];
    }
  }

  /** A log is what the files say exactly if it spells them out. */
  lemma {:induction false} SpellsOutIff(c: Config, files: seq<File>, log: seq<Action>)
    ensures log == Days(c, files) <==> SpellsOut(c, files, log)
    decreases |files|
  {
    hide DayAt, Day, Days, SpellsOut, Length;
    if files == [] {
      NoDays(c, log);
    } else {
      var n := |files| - 1;
      var before, f, m := files[..n], files[n], Length(c, files[..n]);
      assert files == before + [f];
      DaysSnoc(c, before, f);
      DayIsSpelled(c, f);
      if m + |Day(c, f)| == |log| {
        SpellsOutIff(c, before, log[..m]);
        SpellsOutSplit(c, before, f, log);
        assert log == log[..m] + log[m..];
      } else {
        DaysLength(c, before);
        if SpellsOut(c, files, log) {
          SpelledLength(c, before, f, log);
        }
      }
    }
  }

  lemma NoDays(c: Config, log: seq<Action>)
    ensures log == Days(c, []) <==> SpellsOut(c, [], log)
  {
  }

  lemma SpelledLength(c: Config, before: seq<File>, f: File, log: seq<Action>)
    requires SpellsOut(c, before + [f], log)
    ensures |log| == Length(c, before) + |f.orderBytes| / c.record + 2
  {
    assert (before + [f])[..|before|] == before;
  }

  lemma {:induction false} DaysLength(c: Config, files: seq<File>)
    ensures |Days(c, files)| == Length(c, files)
  {
    if files != [] {
      hide Day;
      var n := |files| - 1;
      assert files == files[..n] + [files[n]];
      DaysSnoc(c, files[..n], files[n]);
      DayIsSpelled(c, files[n]);
      DaysLength(c, files[..n]);
    }
  }

  lemma SpellsOutSplit(c: Config, before: seq<File>, f: File, log: seq<Action>)
    requires |log| == Length(c, before) + |Day(c, f)|
    ensures SpellsOut(c, before + [f], log) <==>
      SpellsOut(c, before, log[..Length(c, before)]) && log[Length(c, before)..] == Day(c, f)
  {
    hide DayAt, Day;
    var m, all := Length(c, before), before + [f];
    DayIsSpelled(c, f);
    assert all[..|before|] == before;
    forall i | 0 <= i < |before|
      ensures DayAt(c, before[i], log, Length(c, before[..i])) <==>
              DayAt(c, before[i], log[..m], Length(c, before[..i]))
      ensures all[..i] == before[..i] && all[i] == before[i]
    {
      LengthGrows(c, before, i);
      DayAtPrefix(c, before[i], log, m, Length(c, before[..i]));
    }
    LastDay(c, f, log, m);
  }

  lemma LastDay(c: Config, f: File, log: seq<Action>, at: nat)
    requires |log| == at + |Day(c, f)|
    ensures DayAt(c, f, log, at) <==> log[at..] == Day(c, f)
  {
    hide IsRecord, Day;
    var n, day := |f.orderBytes| / c.record, Day(c, f);
    DayIsSpelled(c, f);
    if DayAt(c, f, log, at) {
      DayIsUnique(c, f, log, at, day);
    }
    if log[at..] == day {
      assert log[at] == log[at..][0] && log[at + n + 1] == log[at..][n + 1];
      forall j | at < j <= at + n ensures log[j].Fed? && IsRecord(f.orderBytes, c.record, j - at - 1, log[j].order) {
        assert log[j] == log[at..][j - at];
      }
    }
  }

  /** The rest of a day after the order logs read so far. */
  function RestOfDay(c: Config, f: File, offset: nat): seq<Action>
    requires offset <= |f.orderBytes|
  {
    FeedAll(Split(f.orderBytes[offset..], c.record)) + [Completed]
  }

  ghost predicate InFile(c: Config, p: Producer) {
    p.file < |c.files| && p.offset <= |c.files[p.file].orderBytes|
  }

  /** What the reader still has to publish, the current buffer included. */
  function Remaining(c: Config, p: Producer, b: Segment): seq<Action>
    requires InFile(c, p) || p.pc == Finished
  {
    if p.pc == Finished then [] else
    var f, later := c.files[p.file], Days(c, c.files[p.file + 1..]);
    match p.pc
    case AwaitHead => Day(c, f) + later
    case WriteFlag => Day(c, f) + later
    case WriteInfo => Day(c, f) + later
    case ReadOrders => Begin(b) + RestOfDay(c, f, p.offset) + later
    case Publish => Actions(b) + RestOfDay(c, f, p.offset) + later
    case AwaitNext => RestOfDay(c, f, p.offset) + later
    case Reset => RestOfDay(c, f, p.offset) + later
    case PublishEnd => Actions(b) + later
    case Finished => []
  }

  /** What the reader has put into the current buffer so far. */
  ghost predicate Filled(c: Config, p: Producer, b: Segment)
    requires InFile(c, p)
  {
    var f := c.files[p.file];
    match p.pc
    case WriteInfo => b.flag == FileHead && b.path == f.path
    case ReadOrders =>
      if p.offset == 0 then b.flag == FileHead && b.path == f.path && b.prev == f.prev && b.alphas == f.alphas
      else b.flag == InProcess && b.orders == []
    case Publish =>
      && b.flag in {FileHead, InProcess} && p.offset > 0
    case AwaitNext => p.offset > 0
    case Reset => p.offset > 0
    case PublishEnd => b.flag == FileEnd && p.offset == |f.orderBytes| && (p.offset > 0 ==> b.orders == [])
    case _ => true
  }

  ghost predicate OnTrack(c: Config, st: State) {
    && st.producer.index < |st.slots|
    && (if st.producer.pc == Finished then st.producer.file == |c.files| else InFile(c, st.producer))
    && var b := st.slots[st.producer.index].content;
    && (st.producer.pc != Finished ==> Filled(c, st.producer, b))
  }

  ghost predicate NonEmptyFiles(c: Config) {
    forall i :: 0 <= i < |c.files| ==> c.files[i].orderBytes != []
  }

  /** Published and still to be published make up the files. */
  ghost predicate Accounted(c: Config, st: State)
    requires OnTrack(c, st)
  {
    Script(st.history) + Remaining(c, st.producer, st.slots[st.producer.index].content) == Days(c, c.files)
  }

  lemma FeedAllConcat(a: seq<Record>, b: seq<Record>)
    ensures FeedAll(a + b) == FeedAll(a) + FeedAll(b)
  {
  }

  lemma ScriptSnoc(history: seq<Segment>, b: Segment)
    ensures Script(history + [b]) == Script(history) + Actions(b)
  {
    assert (history + [b])[..|history|] == history;
  }

  lemma StaysOnTrack(c: Config, st: State)
    requires Safe(c, st) && c.chunk % c.record == 0
    requires OnTrack(c, st) && ProducerEnabled(c, st)
    ensures OnTrack(c, ProducerNext(c, st))
  {
    hide Split, Masks, Intact;
    var p, f := st.producer, c.files[st.producer.file];
    ProducerIsSafe(c, st);
    SplitChunk(f.orderBytes, p.offset, c.chunk, c.record);
  }

  /** A chunk is the next part of the day; with nothing left only the completion remains. */
  lemma RestOfDaySplits(c: Config, f: File, offset: nat)
    requires offset <= |f.orderBytes| && c.chunk % c.record == 0
    ensures var bytes := Chunk(f.orderBytes, offset, c.chunk);
      && offset + |bytes| <= |f.orderBytes|
      && (bytes != [] ==>
            RestOfDay(c, f, offset) == FeedAll(Split(bytes, c.record)) + RestOfDay(c, f, offset + |bytes|))
      && (bytes == [] ==> RestOfDay(c, f, offset) == [Completed] && offset == |f.orderBytes|)
  {
    hide Split, FeedAll, Chunk;
    var bytes := Chunk(f.orderBytes, offset, c.chunk);
    SplitChunk(f.orderBytes, offset, c.chunk, c.record);
    if bytes != [] {
      var orders, rest := Split(bytes, c.record), Split(f.orderBytes[offset + |bytes|..], c.record);
      FeedAllConcat(orders, rest);
      Assoc(FeedAll(orders), FeedAll(rest), [Completed]);
    } else {
      assert f.orderBytes[offset..] == [];
      NothingToFeed(c);
    }
  }

  lemma Assoc(a: seq<Action>, b: seq<Action>, d: seq<Action>)
    ensures a + b + d == a + (b + d)
  {
  }

  lemma NothingToFeed(c: Config)
    ensures FeedAll(Split([], c.record)) == [] && [] + [Completed] == [Completed]
  {
  }

  lemma NoOrdersNoActions()
    ensures FeedAll([]) == []
  {
  }

  /** Reading a chunk, or the end of a file, into the current buffer. */
  lemma ReadAccounts(c: Config, st: State)
    requires Shape(c, st) && c.chunk % c.record == 0 && NonEmptyFiles(c)
    requires OnTrack(c, st) && st.producer.pc == ReadOrders && ProducerEnabled(c, st)
    requires OnTrack(c, ProducerNext(c, st))
    ensures var st' := ProducerNext(c, st);
      Remaining(c, st'.producer, st'.slots[st'.producer.index].content)
      == Remaining(c, st.producer, st.slots[st.producer.index].content)
  {
    hide Split, RestOfDay, Days, FeedAll, Chunk;
    var p, f, b := st.producer, c.files[st.producer.file], st.slots[st.producer.index].content;
    var bytes := Chunk(f.orderBytes, p.offset, c.chunk);
    var later := Days(c, c.files[p.file + 1..]);
    RestOfDaySplits(c, f, p.offset);
    NoOrdersNoActions();
    if bytes != [] {
      var orders, rest := FeedAll(Split(bytes, c.record)), RestOfDay(c, f, p.offset + |bytes|);
      assert Begin(b) + (orders + rest) + later == Begin(b) + orders + [] + rest + later;
    } else {
      assert b.flag == InProcess && b.orders == [];
    }
  }

  lemma ReleaseAccounts(c: Config, st: State)
    requires Shape(c, st) && OnTrack(c, st) && st.producer.pc in {Publish, PublishEnd} && ProducerEnabled(c, st)
    requires OnTrack(c, ProducerNext(c, st))
    ensures var st' := ProducerNext(c, st);
      Script(st'.history) + Remaining(c, st'.producer, st'.slots[st'.producer.index].content)
      == Script(st.history) + Remaining(c, st.producer, st.slots[st.producer.index].content)
  {
    hide Split, Script, Actions, Days, Day, RestOfDay, Incr, Filled;
    var p, b, st' := st.producer, st.slots[st.producer.index].content, ProducerNext(c, st);
    var later := Days(c, c.files[p.file + 1..]);
    var rest := if p.pc == Publish then RestOfDay(c, c.files[p.file], p.offset) + later else later;
    assert Remaining(c, p, b) == Actions(b) + rest by {
      if p.pc == Publish {
        Assoc(Actions(b), RestOfDay(c, c.files[p.file], p.offset), later);
      }
    }
    assert Remaining(c, st'.producer, st'.slots[st'.producer.index].content) == rest by {
      NextDay(c, p.file + 1);
    }
    assert st'.history == st.history + [b];
    hide ProducerNext, Remaining;
    ScriptSnoc(st.history, b);
    Assoc(Script(st.history), Actions(b), rest);
  }

  lemma NextDay(c: Config, i: nat)
    requires i <= |c.files|
    ensures Days(c, c.files[i..]) == if i < |c.files| then Day(c, c.files[i]) + Days(c, c.files[i + 1..]) else []
  {
    assert i < |c.files| ==> c.files[i..][1..] == c.files[i + 1..];
  }

  lemma ProducerAccounts(c: Config, st: State)
    requires Safe(c, st) && c.chunk % c.record == 0 && NonEmptyFiles(c)
    requires OnTrack(c, st) && Accounted(c, st) && ProducerEnabled(c, st)
    ensures OnTrack(c, ProducerNext(c, st)) && Accounted(c, ProducerNext(c, st))
  {
    StaysOnTrack(c, st);
    if st.producer.pc == ReadOrders {
      hide Script, Remaining;
      ReadAccounts(c, st);
    } else if st.producer.pc == Publish || st.producer.pc == PublishEnd {
      hide Remaining;
      ReleaseAccounts(c, st);
    } else {
      hide Script;
      QuietStep(c, st);
    }
  }

  /** The steps that only wait or set up a buffer. */
  lemma QuietStep(c: Config, st: State)
    requires Shape(c, st) && OnTrack(c, st) && ProducerEnabled(c, st)
    requires st.producer.pc !in {ReadOrders, Publish, PublishEnd}
    requires OnTrack(c, ProducerNext(c, st))
    ensures var st' := ProducerNext(c, st);
      && st'.history == st.history
      && Remaining(c, st'.producer, st'.slots[st'.producer.index].content)
         == Remaining(c, st.producer, st.slots[st.producer.index].content)
  {
    hide Split, FeedAll, Days;
    var p, f := st.producer, c.files[st.producer.file];
    if p.pc == WriteInfo {
      assert f.orderBytes[0..] == f.orderBytes;
      var orders := FeedAll(Split(f.orderBytes, c.record));
      assert [Created(f.path, f.prev, f.alphas)] + orders + [Completed]
          == [Created(f.path, f.prev, f.alphas)] + (orders + [Completed]);
    } else if p.pc == Reset {
      var rest, later := RestOfDay(c, f, p.offset), Days(c, c.files[p.file + 1..]);
      assert [] + rest + later == rest + later;
    }
  }

  // ---------------------------------------------------------------- all runs

  ghost predicate Feeding(c: Config, st: State) {
    && Safe(c, st) && AllFollow(c, st) && OnTrack(c, st)
    && (NonEmptyFiles(c) ==> Accounted(c, st))
  }

  lemma StartFeeds(c: Config)
    ensures Feeding(c, Start(c))
  {
    StartIsSafe(c);
    var st := Start(c);
    assert c.files != [] ==> c.files == [c.files[0]] + c.files[1..];
    forall w | 0 <= w < |st.workers| ensures Follows(c, st, w) {
    }
  }

  lemma StepFeeds(c: Config, st: State, step: Step)
    requires c.chunk % c.record == 0 && Feeding(c, st) && Enabled(c, st, step)
    ensures Feeding(c, Next(c, st, step))
  {
    StepIsSafe(c, st, step);
    match step
    case ProducerStep =>
      HistoryGrowsFollows(c, st, ProducerNext(c, st));
      StaysOnTrack(c, st);
      if NonEmptyFiles(c) {
        ProducerAccounts(c, st);
      }
    case WorkerStep(w) =>
      WorkerFollows(c, st, w);
      WorkerLeavesReader(c, st, w);
  }

  lemma WorkerLeavesReader(c: Config, st: State, w: nat)
    requires OnTrack(c, st) && WorkerEnabled(st, w)
    ensures var st' := WorkerNext(c, st, w);
      OnTrack(c, st') && (Accounted(c, st) ==> Accounted(c, st'))
  {
    var st' := WorkerNext(c, st, w);
    assert st'.producer == st.producer && st'.history == st.history;
    assert st'.slots[st.producer.index].content == st.slots[st.producer.index].content;
  }

  lemma {:induction false} RunFeeds(c: Config, st: State, steps: seq<Step>)
    requires c.chunk % c.record == 0 && Feeding(c, st) && Legal(c, st, steps)
    ensures Feeding(c, Exec(c, st, steps))
    decreases |steps|
  {
    if steps != [] {
      hide Feeding, Next, Enabled;
      StepFeeds(c, st, steps[0]);
      RunFeeds(c, Next(c, st, steps[0]), steps[1..]);
    }
  }

  lemma {:induction false} ScriptPrefix(history: seq<Segment>, k: nat)
    requires k <= |history|
    ensures Script(history[..k]) <= Script(history)
    ensures k < |history| ==> Script(history[..k]) + Actions(history[k]) <= Script(history)
  {
    if k == |history| {
      assert history[..k] == history;
    } else {
      var h := history[..|history| - 1];
      ScriptPrefix(h, k);
      assert h[..k] == history[..k];
      if k < |h| {
        assert h[k] == history[k];
      } else {
        assert h[..k] == h;
      }
    }
  }

  /** At any time a worker has done a prefix of what the files say, record by record. */
  lemma WorkersDoAPrefix(c: Config, steps: seq<Step>, w: nat)
    requires c.chunk % c.record == 0 && Legal(c, Start(c), steps) && w < c.workers && NonEmptyFiles(c)
    ensures var st := Exec(c, Start(c), steps);
      && |st.workers| == c.workers
      && exists whole :: SpellsOut(c, c.files, whole) && st.workers[w].log <= whole
  {
    SpellsOutIff(c, c.files, Days(c, c.files));
    hide SpellsOut;
    StartFeeds(c);
    RunFeeds(c, Start(c), steps);
    var st := Exec(c, Start(c), steps);
    var k := st.workers[w];
    assert Follows(c, st, w);
    ScriptPrefix(st.history, k.consumed);
    if Reading(k) {
      PartialPrefix(k.pc, st.history[k.consumed]);
    }
    assert Script(st.history) <= Days(c, c.files);
  }

  lemma PartialPrefix(pc: WorkerPc, s: Segment)
    ensures Partial(pc, s) <= Actions(s)
  {
  }

  // ------------------------------------------------------- a file without orders

  function Openings(log: seq<Action>): nat {
    if log == [] then 0 else Openings(log[..|log| - 1]) + if log[|log| - 1].Created? then 1 else 0
  }

  function NonEmptyCount(files: seq<File>): nat {
    if files == [] then 0
    else NonEmptyCount(files[..|files| - 1]) + if files[|files| - 1].orderBytes != [] then 1 else 0
  }

  lemma {:induction false} OpeningsConcat(a: seq<Action>, b: seq<Action>)
    ensures Openings(a + b) == Openings(a) + Openings(b)
  {
    if b == [] {
      assert a + b == a;
    } else {
      assert (a + b)[..|a + b| - 1] == a + b[..|b| - 1];
      OpeningsConcat(a, b[..|b| - 1]);
    }
  }

  lemma {:induction false} FedOpensNothing(orders: seq<Record>)
    ensures Openings(FeedAll(orders)) == 0
  {
    if orders != [] {
      var l := FeedAll(orders);
      assert l[..|l| - 1] == FeedAll(orders[..|orders| - 1]);
      FedOpensNothing(orders[..|orders| - 1]);
    }
  }

  lemma OpeningsOfActions(s: Segment)
    ensures Openings(Actions(s)) == if s.flag == FileHead then 1 else 0
  {
    OpeningsConcat(Begin(s) + FeedAll(s.orders), End(s));
    OpeningsConcat(Begin(s), FeedAll(s.orders));
    FedOpensNothing(s.orders);
    assert Begin(s) != [] ==> Begin(s)[..0] == [];
    assert End(s) != [] ==> End(s)[..0] == [];
  }

  lemma {:induction false} OpeningsOfDays(c: Config, files: seq<File>)
    ensures Openings(Days(c, files)) == |files|
  {
    if files != [] {
      var f := files[0];
      var orders := Split(f.orderBytes, c.record);
      OpeningsOfDays(c, files[1..]);
      OpeningsConcat(Day(c, f), Days(c, files[1..]));
      OpeningsConcat([Created(f.path, f.prev, f.alphas)] + FeedAll(orders), [Completed]);
      OpeningsConcat([Created(f.path, f.prev, f.alphas)], FeedAll(orders));
      FedOpensNothing(orders);
      assert [Created(f.path, f.prev, f.alphas)][..0] == [] && [Completed][..0] == [];
    }
  }

  lemma {:induction false} NonEmptyAll(files: seq<File>)
    ensures NonEmptyCount(files) <= |files|
    ensures NonEmptyCount(files) == |files| ==> forall i :: 0 <= i < |files| ==> files[i].orderBytes != []
  {
    if files != [] {
      var h := files[..|files| - 1];
      NonEmptyAll(h);
      assert forall i :: 0 <= i < |h| ==> h[i] == files[i];
    }
  }

  /** Whether the first buffer of the current file has been published. */
  ghost predicate HeadOut(p: Producer, b: Segment) {
    match p.pc
    case ReadOrders => p.offset > 0
    case Publish => b.flag != FileHead
    case AwaitNext => true
    case Reset => true
    case PublishEnd => p.offset > 0
    case _ => false
  }

  /** The published segments open one engine for every file that has order logs. */
  ghost predicate Opened(c: Config, st: State)
    requires st.producer.index < |st.slots| && st.producer.file <= |c.files|
  {
    Openings(Script(st.history)) == NonEmptyCount(c.files[..st.producer.file])
      + if HeadOut(st.producer, st.slots[st.producer.index].content) then 1 else 0
  }

  lemma ProducerOpens(c: Config, st: State)
    requires Safe(c, st) && c.chunk % c.record == 0
    requires OnTrack(c, st) && ProducerEnabled(c, st) && Opened(c, st)
    ensures var st' := ProducerNext(c, st); OnTrack(c, st') && Opened(c, st')
  {
    hide Split, Masks, Intact, Openings, Script, Latest;
    StaysOnTrack(c, st);
    var p, b := st.producer, st.slots[st.producer.index].content;
    if p.pc == Publish || p.pc == PublishEnd {
      ScriptSnoc(st.history, b);
      OpeningsConcat(Script(st.history), Actions(b));
      OpeningsOfActions(b);
      var files := c.files[..p.file + 1];
      assert files[..p.file] == c.files[..p.file];
    } else if p.pc == ReadOrders {
      SplitChunk(c.files[p.file].orderBytes, p.offset, c.chunk, c.record);
    }
  }

  ghost predicate FeedingAndOpened(c: Config, st: State) {
    Feeding(c, st) && Opened(c, st)
  }

  lemma StepOpens(c: Config, st: State, step: Step)
    requires c.chunk % c.record == 0 && FeedingAndOpened(c, st) && Enabled(c, st, step)
    ensures FeedingAndOpened(c, Next(c, st, step))
  {
    hide Openings, Script, NonEmptyCount, Safe, AllFollow, Accounted;
    StepFeeds(c, st, step);
    match step
    case ProducerStep => ProducerOpens(c, st);
    case WorkerStep(w) =>
      var st' := WorkerNext(c, st, w);
      assert st'.producer == st.producer && st'.history == st.history;
      assert st'.slots[st.producer.index].content == st.slots[st.producer.index].content;
  }

  lemma {:induction false} RunOpens(c: Config, st: State, steps: seq<Step>)
    requires c.chunk % c.record == 0 && FeedingAndOpened(c, st) && Legal(c, st, steps)
    ensures FeedingAndOpened(c, Exec(c, st, steps))
    decreases |steps|
  {
    if steps != [] {
      hide FeedingAndOpened, Next, Enabled;
      StepOpens(c, st, steps[0]);
      RunOpens(c, Next(c, st, steps[0]), steps[1..]);
    }
  }

  // ------------------------------------------------------------- complete runs

  /** The reader has finished and every worker has consumed every segment. */
  predicate Done(st: State) {
    st.producer.pc == Finished &&
    forall w :: 0 <= w < |st.workers| ==> st.workers[w].pc == Await && st.workers[w].consumed == |st.history|
  }

  /** After a complete run every worker has created one engine per file before its first
      order, fed it the file's records in order, and completed it once: exactly if no order
      file is empty. A file without orders is published as a lone end segment, for which no
      engine is created. */
  lemma FeedsExactlyIffNonEmpty(c: Config, steps: seq<Step>)
    requires c.chunk % c.record == 0 && Legal(c, Start(c), steps) && c.workers > 0
    requires Done(Exec(c, Start(c), steps))
    ensures var st := Exec(c, Start(c), steps);
      (forall w :: 0 <= w < |st.workers| ==> SpellsOut(c, c.files, st.workers[w].log))
      <==> (forall i :: 0 <= i < |c.files| ==> c.files[i].orderBytes != [])
  {
    hide SpellsOut, Script, Days, Start, Exec, Legal, Opened, Safe, AllFollow, OnTrack, Accounted;
    StartOpens(c);
    RunOpens(c, Start(c), steps);
    var st := Exec(c, Start(c), steps);
    DoneLogs(c, st);
    ScriptIffNonEmpty(c, st);
    assert |st.workers| == c.workers by { ShapeOf(c, st); }
    forall w | 0 <= w < |st.workers|
      ensures SpellsOut(c, c.files, st.workers[w].log) <==> st.workers[w].log == Days(c, c.files)
    {
      SpellsOutIff(c, c.files, st.workers[w].log);
    }
    if forall w :: 0 <= w < |st.workers| ==> SpellsOut(c, c.files, st.workers[w].log) {
      assert st.workers[0].log == Script(st.history);
    }
  }

  lemma ShapeOf(c: Config, st: State)
    requires Safe(c, st)
    ensures |st.workers| == c.workers
  {
  }

  lemma StartOpens(c: Config)
    ensures FeedingAndOpened(c, Start(c))
  {
    StartFeeds(c);
  }

  lemma DoneLogs(c: Config, st: State)
    requires AllFollow(c, st) && Done(st)
    ensures forall w :: 0 <= w < |st.workers| ==> st.workers[w].log == Script(st.history)
  {
    assert st.history[..|st.history|] == st.history;
    forall w | 0 <= w < |st.workers| ensures st.workers[w].log == Script(st.history) {
      assert Follows(c, st, w);
    }
  }

  lemma ScriptIffNonEmpty(c: Config, st: State)
    requires FeedingAndOpened(c, st) && st.producer.pc == Finished
    ensures Script(st.history) == Days(c, c.files) <==> NonEmptyFiles(c)
  {
    hide Script, Days, Openings, NonEmptyCount, Safe, AllFollow;
    assert c.files[..|c.files|] == c.files;
    OpeningsOfDays(c, c.files);
    NonEmptyAll(c.files);
    assert Script(st.history) + [] == Script(st.history);
  }
}
