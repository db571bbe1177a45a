/**
  The chunk-and-spawn scheme that `LoadDocs`, `RecognizeLanguage`, `GenerateFeatures` and `DetectNews`
  share, as a transition system: the main thread spawns a worker per chunk while the workers already
  spawned run. Each reads a document, works on it and writes it back, and other threads may run between.
 */
module ParallelMap {
  import opened Arithmetic
  import opened Wrappers

  const NUM_THREADS: nat := 8

  /** `std::max<size_t>(1u, n / kNumThreads)` */
  function StepSize(n: nat): (step: nat)
    ensures step >= 1
  {
    if n / NUM_THREADS > 1 then n / NUM_THREADS else 1
  }

  /** A thread: its chunk, the index of its next document, and what it is about to write there. */
  datatype Worker<T> = Worker(begin: nat, next: nat, end: nat, held: Option<T>) {
    predicate Busy() {
      next < end
    }

    /** Bounds are in order, and only a busy thread has something to write. */
    predicate Sane() {
      begin <= next <= end && (held.Some? ==> Busy())
    }
  }

  /** `start` is the loop variable of the main thread. */
  datatype State<T> = State(docs: seq<T>, start: nat, workers: seq<Worker<T>>)

  /** What the loop body of a task makes of the document at an index. */
  type Task<!T> = (nat, T) -> T

  datatype Action = Spawn | Read(worker: nat) | Write(worker: nat)

  function Init<T>(docs: seq<T>): State<T> {
    State(docs, 0, [])
  }

  predicate Enabled<T>(s: State<T>, a: Action) {
    match a
    case Spawn => s.start < |s.docs|
    case Read(w) =>
      w < |s.workers| && s.workers[w].Busy() && s.workers[w].next < |s.docs| && s.workers[w].held.None?
    case Write(w) => w < |s.workers| && s.workers[w].held.Some? && s.workers[w].next < |s.docs|
  }

  function Next<T>(task: Task<T>, s: State<T>, a: Action): State<T>
    requires Enabled(s, a)
  {
    match a
    case Spawn =>
      var step := StepSize(|s.docs|);
      var end := Min(|s.docs|, s.start + step);
      s.(start := s.start + step, workers := s.workers + [Worker(s.start, s.start, end, None)])
    case Read(w) =>
      var i := s.workers[w].next;
      s.(workers := s.workers[w := s.workers[w].(held := Some(task(i, s.docs[i])))])
    case Write(w) =>
      var i := s.workers[w].next;
      s.(docs := s.docs[i := s.workers[w].held.value],
         workers := s.workers[w := s.workers[w].(next := i + 1, held := None)])
  }

  /** The state after a schedule, if every action of it was enabled. */
  function Execute<T>(task: Task<T>, s: State<T>, schedule: seq<Action>): Option<State<T>>
    decreases |schedule|
  {
    if schedule == [] then Some(s)
    else if !Enabled(s, schedule[0]) then None
    else Execute(task, Next(task, s, schedule[0]), schedule[1..])
  }

  /** The main thread has spawned everything and every join returns. */
  ghost predicate Finished<T>(s: State<T>) {
    forall a :: !Enabled(s, a)
  }

  /** The sequential run. */
  function MapAll<T>(task: Task<T>, docs: seq<T>): seq<T> {
    seq(|docs|, i requires 0 <= i < |docs| => task(i, docs[i]))
  }

  // ---- The invariant of every schedule.

  predicate Handled<T>(workers: seq<Worker<T>>, i: nat) {
    exists w | 0 <= w < |workers| :: workers[w].begin <= i < workers[w].next
  }

  predicate Assigned<T>(workers: seq<Worker<T>>, i: nat) {
    exists w | 0 <= w < |workers| :: workers[w].begin <= i < workers[w].end
  }

  /** Chunks are non-empty, ordered, disjoint, and cover the documents up to `start`. */
  ghost predicate Chunked<T>(workers: seq<Worker<T>>, start: nat, n: nat) {
    && (forall w | 0 <= w < |workers| ::
          workers[w].Sane() && workers[w].begin < workers[w].end <= Min(n, start))
    && (forall v, w | 0 <= v < w < |workers| :: workers[v].end <= workers[w].begin)
    && (forall i: nat | i < Min(n, start) :: Assigned(workers, i))
  }

  /** Each document is either handled, once, or untouched, and every result in hand is of an untouched one. */
  ghost predicate Consistent<T>(task: Task<T>, before: seq<T>, s: State<T>) {
    && |s.docs| == |before|
    && Chunked(s.workers, s.start, |before|)
    && (forall i: nat | i < |before| ::
          s.docs[i] == if Handled(s.workers, i) then task(i, before[i]) else before[i])
    && (forall w | 0 <= w < |s.workers| :: HoldsResult(task, before, s.workers[w]))
  }

  ghost predicate HoldsResult<T>(task: Task<T>, before: seq<T>, worker: Worker<T>) {
    worker.held.Some? ==> worker.next < |before| && worker.held.value == task(worker.next, before[worker.next])
  }

  lemma SpawnChunks<T>(task: Task<T>, s: State<T>)
    requires Chunked(s.workers, s.start, |s.docs|) && Enabled(s, Spawn)
    ensures var t := Next(task, s, Spawn); Chunked(t.workers, t.start, |t.docs|)
  {
    var t := Next(task, s, Spawn);
    var k := |s.workers|;
    forall i: nat | i < Min(|s.docs|, t.start) ensures Assigned(t.workers, i) {
      if i < s.start {
        assert Assigned(s.workers, i);
        var w :| 0 <= w < k && s.workers[w].begin <= i < s.workers[w].end;
        assert t.workers[w] == s.workers[w];
      } else {
        assert t.workers[k].begin <= i < t.workers[k].end;
      }
    }
  }

  lemma SpawnHandles<T>(workers: seq<Worker<T>>, worker: Worker<T>, i: nat)
    requires worker.next == worker.begin
    ensures Handled(workers + [worker], i) == Handled(workers, i)
  {
    if Handled(workers, i) {
      var w :| 0 <= w < |workers| && workers[w].begin <= i < workers[w].next;
      assert (workers + [worker])[w] == workers[w];
    }
  }

  lemma SpawnKeeps<T>(task: Task<T>, before: seq<T>, s: State<T>)
    requires Consistent(task, before, s) && Enabled(s, Spawn)
    ensures Consistent(task, before, Next(task, s, Spawn))
  {
    SpawnChunks(task, s);
    hide Chunked, Handled;
    var t := Next(task, s, Spawn);
    forall i: nat ensures Handled(t.workers, i) == Handled(s.workers, i) {
      SpawnHandles(s.workers, t.workers[|s.workers|], i);
    }
  }

  /**
    Two workers never have the same document in hand, and a document in hand is not handled yet: no two
    threads touch one element, and what a thread has read is still there when it writes.
   */
  lemma WorkersDoNotInterfere<T>(workers: seq<Worker<T>>, start: nat, n: nat, v: nat, w: nat)
    requires Chunked(workers, start, n)
    requires v < |workers| && w < |workers| && workers[v].Busy() && workers[w].Busy()
    ensures workers[v].next == workers[w].next <==> v == w
    ensures !Handled(workers, workers[w].next)
  {
  }

  /** Replacing what a worker holds changes no chunk. */
  lemma HoldChunks<T>(workers: seq<Worker<T>>, start: nat, n: nat, w: nat, held: Option<T>)
    requires Chunked(workers, start, n) && w < |workers| && workers[w].Busy()
    ensures Chunked(workers[w := workers[w].(held := held)], start, n)
    ensures forall i: nat :: Handled(workers[w := workers[w].(held := held)], i) == Handled(workers, i)
  {
    var after := workers[w := workers[w].(held := held)];
    forall i: nat | i < Min(n, start) ensures Assigned(after, i) {
      assert Assigned(workers, i);
      var v :| 0 <= v < |workers| && workers[v].begin <= i < workers[v].end;
      assert after[v].begin <= i < after[v].end;
    }
    forall i: nat ensures Handled(after, i) == Handled(workers, i) {
      SameBoundsHandle(workers, after, i);
      SameBoundsHandle(after, workers, i);
    }
  }

  lemma SameBoundsHandle<T>(a: seq<Worker<T>>, b: seq<Worker<T>>, i: nat)
    requires |a| == |b| && forall w | 0 <= w < |a| :: a[w].begin == b[w].begin && a[w].next == b[w].next
    ensures Handled(a, i) ==> Handled(b, i)
  {
    if Handled(a, i) {
      var w :| 0 <= w < |a| && a[w].begin <= i < a[w].next;
      assert b[w].begin <= i < b[w].next;
    }
  }

  lemma ReadKeeps<T>(task: Task<T>, before: seq<T>, s: State<T>, w: nat)
    requires Consistent(task, before, s) && Enabled(s, Read(w))
    ensures Consistent(task, before, Next(task, s, Read(w)))
  {
    var i := s.workers[w].next;
    WorkersDoNotInterfere(s.workers, s.start, |before|, w, w);
    HoldChunks(s.workers, s.start, |before|, w, Some(task(i, s.docs[i])));
    hide Chunked, Handled;
  }

  lemma WorkChunks<T>(workers: seq<Worker<T>>, start: nat, n: nat, w: nat)
    requires Chunked(workers, start, n) && w < |workers| && workers[w].Busy()
    ensures Chunked(workers[w := workers[w].(next := workers[w].next + 1, held := None)], start, n)
  {
    var after := workers[w := workers[w].(next := workers[w].next + 1, held := None)];
    forall i: nat | i < Min(n, start) ensures Assigned(after, i) {
      assert Assigned(workers, i);
      var v :| 0 <= v < |workers| && workers[v].begin <= i < workers[v].end;
      assert after[v].begin <= i < after[v].end;
    }
  }

  lemma WorkHandles<T>(workers: seq<Worker<T>>, w: nat, i: nat)
    requires w < |workers| && workers[w].Sane()
    ensures Handled(workers[w := workers[w].(next := workers[w].next + 1, held := None)], i)
       <==> Handled(workers, i) || i == workers[w].next
  {
    var after := workers[w := workers[w].(next := workers[w].next + 1, held := None)];
    if Handled(workers, i) {
      var v :| 0 <= v < |workers| && workers[v].begin <= i < workers[v].next;
      assert after[v].begin <= i < after[v].next;
    }
    if i == workers[w].next {
      assert after[w].begin <= i < after[w].next;
    }
  }

  lemma WriteKeeps<T>(task: Task<T>, before: seq<T>, s: State<T>, w: nat)
    requires Consistent(task, before, s) && Enabled(s, Write(w))
    ensures Consistent(task, before, Next(task, s, Write(w)))
  {
    var t := Next(task, s, Write(w));
    assert s.workers[w].Sane() && HoldsResult(task, before, s.workers[w]);
    WorkChunks(s.workers, s.start, |before|, w);
    hide Chunked, Handled;
    forall i: nat ensures Handled(t.workers, i) <==> Handled(s.workers, i) || i == s.workers[w].next {
      WorkHandles(s.workers, w, i);
    }
  }

  // ---- Counting steps.

  /** Steps of the workers so far: two for each document handled, one for each in hand. */
  function Progress<T>(workers: seq<Worker<T>>): int {
    if workers == [] then 0
    else
      var last := workers[|workers| - 1];
      Progress(workers[..|workers| - 1]) + 2 * (last.next - last.begin) + if last.held.Some? then 1 else 0
  }

  /** Steps that the chunks spawned so far take. */
  function Load<T>(workers: seq<Worker<T>>): int {
    if workers == [] then 0
    else
      var last := workers[|workers| - 1];
      Load(workers[..|workers| - 1]) + 2 * (last.end - last.begin)
  }

  /** What a read, or a write, makes of a worker. */
  predicate IsStep<T>(worker: Worker<T>, after: Worker<T>) {
    && after.begin == worker.begin
    && after.end == worker.end
    && worker.held.None? == after.held.Some?
    && after.next == if worker.held.None? then worker.next else worker.next + 1
  }

  /** Reading, or writing, is one step of progress. */
  lemma {:induction false} ProgressStep<T>(workers: seq<Worker<T>>, w: nat, after: Worker<T>)
    requires w < |workers| && IsStep(workers[w], after)
    ensures Progress(workers[w := after]) == Progress(workers) + 1 && Load(workers[w := after]) == Load(workers)
    decreases |workers|
  {
    var last := |workers| - 1;
    if w < last {
      ProgressStep(workers[..last], w, after);
      assert workers[w := after][..last] == workers[..last][w := after];
    } else {
      assert workers[w := after][..last] == workers[..last];
    }
  }

  /** When every worker is done, progress is the whole load. */
  lemma {:induction false} AllDone<T>(workers: seq<Worker<T>>)
    requires forall w | 0 <= w < |workers| :: workers[w].next == workers[w].end && workers[w].held.None?
    ensures Progress(workers) == Load(workers)
    decreases |workers|
  {
    if workers != [] {
      AllDone(workers[..|workers| - 1]);
    }
  }

  lemma {:induction false} ProgressAtMostLoad<T>(workers: seq<Worker<T>>)
    requires forall w | 0 <= w < |workers| :: workers[w].Sane()
    ensures Progress(workers) <= Load(workers)
    decreases |workers|
  {
    if workers != [] {
      ProgressAtMostLoad(workers[..|workers| - 1]);
    }
  }

  /** `start` has advanced by one step per worker, and the chunks add up. */
  predicate Counted<T>(s: State<T>) {
    && s.start == |s.workers| * StepSize(|s.docs|)
    && (s.workers != [] ==> (|s.workers| - 1) * StepSize(|s.docs|) < |s.docs|)
    && Load(s.workers) == 2 * Min(|s.docs|, s.start)
  }

  lemma SpawnCounts<T>(task: Task<T>, s: State<T>)
    requires Counted(s) && Enabled(s, Spawn)
    ensures var t := Next(task, s, Spawn);
            Counted(t) && Progress(t.workers) == Progress(s.workers)
  {
    var t := Next(task, s, Spawn);
    assert t.workers[..|s.workers|] == s.workers;
    Successor(|s.workers|, StepSize(|s.docs|));
  }

  /** One action of a schedule counts as one step. */
  lemma StepKeeps<T>(task: Task<T>, before: seq<T>, s: State<T>, a: Action)
    requires Consistent(task, before, s) && Counted(s) && Enabled(s, a)
    ensures var t := Next(task, s, a);
            && Consistent(task, before, t)
            && Counted(t)
            && |t.workers| + Progress(t.workers) == |s.workers| + Progress(s.workers) + 1
  {
    hide Consistent, Progress, Load;
    match a {
      case Spawn =>
        SpawnKeeps(task, before, s);
        SpawnCounts(task, s);
      case Read(w) =>
        ReadKeeps(task, before, s, w);
        ProgressStep(s.workers, w, Next(task, s, a).workers[w]);
      case Write(w) =>
        WriteKeeps(task, before, s, w);
        ProgressStep(s.workers, w, Next(task, s, a).workers[w]);
    }
  }

  lemma {:induction false} ExecuteKeeps<T>(task: Task<T>, before: seq<T>, s: State<T>, schedule: seq<Action>)
    requires Consistent(task, before, s) && Counted(s)
    requires Execute(task, s, schedule).Some?
    ensures var t := Execute(task, s, schedule).value;
            && Consistent(task, before, t)
            && Counted(t)
            && |schedule| == |t.workers| - |s.workers| + Progress(t.workers) - Progress(s.workers)
    decreases |schedule|
  {
    hide Next, Consistent, Counted, Progress, Enabled;
    if schedule != [] {
      StepKeeps(task, before, s, schedule[0]);
      ExecuteKeeps(task, before, Next(task, s, schedule[0]), schedule[1..]);
    }
  }

  lemma InitConsistent<T>(task: Task<T>, docs: seq<T>)
    ensures Consistent(task, docs, Init(docs)) && Counted(Init(docs)) && Progress(Init(docs).workers) == 0
  {
  }

  /** Safety: after any part of any schedule each document is either mapped or untouched. */
  lemma EveryPrefixIsConsistent<T>(task: Task<T>, docs: seq<T>, schedule: seq<Action>)
    requires Execute(task, Init(docs), schedule).Some?
    ensures Consistent(task, docs, Execute(task, Init(docs), schedule).value)
  {
    InitConsistent(task, docs);
    ExecuteKeeps(task, docs, Init(docs), schedule);
  }

  /** At no point of any schedule do two threads work on one document, in hand or about to be read. */
  lemma NoTwoThreadsMeet<T>(task: Task<T>, docs: seq<T>, schedule: seq<Action>, v: nat, w: nat)
    requires Execute(task, Init(docs), schedule).Some?
    requires v != w && v < |Execute(task, Init(docs), schedule).value.workers|
    requires w < |Execute(task, Init(docs), schedule).value.workers|
    ensures var t := Execute(task, Init(docs), schedule).value;
            t.workers[v].Busy() && t.workers[w].Busy() ==> t.workers[v].next != t.workers[w].next
  {
    EveryPrefixIsConsistent(task, docs, schedule);
    hide Execute;
  }

  /** Number of chunks of up to `step` documents that `left` documents make. */
  function Chunks(left: nat, step: nat): nat
    requires step > 0
    decreases left
  {
    if left == 0 then 0 else 1 + Chunks(if left > step then left - step else 0, step)
  }

  function ChunkCount(n: nat): nat {
    Chunks(n, StepSize(n))
  }

  /** That is `left` divided by `step`, rounded up. */
  lemma {:induction false} ChunksRoundUp(left: nat, step: nat)
    requires step > 0
    ensures left <= Chunks(left, step) * step
    ensures left > 0 ==> Chunks(left, step) > 0 && (Chunks(left, step) - 1) * step < left
    decreases left
  {
    if left > 0 {
      var rest := if left > step then left - step else 0;
      ChunksRoundUp(rest, step);
      Successor(Chunks(rest, step), step);
      Successor(Chunks(rest, step) - 1, step);
    }
  }

  lemma ChunkCountIs(n: nat, k: nat)
    requires k * StepSize(n) >= n && (k > 0 ==> (k - 1) * StepSize(n) < n)
    requires k == 0 ==> n == 0
    ensures k == ChunkCount(n)
  {
    var step: nat, c: int := StepSize(n), ChunkCount(n);
    ChunksRoundUp(n, step);
    hide StepSize, ChunkCount;
    TimesMonotone(c, k - 1, step);
    TimesMonotone(k, c - 1, step);
  }

  /** At most 2 * kNumThreads - 1 threads, a bound that 15 documents reach. */
  lemma AtMostFifteenWorkers(n: nat)
    ensures ChunkCount(n) <= 2 * NUM_THREADS - 1
    ensures ChunkCount(15) == 2 * NUM_THREADS - 1
  {
    var step: nat, k: int := StepSize(n), ChunkCount(n);
    ChunksRoundUp(n, step);
    assert n <= 8 * step + 7;
    ChunkCountIs(15, 15);
    hide ChunkCount, Chunks;
    TimesMonotone(15, k - 1, step);
  }

  /**
    Every maximal schedule handles each document exactly once and ends like the sequential run, in a
    number of steps that only depends on the number of documents.
   */
  lemma EveryScheduleIsSequential<T>(task: Task<T>, docs: seq<T>, schedule: seq<Action>)
    requires Execute(task, Init(docs), schedule).Some?
    requires Finished(Execute(task, Init(docs), schedule).value)
    ensures Execute(task, Init(docs), schedule).value.docs == MapAll(task, docs)
    ensures |Execute(task, Init(docs), schedule).value.workers| == ChunkCount(|docs|)
    ensures |schedule| == 2 * |docs| + ChunkCount(|docs|)
  {
    InitConsistent(task, docs);
    ExecuteKeeps(task, docs, Init(docs), schedule);
    var t := Execute(task, Init(docs), schedule).value;
    hide Execute;
    assert !Enabled(t, Spawn);
    forall w: nat | w < |t.workers| ensures t.workers[w].next == t.workers[w].end && t.workers[w].held.None? {
      assert t.workers[w].Sane();
      assert !Enabled(t, Read(w)) && !Enabled(t, Write(w));
    }
    AllDone(t.workers);
    forall i: nat | i < |docs| ensures Handled(t.workers, i) {
      assert Assigned(t.workers, i);
      var w :| 0 <= w < |t.workers| && t.workers[w].begin <= i < t.workers[w].end;
      assert t.workers[w].begin <= i < t.workers[w].next;
    }
    assert t.docs == MapAll(task, docs);
    ChunkCountIs(|docs|, |t.workers|);
  }

  /** No schedule is longer than that, and one that is shorter is not maximal. */
  lemma EveryScheduleIsBounded<T>(task: Task<T>, docs: seq<T>, schedule: seq<Action>)
    requires Execute(task, Init(docs), schedule).Some?
    ensures |schedule| <= 2 * |docs| + ChunkCount(|docs|)
    ensures |schedule| == 2 * |docs| + ChunkCount(|docs|) <==> Finished(Execute(task, Init(docs), schedule).value)
  {
    InitConsistent(task, docs);
    ExecuteKeeps(task, docs, Init(docs), schedule);
    var t := Execute(task, Init(docs), schedule).value;
    hide Execute;
    ProgressAtMostLoad(t.workers);
    ChunkCountAtLeast(|docs|, |t.workers|);
    if Finished(t) {
      EveryScheduleIsSequential(task, docs, schedule);
    } else {
      UnfinishedIsShort(task, docs, t);
    }
  }

  lemma UnfinishedIsShort<T>(task: Task<T>, docs: seq<T>, t: State<T>)
    requires Consistent(task, docs, t) && Counted(t) && !Finished(t)
    ensures |t.workers| + Progress(t.workers) < 2 * |docs| + ChunkCount(|docs|)
  {
    ProgressAtMostLoad(t.workers);
    ChunkCountAtLeast(|docs|, |t.workers|);
    hide ChunkCount, StepSize, Progress, Load;
    var a :| Enabled(t, a);
    match a {
      case Spawn => ChunkCountExceeds(|docs|, |t.workers|);
      case Read(w) => SomeoneBusy(t.workers, w);
      case Write(w) => SomeoneBusy(t.workers, w);
    }
  }

  /** A worker that is still busy keeps progress below the load. */
  lemma {:induction false} SomeoneBusy<T>(workers: seq<Worker<T>>, w: nat)
    requires forall v | 0 <= v < |workers| :: workers[v].Sane()
    requires w < |workers| && workers[w].Busy()
    ensures Progress(workers) < Load(workers)
    decreases |workers|
  {
    if w < |workers| - 1 {
      SomeoneBusy(workers[..|workers| - 1], w);
    } else {
      ProgressAtMostLoad(workers[..|workers| - 1]);
    }
  }

  lemma ChunkCountAtLeast(n: nat, k: nat)
    requires k > 0 ==> (k - 1) * StepSize(n) < n
    ensures k <= ChunkCount(n)
  {
    var step, c := StepSize(n), ChunkCount(n);
    ChunksRoundUp(n, step);
    TimesMonotone(c, k - 1, step);
  }

  lemma ChunkCountExceeds(n: nat, k: nat)
    requires k * StepSize(n) < n
    ensures k < ChunkCount(n)
  {
    Successor(k, StepSize(n));
    ChunkCountAtLeast(n, k + 1);
  }

  lemma {:induction false} ExecuteThen<T>(task: Task<T>, s: State<T>, schedule: seq<Action>, a: Action)
    requires Execute(task, s, schedule).Some?
    requires Enabled(Execute(task, s, schedule).value, a)
    ensures Execute(task, s, schedule + [a]) == Some(Next(task, Execute(task, s, schedule).value, a))
    decreases |schedule|
  {
    if schedule == [] {
      assert schedule + [a] == [a];
      assert Execute(task, s, [a]) == Execute(task, Next(task, s, a), [a][1..]);
    } else {
      assert (schedule + [a])[1..] == schedule[1..] + [a];
      ExecuteThen(task, Next(task, s, schedule[0]), schedule[1..], a);
    }
  }

  /** No schedule gets stuck: each can be continued until all threads are done. */
  lemma {:induction false} EveryScheduleFinishes<T>(task: Task<T>, docs: seq<T>, schedule: seq<Action>)
    returns (full: seq<Action>)
    requires Execute(task, Init(docs), schedule).Some?
    ensures schedule <= full
    ensures Execute(task, Init(docs), full).Some? && Finished(Execute(task, Init(docs), full).value)
    decreases 2 * |docs| + ChunkCount(|docs|) - |schedule|
  {
    EveryScheduleIsBounded(task, docs, schedule);
    var t := Execute(task, Init(docs), schedule).value;
    hide Execute, ChunkCount;
    if Finished(t) {
      full := schedule;
    } else {
      var a :| Enabled(t, a);
      ExecuteThen(task, Init(docs), schedule, a);
      EveryScheduleIsBounded(task, docs, schedule + [a]);
      full := EveryScheduleFinishes(task, docs, schedule + [a]);
    }
  }

  /** Some maximal schedule turns `before` into `after`. */
  ghost predicate Ran<T>(task: Task<T>, before: seq<T>, after: seq<T>) {
    exists schedule :: RanWith(task, before, after, schedule)
  }

  ghost predicate RanWith<T>(task: Task<T>, before: seq<T>, after: seq<T>, schedule: seq<Action>) {
    && Execute(task, Init(before), schedule).Some?
    && Finished(Execute(task, Init(before), schedule).value)
    && Execute(task, Init(before), schedule).value.docs == after
  }

  /** The threads can only end with the sequential result, and they can end with it. */
  lemma RanIsMapAll<T>(task: Task<T>, before: seq<T>, after: seq<T>)
    ensures Ran(task, before, after) <==> after == MapAll(task, before)
  {
    if Ran(task, before, after) {
      var schedule :| RanWith(task, before, after, schedule);
      EveryScheduleIsSequential(task, before, schedule);
    }
    if after == MapAll(task, before) {
      var schedule := EveryScheduleFinishes(task, before, []);
      EveryScheduleIsSequential(task, before, schedule);
      assert RanWith(task, before, after, schedule);
    }
  }
}
