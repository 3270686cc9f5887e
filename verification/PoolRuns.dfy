/** Runs of the thread pool: its operations interleaved with what the workers do. */
module PoolRuns {
  import opened ThreadPool

  /** The pool, whether its sending end still exists, and what has happened so far: the jobs
      submitted (numbered from 0), taken by a worker, finished and panicked, the workers joined,
      and how many workers were ever spawned. */
  datatype World = World(pool: Pool, open: bool, submitted: nat, taken: seq<nat>, finished: seq<nat>,
                         panicked: seq<nat>, joined: seq<Worker>, spawned: nat)

  datatype Action =
    | Respawn(kept: seq<Worker>, quit: seq<Worker>)
    | Submit                // `execute` does so after a respawn, but under another lock
    | Resize(size: usize)   // `set_size` up to its respawn
    | Take(w: nat)          // a worker receives the first job
    | Finish(w: nat)        // its job returns
    | Panic(w: nat)         // its job panics, and so does its thread
    | Close                 // the pool is dropped: its sending end goes first
    | Disconnect(w: nat)    // a worker finds the channel empty and closed

  function WithStatus(v: World, w: nat, s: Status): Pool
    requires w < |v.pool.workers|
  {
    v.pool.(workers := v.pool.workers[w := v.pool.workers[w].(status := s)])
  }

  predicate Is(v: World, w: nat, idle: bool) {
    w < |v.pool.workers| && if idle then v.pool.workers[w].status.Idle? else v.pool.workers[w].status.Running?
  }

  ghost predicate Step(v: World, a: Action, v': World) {
    match a
    case Respawn(kept, quit) =>
      && v.open && Respawned(v.pool, kept, quit, v'.pool)
      && v' == v.(pool := v'.pool, joined := v.joined + quit, spawned := v.spawned + Missing(v.pool.size, |kept|))
    case Submit =>
      v.open && v' == v.(pool := v.pool.(queue := v.pool.queue + [Job.Execute(v.submitted)]), submitted := v.submitted + 1)
    case Resize(size) =>
      v.open && 0 < size <= ISIZE_MAX && v' == v.(pool := Resized(v.pool, size))
    case Take(w) =>
      && Is(v, w, true) && |v.pool.queue| > 0
      && var rest := v.pool.queue[1..];
         (match v.pool.queue[0]
          case Quit => v' == v.(pool := WithStatus(v, w, Returned).(queue := rest))
          case Execute(n) => v' == v.(pool := WithStatus(v, w, Running(n)).(queue := rest), taken := v.taken + [n]))
    case Finish(w) =>
      && Is(v, w, false)
      && v' == v.(pool := WithStatus(v, w, Idle), finished := v.finished + [v.pool.workers[w].status.number])
    case Panic(w) =>
      && Is(v, w, false)
      && v' == v.(pool := WithStatus(v, w, Panicked), panicked := v.panicked + [v.pool.workers[w].status.number])
    case Close =>
      v.open && v' == v.(open := false)
    case Disconnect(w) =>
      && Is(v, w, true) && v.pool.queue == [] && !v.open
      && v' == v.(pool := WithStatus(v, w, Returned))
  }

  ghost predicate StepAt(vs: seq<World>, acts: seq<Action>, i: nat)
    requires i < |acts| < |vs|
  {
    Step(vs[i], acts[i], vs[i + 1])
  }

  /** A run of a pool created with `size` workers. */
  ghost predicate IsRun(size: usize, vs: seq<World>, acts: seq<Action>) {
    && size > 0 && |vs| == |acts| + 1
    && vs[0] == World(Pool(Spawned(0, size), size, size, []), true, 0, [], [], [], [], size)
    && forall i | 0 <= i < |acts| :: StepAt(vs, acts, i)
  }

  // ---------------------------------------------------------------- taking stock of workers

  /** What workers can be counted by. */
  datatype Key = Live | Busy | HasPanicked | RunsJob(number: nat) | RunsOneOf(jobs: set<nat>) | HasId(id: usize)

  predicate Matches(w: Worker, k: Key) {
    match k
    case Live => !w.HasQuit()
    case Busy => w.status.Running?
    case HasPanicked => w.status.Panicked?
    case RunsJob(n) => w.status == Running(n)
    case RunsOneOf(jobs) => w.status.Running? && w.status.number in jobs
    case HasId(id) => w.id == id
  }

  function One(w: Worker, k: Key): nat {
    if Matches(w, k) then 1 else 0
  }

  function Count(ws: seq<Worker>, k: Key): nat {
    if ws == [] then 0 else Count(ws[..|ws| - 1], k) + One(ws[|ws| - 1], k)
  }

  lemma {:induction false} CountConcat(a: seq<Worker>, b: seq<Worker>, k: Key)
    ensures Count(a + b, k) == Count(a, k) + Count(b, k)
  {
    if b == [] {
      assert a + b == a;
    } else {
      CountConcat(a, b[..|b| - 1], k);
      assert (a + b)[..|a + b| - 1] == a + b[..|b| - 1];
    }
  }

  lemma CountSplit(ws: seq<Worker>, i: nat, k: Key)
    requires i < |ws|
    ensures Count(ws, k) == Count(ws[..i] + ws[i + 1..], k) + One(ws[i], k)
  {
    CountConcat(ws[..i], ws[i + 1..], k);
    CountConcat(ws[..i], [ws[i]], k);
    CountConcat(ws[..i] + [ws[i]], ws[i + 1..], k);
    assert ws == ws[..i] + [ws[i]] + ws[i + 1..];
    assert [ws[i]][..0] == [];
  }

  lemma RemoveOne(a: seq<Worker>, i: nat)
    requires i < |a|
    ensures multiset(a) == multiset(a[..i] + a[i + 1..]) + multiset{a[i]}
  {
    assert a == a[..i] + [a[i]] + a[i + 1..];
  }

  lemma RemoveLastFromBoth(a: seq<Worker>, b: seq<Worker>) returns (i: nat)
    requires multiset(a) == multiset(b) && a != []
    ensures i < |b| && b[i] == a[|a| - 1] && multiset(a[..|a| - 1]) == multiset(b[..i] + b[i + 1..])
  {
    var n := |a| - 1;
    assert a[n] in multiset(a);
    i :| 0 <= i < |b| && b[i] == a[n];
    RemoveOne(a, n);
    RemoveOne(b, i);
    assert a[..n] + a[n + 1..] == a[..n];
    SameRemainder(multiset(a[..n]), multiset(b[..i] + b[i + 1..]), a[n]);
  }

  lemma SameRemainder(x: multiset<Worker>, y: multiset<Worker>, w: Worker)
    requires x + multiset{w} == y + multiset{w}
    ensures x == y
  {
    assert (x + multiset{w}) - multiset{w} == x && (y + multiset{w}) - multiset{w} == y;
  }

  /** The order of the workers does not matter. */
  lemma {:induction false} CountOfPermutation(a: seq<Worker>, b: seq<Worker>, k: Key)
    requires multiset(a) == multiset(b)
    ensures Count(a, k) == Count(b, k)
    decreases |a|
  {
    if a == [] {
      assert |b| == |multiset(b)|;
    } else {
      var i := RemoveLastFromBoth(a, b);
      CountOfPermutation(a[..|a| - 1], b[..i] + b[i + 1..], k);
      CountSplit(b, i, k);
    }
  }

  lemma CountUpdate(ws: seq<Worker>, i: nat, w: Worker, k: Key)
    requires i < |ws|
    ensures Count(ws[i := w], k) + One(ws[i], k) == Count(ws, k) + One(w, k)
  {
    CountSplit(ws, i, k);
    CountSplit(ws[i := w], i, k);
    assert ws[i := w][..i] == ws[..i] && ws[i := w][i + 1..] == ws[i + 1..];
  }

  /** Workers that have not quit. */
  lemma {:induction false} CountKept(ws: seq<Worker>)
    requires forall w | w in ws :: !w.HasQuit()
    ensures Count(ws, Live) == |ws| && Count(ws, HasPanicked) == 0
  {
    if ws != [] {
      assert ws[|ws| - 1] in ws;
      CountKept(ws[..|ws| - 1]);
    }
  }

  /** Workers that have quit. */
  lemma {:induction false} CountQuit(ws: seq<Worker>, k: Key)
    requires (forall w | w in ws :: w.HasQuit()) && !k.HasPanicked? && !k.HasId?
    ensures Count(ws, k) == 0
  {
    if ws != [] {
      assert ws[|ws| - 1] in ws;
      CountQuit(ws[..|ws| - 1], k);
    }
  }

  lemma {:induction false} CountSpawned(nextId: usize, n: nat, k: Key)
    requires !k.HasId?
    ensures |Spawned(nextId, n)| == n && Count(Spawned(nextId, n), k) == if k.Live? then n else 0
  {
    if n > 0 {
      CountSpawned(nextId, n - 1, k);
      var ws := Spawned(nextId, n);
      assert ws[..|ws| - 1] == Spawned(nextId, n - 1);
    }
  }

  lemma SpawnedLast(nextId: usize, n: nat)
    requires 0 < n && nextId + n <= WORD
    ensures Spawned(nextId, n) == Spawned(nextId, n - 1) + [Worker(nextId + n - 1, Idle)]
  {
  }

  lemma {:induction false} CountSpawnedIds(nextId: usize, n: nat, id: usize)
    requires nextId + n <= WORD
    ensures Count(Spawned(nextId, n), HasId(id)) == if nextId <= id < nextId + n then 1 else 0
  {
    if n > 0 {
      var front, last := Spawned(nextId, n - 1), Worker(nextId + n - 1, Idle);
      CountSpawnedIds(nextId, n - 1, id);
      SpawnedLast(nextId, n);
      CountConcat(front, [last], HasId(id));
      CountOne(last, HasId(id));
    }
  }

  lemma CountOne(w: Worker, k: Key)
    ensures Count([w], k) == One(w, k)
  {
    assert [w][..0] == [];
  }

  // ---------------------------------------------------------------- taking stock of the queue

  function Quits(queue: seq<Job>): nat {
    if queue == [] then 0 else (if queue[0].Quit? then 1 else 0) + Quits(queue[1..])
  }

  /** The numbers of the queued jobs, in order. */
  function Queued(queue: seq<Job>): seq<nat> {
    if queue == [] then []
    else if queue[0].Quit? then Queued(queue[1..])
    else [queue[0].number] + Queued(queue[1..])
  }

  lemma QuitsConcat(a: seq<Job>, b: seq<Job>)
    ensures Quits(a + b) == Quits(a) + Quits(b)
  {
    if a == [] {
      assert a + b == b;
    } else {
      assert (a + b)[1..] == a[1..] + b;
    }
  }

  lemma QueuedConcat(a: seq<Job>, b: seq<Job>)
    ensures Queued(a + b) == Queued(a) + Queued(b)
  {
    if a == [] {
      assert a + b == b;
    } else {
      assert (a + b)[1..] == a[1..] + b;
    }
  }

  lemma QueueConcat(a: seq<Job>, b: seq<Job>)
    ensures Quits(a + b) == Quits(a) + Quits(b) && Queued(a + b) == Queued(a) + Queued(b)
  {
    QuitsConcat(a, b);
    QueuedConcat(a, b);
  }

  lemma {:induction false} TokensOnly(n: nat)
    ensures Quits(QuitTokens(n)) == n && Queued(QuitTokens(n)) == []
  {
    if n > 0 {
      TokensOnly(n - 1);
      QueueConcat(QuitTokens(n - 1), [Quit]);
    }
  }

  lemma QueueAppendJob(queue: seq<Job>, n: nat)
    ensures Quits(queue + [Job.Execute(n)]) == Quits(queue) && Queued(queue + [Job.Execute(n)]) == Queued(queue) + [n]
  {
    QueueConcat(queue, [Job.Execute(n)]);
    assert [Job.Execute(n)][1..] == [];
  }

  /** 0, 1, ..., n - 1. */
  function UpTo(n: nat): seq<nat> {
    if n == 0 then [] else UpTo(n - 1) + [n - 1]
  }

  // ---------------------------------------------------------------- invariants

  /** There are never more live workers than the target size and the outstanding quit tokens. */
  ghost predicate WellSized(v: World) {
    v.pool.size > 0 && Count(v.pool.workers, Live) <= v.pool.size + Quits(v.pool.queue)
  }

  /** Jobs are taken in the order of submission, and every job taken is running, finished or
      panicked, once. */
  ghost predicate JobsConserved(v: World) {
    && v.taken + Queued(v.pool.queue) == UpTo(v.submitted)
    && forall n: nat :: JobCounted(v, n)
  }

  /** Every panic of a job is the panic of one worker, which has been joined or still waits for it. */
  ghost predicate PanicsReported(v: World) {
    |v.panicked| == Count(v.joined, HasPanicked) + Count(v.pool.workers, HasPanicked)
  }

  ghost predicate IdsDistinct(v: World) {
    && v.pool.nextId == v.spawned % WORD
    && (v.spawned <= WORD ==> forall id: usize :: Count(v.pool.workers, HasId(id)) <= if id < v.spawned then 1 else 0)
  }

  ghost predicate Invariant(v: World) {
    WellSized(v) && JobsConserved(v) && PanicsReported(v) && IdsDistinct(v)
  }

  lemma RespawnCount(p: Pool, kept: seq<Worker>, quit: seq<Worker>, p': Pool, k: Key)
    requires Respawned(p, kept, quit, p')
    ensures Count(p.workers, k) == Count(kept, k) + Count(quit, k)
    ensures Count(p'.workers, k) == Count(kept, k) + Count(Spawned(p.nextId, Missing(p.size, |kept|)), k)
  {
    CountConcat(kept, quit, k);
    CountOfPermutation(kept + quit, p.workers, k);
    CountConcat(kept, Spawned(p.nextId, Missing(p.size, |kept|)), k);
  }

  /** A respawn leaves only live workers, at least as many as the target size, and never fewer
      than there were. */
  lemma RespawnLive(p: Pool, kept: seq<Worker>, quit: seq<Worker>, p': Pool)
    requires Respawned(p, kept, quit, p')
    ensures var live := Count(p.workers, Live);
            Count(p'.workers, Live) == |p'.workers| == if live < p.size then p.size else live
  {
    RespawnCount(p, kept, quit, p', Live);
    CountKept(kept);
    CountQuit(quit, Live);
    CountSpawned(p.nextId, Missing(p.size, |kept|), Live);
  }

  lemma RespawnKeepsPanics(v: World, a: Action, v': World)
    requires a.Respawn? && Step(v, a, v') && PanicsReported(v)
    ensures PanicsReported(v')
  {
    RespawnCount(v.pool, a.kept, a.quit, v'.pool, HasPanicked);
    CountKept(a.kept);
    CountSpawned(v.pool.nextId, Missing(v.pool.size, |a.kept|), HasPanicked);
    CountConcat(v.joined, a.quit, HasPanicked);
  }

  lemma RespawnKeepsIds(v: World, a: Action, v': World)
    requires a.Respawn? && Step(v, a, v') && IdsDistinct(v)
    ensures IdsDistinct(v')
  {
    var p, n := v.pool, Missing(v.pool.size, |a.kept|);
    NextIdAdvances(v.spawned, n, p.nextId);
    if v'.spawned <= WORD {
      forall id: usize ensures Count(v'.pool.workers, HasId(id)) <= if id < v'.spawned then 1 else 0 {
        RespawnCount(p, a.kept, a.quit, v'.pool, HasId(id));
        if n > 0 { CountSpawnedIds(p.nextId, n, id); }
        assert Count(v.pool.workers, HasId(id)) <= if id < v.spawned then 1 else 0;
      }
    }
  }

  lemma RespawnKeepsJobs(v: World, a: Action, v': World)
    requires a.Respawn? && Step(v, a, v') && JobsConserved(v)
    ensures JobsConserved(v')
  {
    forall n: nat ensures JobCounted(v', n) {
      assert JobCounted(v, n);
      RespawnCount(v.pool, a.kept, a.quit, v'.pool, RunsJob(n));
      CountQuit(a.quit, RunsJob(n));
      CountSpawned(v.pool.nextId, Missing(v.pool.size, |a.kept|), RunsJob(n));
    }
  }

  lemma NextIdAdvances(spawned: nat, n: nat, nextId: usize)
    requires nextId == spawned % WORD
    ensures (nextId + n) % WORD == (spawned + n) % WORD
    ensures spawned + n <= WORD && n > 0 ==> nextId == spawned
  {
    assert spawned == WORD * (spawned / WORD) + nextId;
    ModAddMultiple(nextId + n, spawned / WORD);
  }

  lemma {:induction false} ModAddMultiple(x: nat, k: nat)
    ensures (x + WORD * k) % WORD == x % WORD
    decreases k
  {
    if k > 0 {
      ModAddMultiple(x, k - 1);
      assert x + WORD * k == (x + WORD * (k - 1)) + WORD;
    }
  }

  lemma RespawnKeeps(v: World, a: Action, v': World)
    requires Invariant(v) && a.Respawn? && Step(v, a, v')
    ensures Invariant(v')
  {
    RespawnLive(v.pool, a.kept, a.quit, v'.pool);
    RespawnKeepsPanics(v, a, v');
    RespawnKeepsIds(v, a, v');
    RespawnKeepsJobs(v, a, v');
  }

  lemma SubmitKeeps(v: World, a: Action, v': World)
    requires Invariant(v) && a.Submit? && Step(v, a, v')
    ensures Invariant(v')
  {
    QueueAppendJob(v.pool.queue, v.submitted);
    forall n: nat ensures JobCounted(v', n) { assert JobCounted(v, n); }
  }

  lemma ResizeKeeps(v: World, a: Action, v': World)
    requires Invariant(v) && a.Resize? && Step(v, a, v')
    ensures Invariant(v')
  {
    var surplus := Missing(v.pool.size, a.size);
    TokensOnly(surplus);
    QueueConcat(v.pool.queue, QuitTokens(surplus));
    forall n: nat ensures JobCounted(v', n) { assert JobCounted(v, n); }
  }

  /** What a worker does on its own changes that worker only. */
  lemma WorkerCount(v: World, a: Action, v': World, k: Key)
    requires (a.Take? || a.Finish? || a.Panic? || a.Disconnect?) && Step(v, a, v')
    ensures a.w < |v.pool.workers| == |v'.pool.workers|
    ensures Count(v'.pool.workers, k) + One(v.pool.workers[a.w], k) == Count(v.pool.workers, k) + One(v'.pool.workers[a.w], k)
    ensures v'.pool.workers[a.w].id == v.pool.workers[a.w].id && v'.pool.size == v.pool.size && v'.pool.nextId == v.pool.nextId
  {
    CountUpdate(v.pool.workers, a.w, v'.pool.workers[a.w], k);
  }

  lemma WorkerKeepsSize(v: World, a: Action, v': World)
    requires WellSized(v) && (a.Take? || a.Finish? || a.Panic? || a.Disconnect?) && Step(v, a, v')
    ensures WellSized(v')
  {
    WorkerCount(v, a, v', Live);
  }

  lemma AppendTimes(s: seq<nat>, x: nat, n: nat)
    ensures multiset(s + [x])[n] == multiset(s)[n] + if x == n then 1 else 0
  {
  }

  /** Job `n` is running, finished or panicked as often as it was taken. */
  ghost predicate JobCounted(v: World, n: nat) {
    multiset(v.taken)[n] == multiset(v.finished)[n] + multiset(v.panicked)[n] + Count(v.pool.workers, RunsJob(n))
  }

  lemma TakingCounts(v: World, a: Action, v': World, n: nat)
    requires a.Take? && Step(v, a, v') && JobCounted(v, n)
    ensures JobCounted(v', n)
  {
    WorkerCount(v, a, v', RunsJob(n));
    if v.pool.queue[0].Execute? { AppendTimes(v.taken, v.pool.queue[0].number, n); }
  }

  lemma FinishingCounts(v: World, a: Action, v': World, n: nat)
    requires a.Finish? && Step(v, a, v') && JobCounted(v, n)
    ensures JobCounted(v', n)
  {
    WorkerCount(v, a, v', RunsJob(n));
    AppendTimes(v.finished, v.pool.workers[a.w].status.number, n);
  }

  lemma PanickingCounts(v: World, a: Action, v': World, n: nat)
    requires a.Panic? && Step(v, a, v') && JobCounted(v, n)
    ensures JobCounted(v', n)
  {
    WorkerCount(v, a, v', RunsJob(n));
    AppendTimes(v.panicked, v.pool.workers[a.w].status.number, n);
  }

  lemma WorkerKeepsJobCount(v: World, a: Action, v': World, n: nat)
    requires (a.Take? || a.Finish? || a.Panic? || a.Disconnect?) && Step(v, a, v') && JobCounted(v, n)
    ensures JobCounted(v', n)
  {
    if a.Take? { TakingCounts(v, a, v', n); }
    else if a.Finish? { FinishingCounts(v, a, v', n); }
    else if a.Panic? { PanickingCounts(v, a, v', n); }
    else { WorkerCount(v, a, v', RunsJob(n)); }
  }

  lemma WorkerKeepsOrder(v: World, a: Action, v': World)
    requires (a.Take? || a.Finish? || a.Panic? || a.Disconnect?) && Step(v, a, v')
    ensures v'.taken + Queued(v'.pool.queue) == v.taken + Queued(v.pool.queue) && v'.submitted == v.submitted
  {
  }

  lemma WorkerKeepsJobs(v: World, a: Action, v': World)
    requires JobsConserved(v) && (a.Take? || a.Finish? || a.Panic? || a.Disconnect?) && Step(v, a, v')
    ensures JobsConserved(v')
  {
    WorkerKeepsOrder(v, a, v');
    forall n: nat ensures JobCounted(v', n) {
      assert JobCounted(v, n);
      WorkerKeepsJobCount(v, a, v', n);
    }
  }

  lemma WorkerKeepsIds(v: World, a: Action, v': World)
    requires IdsDistinct(v) && (a.Take? || a.Finish? || a.Panic? || a.Disconnect?) && Step(v, a, v')
    ensures IdsDistinct(v')
  {
    WorkerCount(v, a, v', Live);
    forall id: usize ensures Count(v'.pool.workers, HasId(id)) == Count(v.pool.workers, HasId(id)) {
      WorkerCount(v, a, v', HasId(id));
    }
  }

  lemma WorkerKeeps(v: World, a: Action, v': World)
    requires Invariant(v) && (a.Take? || a.Finish? || a.Panic? || a.Disconnect?) && Step(v, a, v')
    ensures Invariant(v')
  {
    WorkerKeepsSize(v, a, v');
    WorkerKeepsJobs(v, a, v');
    WorkerKeepsIds(v, a, v');
    WorkerCount(v, a, v', HasPanicked);
  }

  lemma StepKeepsInvariant(v: World, a: Action, v': World)
    requires Invariant(v) && Step(v, a, v')
    ensures Invariant(v')
  {
    match a
    case Respawn(_, _) => RespawnKeeps(v, a, v');
    case Submit => SubmitKeeps(v, a, v');
    case Resize(_) => ResizeKeeps(v, a, v');
    case Close => forall n: nat ensures JobCounted(v', n) { assert JobCounted(v, n); }
    case Take(_) => WorkerKeeps(v, a, v');
    case Finish(_) => WorkerKeeps(v, a, v');
    case Panic(_) => WorkerKeeps(v, a, v');
    case Disconnect(_) => WorkerKeeps(v, a, v');
  }

  // ---------------------------------------------------------------- theorems

  lemma RunStep(size: usize, vs: seq<World>, acts: seq<Action>, i: nat, next: nat)
    requires IsRun(size, vs, acts) && i < |acts| && next == i + 1
    ensures Step(vs[i], acts[i], vs[next])
  {
    assert StepAt(vs, acts, i);
  }

  lemma StartKeepsIds(size: usize, v: World)
    requires size > 0 && v == World(Pool(Spawned(0, size), size, size, []), true, 0, [], [], [], [], size)
    ensures IdsDistinct(v)
  {
    forall id: usize ensures Count(v.pool.workers, HasId(id)) <= if id < size then 1 else 0 { CountSpawnedIds(0, size, id); }
  }

  lemma StartIsFine(size: usize, v: World)
    requires size > 0 && v == World(Pool(Spawned(0, size), size, size, []), true, 0, [], [], [], [], size)
    ensures Invariant(v)
  {
    StartKeepsIds(size, v);
    CountSpawned(0, size, Live);
    CountSpawned(0, size, HasPanicked);
    forall n: nat ensures Count(v.pool.workers, RunsJob(n)) == 0 { CountSpawned(0, size, RunsJob(n)); }
  }

  lemma {:induction false} RunKeepsInvariant(size: usize, vs: seq<World>, acts: seq<Action>, n: nat)
    requires IsRun(size, vs, acts) && n <= |acts|
    ensures Invariant(vs[n])
  {
    if n == 0 {
      StartIsFine(size, vs[0]);
    } else {
      RunKeepsInvariant(size, vs, acts, n - 1);
      RunStep(size, vs, acts, n - 1, n);
      StepKeepsInvariant(vs[n - 1], acts[n - 1], vs[n]);
    }
  }

  /** Live workers never outnumber the target size plus the quit tokens still queued. */
  lemma LiveWorkersAreBounded(size: usize, vs: seq<World>, acts: seq<Action>, n: nat)
    requires IsRun(size, vs, acts) && n <= |acts|
    ensures Count(vs[n].pool.workers, Live) <= vs[n].pool.size + Quits(vs[n].pool.queue)
  {
    RunKeepsInvariant(size, vs, acts, n);
  }

  /** After every respawn all workers in the pool are live, there are at least as many as the
      target size, and exactly as many if no quit token is queued. */
  lemma RespawnRestoresSize(size: usize, vs: seq<World>, acts: seq<Action>, n: nat)
    requires IsRun(size, vs, acts) && n < |acts| && acts[n].Respawn?
    ensures var p := vs[n + 1].pool;
            && |p.workers| == Count(p.workers, Live) >= p.size
            && (Quits(p.queue) == 0 ==> |p.workers| == p.size)
  {
    RunKeepsInvariant(size, vs, acts, n + 1);
    RunStep(size, vs, acts, n, n + 1);
    RespawnLive(vs[n].pool, acts[n].kept, acts[n].quit, vs[n + 1].pool);
  }

  lemma {:induction false} TimesUpTo(k: nat, n: nat)
    ensures multiset(UpTo(k))[n] == if n < k then 1 else 0
  {
    if k > 0 {
      TimesUpTo(k - 1, n);
      AppendTimes(UpTo(k - 1), k - 1, n);
    }
  }

  /** Every submitted job is exactly one of queued, running, finished and panicked; nothing else is
      any of these; and jobs are taken in the order of their submission. */
  lemma EveryJobIsSomewhereOnce(size: usize, vs: seq<World>, acts: seq<Action>, n: nat, job: nat)
    requires IsRun(size, vs, acts) && n <= |acts|
    ensures var v := vs[n];
            && multiset(Queued(v.pool.queue))[job] + Count(v.pool.workers, RunsJob(job))
               + multiset(v.finished)[job] + multiset(v.panicked)[job] == (if job < v.submitted then 1 else 0)
            && v.taken <= UpTo(v.submitted)
  {
    RunKeepsInvariant(size, vs, acts, n);
    assert JobCounted(vs[n], job);
    TimesUpTo(vs[n].submitted, job);
    assert multiset(vs[n].taken + Queued(vs[n].pool.queue)) == multiset(vs[n].taken) + multiset(Queued(vs[n].pool.queue));
  }

  lemma {:induction false} SameIdCountsTwice(ws: seq<Worker>, i: nat, j: nat)
    requires i < j < |ws| && ws[i].id == ws[j].id
    ensures Count(ws, HasId(ws[i].id)) >= 2
  {
    var rest := ws[..j] + ws[j + 1..];
    CountSplit(ws, j, HasId(ws[i].id));
    CountSplit(rest, i, HasId(ws[i].id));
    assert rest[i] == ws[i];
  }

  /** Worker ids are distinct until the counter has wrapped around. */
  lemma WorkerIdsAreDistinct(size: usize, vs: seq<World>, acts: seq<Action>, n: nat, i: nat, j: nat)
    requires IsRun(size, vs, acts) && n <= |acts| && vs[n].spawned <= WORD
    requires i < j < |vs[n].pool.workers|
    ensures vs[n].pool.workers[i].id != vs[n].pool.workers[j].id
  {
    RunKeepsInvariant(size, vs, acts, n);
    var ws := vs[n].pool.workers;
    assert Count(ws, HasId(ws[i].id)) <= 1;
    if ws[i].id == ws[j].id { SameIdCountsTwice(ws, i, j); }
  }

  /** Workers receive jobs and quit tokens in the order in which they were sent: only the front of the
      queue is taken, and only its back grows. So what was queued before a resize comes before its
      tokens. */
  lemma QueueIsInOrder(v: World, a: Action, v': World)
    requires Step(v, a, v')
    ensures if a.Take? then v'.pool.queue == v.pool.queue[1..] else v.pool.queue <= v'.pool.queue
    ensures a.Respawn? || a.Finish? || a.Panic? || a.Close? || a.Disconnect? ==> v'.pool.queue == v.pool.queue
  {
  }

  // ---------------------------------------------------------------- draining on drop

  /** What is left to do once the pool has been closed. */
  function Remaining(v: World): nat {
    2 * |v.pool.queue| + Count(v.pool.workers, Live) + Count(v.pool.workers, Busy)
  }

  /** Dropping terminates: every step of a closed pool lowers what remains. */
  lemma ClosedStepsGoDown(v: World, a: Action, v': World)
    requires !v.open && Step(v, a, v')
    ensures !v'.open && Remaining(v') < Remaining(v)
  {
    WorkerCount(v, a, v', Live);
    WorkerCount(v, a, v', Busy);
  }
}
