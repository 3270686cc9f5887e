/** What becomes of the jobs of a thread pool that is dropped: exactly when panics leave some of
    them behind. */
module PoolDrain {
  import opened ThreadPool
  import opened PoolRuns

  /** The pool is not resized, and just the jobs in `doomed` panic. */
  predicate Obeys(v: World, a: Action, doomed: set<nat>) {
    match a
    case Resize(_) => false
    case Panic(w) => Is(v, w, false) && v.pool.workers[w].status.number in doomed
    case Finish(w) => Is(v, w, false) && v.pool.workers[w].status.number !in doomed
    case _ => true
  }

  ghost predicate ObeysAt(vs: seq<World>, acts: seq<Action>, doomed: set<nat>, i: nat)
    requires i < |acts| < |vs|
  {
    Obeys(vs[i], acts[i], doomed)
  }

  ghost predicate IsDoomedRun(size: usize, doomed: set<nat>, vs: seq<World>, acts: seq<Action>) {
    IsRun(size, vs, acts) && forall i | 0 <= i < |acts| :: ObeysAt(vs, acts, doomed, i)
  }

  ghost predicate AllQuit(v: World) {
    forall w | w in v.pool.workers :: w.HasQuit()
  }

  /** The run submits `jobs` jobs and ends when the pool has been dropped and all workers quit. */
  ghost predicate IsDropped(size: usize, doomed: set<nat>, jobs: nat, vs: seq<World>, acts: seq<Action>, last: World) {
    && IsDoomedRun(size, doomed, vs, acts) && vs[|acts|] == last
    && !last.open && AllQuit(last) && last.submitted == jobs
  }

  /** As long as some worker is live, a closed pool can go on, provided that jobs return or panic. */
  lemma ClosedPoolCanGoOn(v: World, w: nat, doomed: set<nat>) returns (a: Action, v': World)
    requires !v.open && w < |v.pool.workers| && !v.pool.workers[w].HasQuit()
    ensures Step(v, a, v') && Obeys(v, a, doomed)
  {
    if v.pool.workers[w].status.Running? {
      var n := v.pool.workers[w].status.number;
      if n in doomed {
        a := Panic(w);
        v' := v.(pool := WithStatus(v, w, Panicked), panicked := v.panicked + [n]);
      } else {
        a := Finish(w);
        v' := v.(pool := WithStatus(v, w, Idle), finished := v.finished + [n]);
      }
    } else if v.pool.queue == [] {
      a := Disconnect(w);
      v' := v.(pool := WithStatus(v, w, Returned));
    } else {
      a := Take(w);
      var rest := v.pool.queue[1..];
      match v.pool.queue[0]
      case Quit => v' := v.(pool := WithStatus(v, w, Returned).(queue := rest));
      case Execute(n) => v' := v.(pool := WithStatus(v, w, Running(n)).(queue := rest), taken := v.taken + [n]);
    }
  }

  // ---------------------------------------------------------------- doomed jobs

  /** How many of the jobs numbered below `n` panic. */
  function CountBelow(doomed: set<nat>, n: nat): nat {
    if n == 0 then 0 else CountBelow(doomed, n - 1) + if n - 1 in doomed then 1 else 0
  }

  lemma {:induction false} CountBelowGrows(doomed: set<nat>, m: nat, n: nat)
    requires m <= n
    ensures CountBelow(doomed, m) <= CountBelow(doomed, n)
    decreases n
  {
    if m < n { CountBelowGrows(doomed, m, n - 1); }
  }

  /** It is the number of members of `doomed` below `n`. */
  lemma {:induction false} CountBelowIsSize(doomed: set<nat>, n: nat)
    ensures CountBelow(doomed, n) == |set j | j in doomed && j < n|
  {
    var below := set j | j in doomed && j < n;
    if n > 0 {
      CountBelowIsSize(doomed, n - 1);
      var before := set j | j in doomed && j < n - 1;
      assert below == before + if n - 1 in doomed then {n - 1} else {};
    } else {
      assert below == {};
    }
  }

  lemma {:induction false} UpToAt(n: nat, i: nat)
    requires i < n
    ensures |UpTo(n)| == n && UpTo(n)[i] == i
  {
    if i < n - 1 { UpToAt(n - 1, i); } else if n > 1 { UpToAt(n - 1, 0); }
  }

  /** Of the jobs taken, each doomed one is running or has panicked; what has finished was not doomed. */
  ghost predicate Fated(v: World, doomed: set<nat>) {
    && |v.panicked| + Count(v.pool.workers, RunsOneOf(doomed)) == CountBelow(doomed, |v.taken|)
    && (forall n | n in v.finished :: n !in doomed)
    && (forall n | n in v.panicked :: n in doomed)
  }

  /** There are workers enough, and they return only when the pool is closed and nothing is left. */
  ghost predicate Staffed(v: World, size: nat) {
    && v.pool.size == size <= |v.pool.workers| && Quits(v.pool.queue) == 0
    && forall w | w in v.pool.workers && w.status.Returned? :: !v.open && v.pool.queue == []
  }

  lemma NextJob(v: World)
    requires JobsConserved(v) && v.pool.queue != [] && Quits(v.pool.queue) == 0
    ensures v.pool.queue[0] == Job.Execute(|v.taken|) && |v.taken| < v.submitted
  {
    var all := v.taken + Queued(v.pool.queue);
    assert all[|v.taken|] == v.pool.queue[0].number;
    UpToLength(v.submitted);
    UpToAt(v.submitted, |v.taken|);
  }

  lemma {:induction false} UpToLength(n: nat)
    ensures |UpTo(n)| == n
  {
    if n > 0 { UpToLength(n - 1); }
  }

  lemma TakeKeepsFated(v: World, a: Action, v': World, doomed: set<nat>)
    requires JobsConserved(v) && Quits(v.pool.queue) == 0 && Fated(v, doomed) && a.Take? && Step(v, a, v')
    ensures Fated(v', doomed)
  {
    NextJob(v);
    WorkerCount(v, a, v', RunsOneOf(doomed));
  }

  lemma RespawnKeepsFated(v: World, a: Action, v': World, doomed: set<nat>)
    requires Fated(v, doomed) && a.Respawn? && Step(v, a, v')
    ensures Fated(v', doomed)
  {
    RespawnCount(v.pool, a.kept, a.quit, v'.pool, RunsOneOf(doomed));
    CountQuit(a.quit, RunsOneOf(doomed));
    CountSpawned(v.pool.nextId, Missing(v.pool.size, |a.kept|), RunsOneOf(doomed));
  }

  lemma StepKeepsFated(v: World, a: Action, v': World, doomed: set<nat>)
    requires JobsConserved(v) && Quits(v.pool.queue) == 0 && Fated(v, doomed) && Step(v, a, v') && Obeys(v, a, doomed)
    ensures Fated(v', doomed)
  {
    match a
    case Respawn(_, _) => RespawnKeepsFated(v, a, v', doomed);
    case Submit =>
    case Close =>
    case Take(_) => TakeKeepsFated(v, a, v', doomed);
    case Finish(_) => WorkerCount(v, a, v', RunsOneOf(doomed));
    case Panic(_) => WorkerCount(v, a, v', RunsOneOf(doomed));
    case Disconnect(_) => WorkerCount(v, a, v', RunsOneOf(doomed));
  }

  lemma {:induction false} SpawnedAreIdle(nextId: usize, n: nat)
    ensures forall w | w in Spawned(nextId, n) :: w.status.Idle?
  {
    if n > 0 { SpawnedAreIdle(nextId, n - 1); }
  }

  lemma RespawnKeepsStaffed(v: World, a: Action, v': World, size: nat)
    requires Staffed(v, size) && a.Respawn? && Step(v, a, v')
    ensures Staffed(v', size)
  {
    RespawnLive(v.pool, a.kept, a.quit, v'.pool);
    SpawnedAreIdle(v.pool.nextId, Missing(v.pool.size, |a.kept|));
  }

  lemma StepKeepsStaffed(v: World, a: Action, v': World, size: nat)
    requires Staffed(v, size) && Step(v, a, v') && !a.Resize?
    ensures Staffed(v', size)
  {
    match a
    case Respawn(_, _) => RespawnKeepsStaffed(v, a, v', size);
    case Submit => QueueAppendJob(v.pool.queue, v.submitted);
    case Close =>
    case Take(w) => OneWorkerChanges(v, w, v'.pool);
    case Finish(w) => OneWorkerChanges(v, w, v'.pool);
    case Panic(w) => OneWorkerChanges(v, w, v'.pool);
    case Disconnect(_) =>
  }

  lemma OneWorkerChanges(v: World, w: nat, p: Pool)
    requires w < |v.pool.workers| == |p.workers| && p.workers == v.pool.workers[w := p.workers[w]]
    ensures forall x | x in p.workers && x != p.workers[w] :: x in v.pool.workers
  {
  }

  // ---------------------------------------------------------------- runs

  ghost predicate InHand(v: World, size: nat, doomed: set<nat>) {
    Invariant(v) && Fated(v, doomed) && Staffed(v, size)
  }

  lemma StartIsInHand(size: usize, v: World, doomed: set<nat>)
    requires size > 0 && v == World(Pool(Spawned(0, size), size, size, []), true, 0, [], [], [], [], size)
    ensures InHand(v, size, doomed)
  {
    StartIsFine(size, v);
    SpawnedAreIdle(0, size);
    CountSpawned(0, size, RunsOneOf(doomed));
  }

  lemma InHandAt(size: usize, doomed: set<nat>, vs: seq<World>, acts: seq<Action>, i: nat, next: nat)
    requires IsDoomedRun(size, doomed, vs, acts) && i < |acts| && next == i + 1 && InHand(vs[i], size, doomed)
    ensures InHand(vs[next], size, doomed)
  {
    RunStep(size, vs, acts, i, next);
    assert ObeysAt(vs, acts, doomed, i);
    StepKeepsInvariant(vs[i], acts[i], vs[next]);
    StepKeepsFated(vs[i], acts[i], vs[next], doomed);
    StepKeepsStaffed(vs[i], acts[i], vs[next], size);
  }

  lemma {:induction false} RunIsInHand(size: usize, doomed: set<nat>, vs: seq<World>, acts: seq<Action>, n: nat)
    requires IsDoomedRun(size, doomed, vs, acts) && n <= |acts|
    ensures InHand(vs[n], size, doomed)
  {
    if n == 0 {
      StartIsInHand(size, vs[0], doomed);
    } else {
      RunIsInHand(size, doomed, vs, acts, n - 1);
      InHandAt(size, doomed, vs, acts, n - 1, n);
    }
  }

  lemma {:induction false} CountPanicked(ws: seq<Worker>)
    requires forall w | w in ws :: w.status.Panicked?
    ensures Count(ws, HasPanicked) == |ws|
  {
    if ws != [] {
      assert ws[|ws| - 1] in ws;
      CountPanicked(ws[..|ws| - 1]);
    }
  }

  /** Work is left over only if at least `size` jobs before the last one panic. */
  lemma LeftoverNeedsPanics(v: World, size: nat, doomed: set<nat>)
    requires InHand(v, size, doomed) && AllQuit(v) && v.pool.queue != []
    ensures CountBelow(doomed, Missing(v.submitted, 1)) >= size
  {
    CountPanicked(v.pool.workers);
    CountQuit(v.pool.workers, RunsOneOf(doomed));
    NextJob(v);
    CountBelowGrows(doomed, |v.taken|, v.submitted - 1);
  }

  lemma AppearsOnce(s: seq<nat>, n: nat)
    requires n !in s
    ensures multiset(s)[n] == 0
  {
  }

  /** If fewer than `size` jobs before the last one panic, a pool that has been dropped has run every
      submitted job exactly once: the doomed ones have panicked, and the others have finished. */
  lemma DropRunsEveryJobOnce(size: usize, doomed: set<nat>, jobs: nat, vs: seq<World>, acts: seq<Action>, last: World, job: nat)
    requires IsDropped(size, doomed, jobs, vs, acts, last) && CountBelow(doomed, Missing(jobs, 1)) < size
    ensures last.pool.queue == []
    ensures multiset(last.finished)[job] == if job < jobs && job !in doomed then 1 else 0
    ensures multiset(last.panicked)[job] == if job < jobs && job in doomed then 1 else 0
  {
    RunIsInHand(size, doomed, vs, acts, |acts|);
    if last.pool.queue != [] { LeftoverNeedsPanics(last, size, doomed); }
    EveryJobIsSomewhereOnce(size, vs, acts, |acts|, job);
    CountQuit(last.pool.workers, RunsJob(job));
    if job in doomed { AppearsOnce(last.finished, job); } else { AppearsOnce(last.panicked, job); }
  }

  // ---------------------------------------------------------------- a run that leaves work over

  /** Some run of the pool, in which just the doomed jobs panic, leads to `v`. */
  ghost predicate Reaches(size: usize, doomed: set<nat>, v: World) {
    exists vs, acts :: RunsTo(size, doomed, vs, acts, v)
  }

  ghost predicate RunsTo(size: usize, doomed: set<nat>, vs: seq<World>, acts: seq<Action>, v: World) {
    IsDoomedRun(size, doomed, vs, acts) && vs[|acts|] == v
  }

  lemma ReachesNext(size: usize, doomed: set<nat>, v: World, a: Action, v': World)
    requires Reaches(size, doomed, v) && Step(v, a, v') && Obeys(v, a, doomed)
    ensures Reaches(size, doomed, v')
  {
    var vs, acts :| RunsTo(size, doomed, vs, acts, v);
    var vs', acts' := vs + [v'], acts + [a];
    forall i | 0 <= i < |acts'| ensures StepAt(vs', acts', i) && ObeysAt(vs', acts', doomed, i) {
      if i < |acts| { assert StepAt(vs, acts, i) && ObeysAt(vs, acts, doomed, i); }
    }
    assert RunsTo(size, doomed, vs', acts', v');
  }

  function Jobs(n: nat): seq<Job> {
    if n == 0 then [] else Jobs(n - 1) + [Job.Execute(n - 1)]
  }

  function Filled(size: usize, n: nat): World {
    World(Pool(Spawned(0, size), size, size, Jobs(n)), true, n, [], [], [], [], size)
  }

  /** Submitting jobs to idle workers, each after a respawn that has nothing to do. */
  lemma {:induction false} CanSubmit(size: usize, doomed: set<nat>, n: nat)
    requires size > 0
    ensures Reaches(size, doomed, Filled(size, n))
  {
    if n == 0 {
      assert RunsTo(size, doomed, [Filled(size, 0)], [], Filled(size, 0));
    } else {
      CanSubmit(size, doomed, n - 1);
      var v := Filled(size, n - 1);
      NothingToRespawn(v, size);
      ReachesNext(size, doomed, v, Respawn(v.pool.workers, []), v);
      ReachesNext(size, doomed, v, Submit, Filled(size, n));
    }
  }

  lemma NoneMissing(p: Pool)
    requires |p.workers| == p.size && forall w | w in p.workers :: !w.HasQuit()
    ensures Respawned(p, p.workers, [], p)
  {
    assert p.workers + [] == p.workers;
    assert Spawned(p.nextId, 0) == [];
  }

  lemma NothingToRespawn(v: World, size: usize)
    requires v.open && v.pool.workers == Spawned(0, size) && v.pool.size == size == v.pool.nextId
    ensures Step(v, Respawn(v.pool.workers, []), v)
  {
    SpawnedAreIdle(0, size);
    CountSpawned(0, size, Live);
    NoneMissing(v.pool);
    assert v.joined + [] == v.joined;
  }

  /** Workers are idle or have panicked, and none has been joined. */
  ghost predicate Between(v: World, size: nat, jobs: nat) {
    && v.open && v.joined == [] && |v.pool.workers| == size && v.submitted == jobs
    && forall w | w in v.pool.workers :: w.status.Idle? || w.status.Panicked?
  }

  lemma {:induction false} SomeoneIdle(ws: seq<Worker>) returns (w: nat)
    requires (forall x | x in ws :: x.status.Idle? || x.status.Panicked?) && Count(ws, HasPanicked) < |ws|
    ensures w < |ws| && ws[w].status.Idle?
  {
    var n := |ws| - 1;
    if ws[n].status.Idle? { return n; }
    assert ws[n] in ws;
    w := SomeoneIdle(ws[..n]);
  }

  lemma CountWithin(ws: seq<Worker>, k: Key)
    ensures Count(ws, k) <= |ws|
  {
  }

  lemma NoneRuns(v: World, size: nat, jobs: nat, doomed: set<nat>)
    requires Between(v, size, jobs) && InHand(v, size, doomed)
    ensures Count(v.pool.workers, HasPanicked) == CountBelow(doomed, |v.taken|)
  {
    NoneBusy(v.pool.workers, doomed);
  }

  lemma {:induction false} NoneBusy(ws: seq<Worker>, doomed: set<nat>)
    requires forall w | w in ws :: !w.status.Running?
    ensures Count(ws, RunsOneOf(doomed)) == 0
  {
    if ws != [] {
      assert ws[|ws| - 1] in ws;
      NoneBusy(ws[..|ws| - 1], doomed);
    }
  }

  /** An idle worker takes the next job and brings it to its end. */
  lemma ServeOne(size: usize, doomed: set<nat>, jobs: nat, v: World, w: nat) returns (v': World)
    requires Reaches(size, doomed, v) && Between(v, size, jobs) && InHand(v, size, doomed)
    requires w < size && v.pool.workers[w].status.Idle? && v.pool.queue != []
    ensures Reaches(size, doomed, v') && Between(v', size, jobs) && |v'.taken| == |v.taken| + 1
  {
    NextJob(v);
    var n := |v.taken|;
    var taking := v.(pool := WithStatus(v, w, Running(n)).(queue := v.pool.queue[1..]), taken := v.taken + [n]);
    ReachesNext(size, doomed, v, Take(w), taking);
    if n in doomed {
      v' := taking.(pool := WithStatus(taking, w, Panicked), panicked := taking.panicked + [n]);
      ReachesNext(size, doomed, taking, Panic(w), v');
    } else {
      v' := taking.(pool := WithStatus(taking, w, Idle), finished := taking.finished + [n]);
      ReachesNext(size, doomed, taking, Finish(w), v');
    }
  }

  lemma ReachedIsInHand(size: usize, doomed: set<nat>, v: World)
    requires Reaches(size, doomed, v)
    ensures InHand(v, size, doomed)
  {
    var vs, acts :| RunsTo(size, doomed, vs, acts, v);
    RunIsInHand(size, doomed, vs, acts, |acts|);
  }

  lemma {:induction false} CanStrand(size: usize, doomed: set<nat>, jobs: nat, v: World) returns (last: World)
    requires Reaches(size, doomed, v) && Between(v, size, jobs) && |v.taken| < jobs
    requires CountBelow(doomed, jobs - 1) >= size
    ensures Reaches(size, doomed, last) && last.open && AllQuit(last) && last.submitted == jobs && last.pool.queue != []
    decreases jobs - |v.taken|
  {
    ReachedIsInHand(size, doomed, v);
    NoneRuns(v, size, jobs, doomed);
    QueueIsNotEmpty(v);
    CountWithin(v.pool.workers, HasPanicked);
    if Count(v.pool.workers, HasPanicked) < size {
      var w := SomeoneIdle(v.pool.workers);
      var v' := ServeOne(size, doomed, jobs, v, w);
      last := CanStrand(size, doomed, jobs, v');
    } else {
      last := v;
      AllPanicked(v.pool.workers);
    }
  }

  lemma QueueIsNotEmpty(v: World)
    requires JobsConserved(v) && |v.taken| < v.submitted
    ensures v.pool.queue != []
  {
    UpToLength(v.submitted);
    assert |v.taken + Queued(v.pool.queue)| == v.submitted;
  }

  lemma {:induction false} AllPanicked(ws: seq<Worker>)
    requires Count(ws, HasPanicked) == |ws|
    ensures forall w | w in ws :: w.status.Panicked?
  {
    if ws != [] {
      CountWithin(ws[..|ws| - 1], HasPanicked);
      AllPanicked(ws[..|ws| - 1]);
    }
  }

  /** A pool that is never resized runs all its jobs, however it is dropped, if and only if fewer
      than `size` jobs before the last one panic. */
  lemma DrainsIff(size: usize, doomed: set<nat>, jobs: nat)
    requires size > 0
    ensures (forall vs, acts, last | IsDropped(size, doomed, jobs, vs, acts, last) :: last.pool.queue == []) <==>
            |set j | j in doomed && j < jobs - 1| < size
  {
    CountBelowIsSize(doomed, Missing(jobs, 1));
    assert (set j | j in doomed && j < jobs - 1) == set j | j in doomed && j < Missing(jobs, 1);
    if CountBelow(doomed, Missing(jobs, 1)) < size {
      forall vs, acts, last | IsDropped(size, doomed, jobs, vs, acts, last) ensures last.pool.queue == [] {
        DropRunsEveryJobOnce(size, doomed, jobs, vs, acts, last, 0);
      }
    } else {
      var vs, acts, last := StrandingRun(size, doomed, jobs);
    }
  }

  lemma StrandingRun(size: usize, doomed: set<nat>, jobs: nat) returns (vs: seq<World>, acts: seq<Action>, last: World)
    requires 0 < size <= CountBelow(doomed, Missing(jobs, 1))
    ensures IsDropped(size, doomed, jobs, vs, acts, last) && last.pool.queue != []
  {
    CanSubmit(size, doomed, jobs);
    SpawnedAreIdle(0, size);
    CountSpawned(0, size, Live);
    var v := CanStrand(size, doomed, jobs, Filled(size, jobs));
    last := v.(open := false);
    ReachesNext(size, doomed, v, Close, last);
    vs, acts :| RunsTo(size, doomed, vs, acts, last);
  }
}
