/** Shrinking a thread pool: the tokens that it queues stop exactly the workers that are too many. */
module PoolShrink {
  import opened ThreadPool
  import opened PoolRuns

  /** No job panics, and the pool does not grow. */
  predicate Shrinks(v: World, a: Action) {
    match a
    case Panic(_) => false
    case Resize(size) => size <= v.pool.size
    case _ => true
  }

  ghost predicate ShrinksAt(vs: seq<World>, acts: seq<Action>, i: nat)
    requires i < |acts| < |vs|
  {
    Shrinks(vs[i], acts[i])
  }

  ghost predicate IsShrinkingRun(size: usize, vs: seq<World>, acts: seq<Action>) {
    IsRun(size, vs, acts) && forall i | 0 <= i < |acts| :: ShrinksAt(vs, acts, i)
  }

  /** As long as the pool is open, every worker too many has a token waiting for some worker. */
  ghost predicate Balanced(v: World) {
    v.pool.size > 0 && (v.open ==> Count(v.pool.workers, Live) == v.pool.size + Quits(v.pool.queue))
  }

  lemma ResizeKeepsBalance(v: World, a: Action, v': World)
    requires Balanced(v) && a.Resize? && Step(v, a, v') && Shrinks(v, a)
    ensures Balanced(v')
  {
    var surplus := v.pool.size - a.size;
    TokensOnly(surplus);
    QueueConcat(v.pool.queue, QuitTokens(surplus));
  }

  lemma StepKeepsBalance(v: World, a: Action, v': World)
    requires Balanced(v) && Step(v, a, v') && Shrinks(v, a)
    ensures Balanced(v')
  {
    match a
    case Respawn(kept, quit) => RespawnLive(v.pool, kept, quit, v'.pool);
    case Submit => QueueAppendJob(v.pool.queue, v.submitted);
    case Resize(_) => ResizeKeepsBalance(v, a, v');
    case Close =>
    case Take(_) => WorkerCount(v, a, v', Live);
    case Finish(_) => WorkerCount(v, a, v', Live);
    case Disconnect(_) =>
  }

  lemma BalanceAt(size: usize, vs: seq<World>, acts: seq<Action>, i: nat, next: nat)
    requires IsShrinkingRun(size, vs, acts) && i < |acts| && next == i + 1 && Balanced(vs[i])
    ensures Balanced(vs[next])
  {
    RunStep(size, vs, acts, i, next);
    assert ShrinksAt(vs, acts, i);
    StepKeepsBalance(vs[i], acts[i], vs[next]);
  }

  lemma {:induction false} RunIsBalanced(size: usize, vs: seq<World>, acts: seq<Action>, n: nat)
    requires IsShrinkingRun(size, vs, acts) && n <= |acts|
    ensures Balanced(vs[n])
  {
    if n == 0 {
      CountSpawned(0, size, Live);
    } else {
      RunIsBalanced(size, vs, acts, n - 1);
      BalanceAt(size, vs, acts, n - 1, n);
    }
  }

  /** In an open pool that only ever shrinks and whose jobs do not panic, the live workers are exactly
      the target size and the tokens still queued. So there are never fewer than the target size, and
      exactly that many once the tokens are used up. */
  lemma ShrinkingIsExact(size: usize, vs: seq<World>, acts: seq<Action>, n: nat)
    requires IsShrinkingRun(size, vs, acts) && n <= |acts| && vs[n].open
    ensures Count(vs[n].pool.workers, Live) == vs[n].pool.size + Quits(vs[n].pool.queue)
  {
    RunIsBalanced(size, vs, acts, n);
  }
}
