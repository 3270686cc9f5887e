/** The thread pool of `thread-pool/src/lib.rs`: the operations on its inner state. */
module ThreadPool {
  const WORD := 0x1_0000_0000_0000_0000
  const ISIZE_MAX := 0x7FFF_FFFF_FFFF_FFFF

  type usize = x: int | 0 <= x < WORD

  /** Submitted closures are known by the number of their submission. */
  datatype Job = Quit | Execute(number: nat)

  /** What a worker's thread is doing. The last two are what `JoinHandle::is_finished` reports. */
  datatype Status = Idle | Running(number: nat) | Returned | Panicked

  datatype Worker = Worker(id: usize, status: Status) {
    predicate HasQuit() {
      status.Returned? || status.Panicked?
    }
  }

  /** The queue is the channel between the pool and its workers. */
  datatype Pool = Pool(workers: seq<Worker>, size: usize, nextId: usize, queue: seq<Job>)

  /** `n` new workers with consecutive ids, which wrap around. */
  function Spawned(nextId: usize, n: nat): seq<Worker> {
    if n == 0 then [] else Spawned(nextId, n - 1) + [Worker((nextId + n - 1) % WORD, Idle)]
  }

  function Missing(size: nat, present: nat): nat {
    if size > present then size - present else 0
  }

  /** The workers are divided into those that have not quit, in some order, and those that have. */
  ghost predicate Splits(workers: seq<Worker>, kept: seq<Worker>, joined: seq<Worker>) {
    && multiset(kept + joined) == multiset(workers)
    && (forall w | w in kept :: !w.HasQuit())
    && (forall w | w in joined :: w.HasQuit())
  }

  /** After a respawn: the workers that had quit are joined, the others are kept in some order, and
      new ones make up for what is missing. */
  ghost predicate Respawned(p: Pool, kept: seq<Worker>, joined: seq<Worker>, p': Pool) {
    && Splits(p.workers, kept, joined)
    && p'.workers == kept + Spawned(p.nextId, Missing(p.size, |kept|))
    && p'.nextId == (p.nextId + Missing(p.size, |kept|)) % WORD
    && p'.size == p.size && p'.queue == p.queue
  }

  function QuitTokens(n: nat): seq<Job> {
    if n == 0 then [] else QuitTokens(n - 1) + [Quit]
  }

  /** The pool as `set_size` leaves it to `respawn`: one `Quit` for each worker too many. */
  function Resized(p: Pool, size: usize): Pool {
    p.(size := size, queue := p.queue + QuitTokens(Missing(p.size, size)))
  }

  lemma WrapStep(x: nat)
    ensures (x + 1) % WORD == if x % WORD == WORD - 1 then 0 else x % WORD + 1
  {
  }

  class Inner {
    var workers: seq<Worker>
    var size: usize
    var nextId: usize
    var queue: seq<Job>

    function View(): Pool
      reads this
    {
      Pool(workers, size, nextId, queue)
    }

    /** `ThreadPool::new`. */
    constructor (size: usize)
      requires size > 0
      ensures View() == Pool(Spawned(0, size), size, size, [])
    {
      this.size := size;
      nextId := size;
      queue := [];
      workers := [];
      new;
      for id := 0 to size
        invariant workers == Spawned(0, id) && this.size == size && nextId == size && queue == []
      {
        workers := workers + [Worker(id, Idle)];
      }
    }

    /** The unstable sort by `has_quit` and the partition point: some order of the workers with
        those that have not quit in front. */
    method PartitionQuitWorkers() returns (i: nat)
      modifies this`workers
      ensures i <= |workers| && multiset(workers) == multiset(old(workers))
      ensures forall w | w in workers[..i] :: !w.HasQuit()
      ensures forall w | w in workers[i..] :: w.HasQuit()
    {
      var front, back: seq<Worker> := [], [];
      for k := 0 to |workers|
        invariant multiset(front + back) == multiset(workers[..k])
        invariant forall w | w in front :: !w.HasQuit()
        invariant forall w | w in back :: w.HasQuit()
      {
        assert workers[..k + 1] == workers[..k] + [workers[k]];
        if workers[k].HasQuit() { back := back + [workers[k]]; } else { front := [workers[k]] + front; }
      }
      assert workers[..|workers|] == workers;
      workers := front + back;
      i := |front|;
      assert workers[..i] == front && workers[i..] == back;
    }

    /** Takes the workers that have quit out of the pool. */
    method SplitOffQuitWorkers() returns (joined: seq<Worker>, ghost kept: seq<Worker>)
      modifies this`workers
      ensures workers == kept && Splits(old(workers), kept, joined)
    {
      var i := PartitionQuitWorkers();
      assert workers[..i] + workers[i..] == workers;
      joined := workers[i..];
      workers := workers[..i];
      kept := workers;
    }

    /** Joins the workers that have quit, and returns them for the panic handler. */
    method Respawn() returns (joined: seq<Worker>, ghost kept: seq<Worker>)
      modifies this`workers, this`nextId
      ensures Respawned(old(View()), kept, joined, View())
    {
      joined, kept := SplitOffQuitWorkers();
      SpawnMissing();
    }

    method SpawnMissing()
      modifies this`workers, this`nextId
      ensures var need := Missing(size, |old(workers)|);
              workers == old(workers) + Spawned(old(nextId), need) && nextId == (old(nextId) + need) % WORD
    {
      var need := Missing(size, |workers|);
      for k := 0 to need
        invariant workers == old(workers) + Spawned(old(nextId), k)
        invariant nextId == (old(nextId) + k) % WORD
      {
        workers := workers + [Worker(nextId, Idle)];
        WrapStep(old(nextId) + k);
        nextId := if nextId == WORD - 1 then 0 else nextId + 1;
      }
    }

    method SetSize(newSize: usize) returns (diff: int, joined: seq<Worker>, ghost kept: seq<Worker>)
      requires 0 < newSize <= ISIZE_MAX && size <= ISIZE_MAX
      modifies this
      ensures diff == newSize - old(size)
      ensures Respawned(Resized(old(View()), newSize), kept, joined, View())
    {
      diff := Retarget(newSize);
      joined, kept := Respawn();
    }

    /** `set_size` up to its respawn. */
    method Retarget(newSize: usize) returns (diff: int)
      requires 0 < newSize <= ISIZE_MAX && size <= ISIZE_MAX
      modifies this`size, this`queue
      ensures diff == newSize - old(size) && View() == Resized(old(View()), newSize)
    {
      diff := newSize - size;
      assert queue + QuitTokens(0) == queue;
      if diff < 0 { SendQuits(-diff); }
      size := newSize;
    }

    /** The loop that stops extra workers. */
    method SendQuits(n: nat)
      modifies this`queue
      ensures queue == old(queue) + QuitTokens(n)
    {
      for k := 0 to n
        invariant queue == old(queue) + QuitTokens(k)
      {
        queue := queue + [Quit];
      }
    }

    /** `ThreadPool::execute`. */
    method Execute(number: nat) returns (joined: seq<Worker>, ghost kept: seq<Worker>)
      modifies this
      ensures exists p :: Respawned(old(View()), kept, joined, p) && View() == p.(queue := p.queue + [Job.Execute(number)])
    {
      joined, kept := Respawn();
      ghost var p := View();
      queue := queue + [Job.Execute(number)];
    }
  }
}
