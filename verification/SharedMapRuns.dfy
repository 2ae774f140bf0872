/**
  Any number of processes on one map and one arena, each operation cut into the steps
  at which another process can come in between: wait for the semaphore, compute the new
  free pointer, check it, read the old one, write the new one, update, post.
*/
module SharedMapRuns {
  import opened Tables
  import opened Arenas
  import opened SharedMaps

  datatype Phase<K, V> =
    | Idle
    | Waiting(call: Call<K, V>)
    | Allocating(call: Call<K, V>, demand: seq<nat>, next: nat)
    | Computed(call: Call<K, V>, demand: seq<nat>, next: nat, newFree: int)
    | Checked(call: Call<K, V>, demand: seq<nat>, next: nat, newFree: int)
    | Reread(call: Call<K, V>, demand: seq<nat>, next: nat, newFree: int, oldFree: int)
    | Finished(call: Call<K, V>, result: Result<V>)
    | Responding(call: Call<K, V>, result: Result<V>)

  datatype Event<K, V> =
    | Invoke(pid: nat, call: Call<K, V>)
    | Commit(pid: nat, call: Call<K, V>, result: Result<V>)
    | Respond(pid: nat, call: Call<K, V>, result: Result<V>)

  /** `history` and `blocks` record what happened; no step looks at them. */
  datatype World<K, V> = World(
    semaphore: nat, free: int, contents: map<K, V>, processes: seq<Phase<K, V>>,
    history: seq<Event<K, V>>, blocks: seq<Block>)

  datatype Segment = Segment(start: int, end: int)

  /** Process pid is scheduled; when it is idle it begins this call. */
  datatype Move<K, V> = Move(pid: nat, call: Call<K, V>)

  function Start<K, V>(segment: Segment, processes: nat): World<K, V> {
    World(1, segment.start, map[], seq(processes, _ => Idle), [], [])
  }

  predicate Holds<K, V>(p: Phase<K, V>) {
    p.Allocating? || p.Computed? || p.Checked? || p.Reread? || p.Finished?
  }

  function SetPhase<K, V>(w: World<K, V>, pid: nat, p: Phase<K, V>): World<K, V>
    requires pid < |w.processes|
  {
    w.(processes := w.processes[pid := p])
  }

  /** One step of one process; a process that finds the semaphore at zero stays where it is. */
  function Advance<K(==), V>(w: World<K, V>, segment: Segment, m: Move<K, V>): World<K, V>
    requires m.pid < |w.processes|
  {
    match w.processes[m.pid]
    case Idle =>
      SetPhase(w, m.pid, Waiting(m.call)).(history := w.history + [Invoke(m.pid, m.call)])
    case Waiting(call) =>
      if w.semaphore == 0 then w
      else SetPhase(w, m.pid, Allocating(call, Demand(call, w.contents), 0)).(semaphore := w.semaphore - 1)
    case Allocating(call, demand, next) =>
      if next >= |demand| then
        var (contents, result) := Update(call, w.contents);
        SetPhase(w, m.pid, Finished(call, result)).(contents := contents)
      else if demand[next] == 0 then SetPhase(w, m.pid, Allocating(call, demand, next + 1))
      else SetPhase(w, m.pid, Computed(call, demand, next, w.free + demand[next]))
    case Computed(call, demand, next, newFree) =>
      if newFree > segment.end then SetPhase(w, m.pid, Finished(call, OutOfMemory))
      else SetPhase(w, m.pid, Checked(call, demand, next, newFree))
    case Checked(call, demand, next, newFree) =>
      SetPhase(w, m.pid, Reread(call, demand, next, newFree, w.free))
    case Reread(call, demand, next, newFree, oldFree) =>
      SetPhase(w, m.pid, Allocating(call, demand, next + 1)).(
        free := newFree,
        blocks := w.blocks + [Block(oldFree, if next < |demand| then demand[next] else 0)])
    case Finished(call, result) =>
      SetPhase(w, m.pid, Responding(call, result)).(
        semaphore := w.semaphore + 1, history := w.history + [Commit(m.pid, call, result)])
    case Responding(call, result) =>
      SetPhase(w, m.pid, Idle).(history := w.history + [Respond(m.pid, call, result)])
  }

  // -------------------------------------------------- the sequential map it should be

  /** The operations in the order of their commits, one after the other on a plain map and a plain pointer. */
  function Replay<K(==), V>(segment: Segment, history: seq<Event<K, V>>): Store<K, V> {
    if history == [] then Store(segment.start, map[])
    else
      var last := history[|history| - 1];
      var before := Replay(segment, history[..|history| - 1]);
      if last.Commit? then Apply(before, segment.end, last.call).0 else before
  }

  /** Every operation answered what the sequential map answers at its place. */
  ghost predicate AnswersAgree<K, V>(segment: Segment, history: seq<Event<K, V>>) {
    forall i :: 0 <= i < |history| && history[i].Commit? ==>
      history[i].result == Apply(Replay(segment, history[..i]), segment.end, history[i].call).1
  }

  // ------------------------------------------------------------------ the invariant

  /** The first n of the demanded allocations succeed and leave the pointer at free. */
  ghost predicate Taken(base: int, end: int, demand: seq<nat>, n: nat, free: int) {
    n <= |demand| && TakeAll(base, end, demand[..n]) == (free, true)
  }

  /** How far the lock holder has got with its operation on the store it found. */
  ghost predicate HolderOnTrack<K, V>(w: World<K, V>, segment: Segment, p: Phase<K, V>, base: Store<K, V>) {
    match p
    case Allocating(call, demand, next) =>
      demand == Demand(call, base.contents) && w.contents == base.contents
      && Taken(base.free, segment.end, demand, next, w.free)
    case Computed(call, demand, next, newFree) =>
      demand == Demand(call, base.contents) && w.contents == base.contents
      && Taken(base.free, segment.end, demand, next, w.free)
      && next < |demand| && demand[next] > 0 && newFree == w.free + demand[next]
    case Checked(call, demand, next, newFree) =>
      demand == Demand(call, base.contents) && w.contents == base.contents
      && Taken(base.free, segment.end, demand, next, w.free)
      && next < |demand| && demand[next] > 0 && newFree == w.free + demand[next] <= segment.end
    case Reread(call, demand, next, newFree, oldFree) =>
      demand == Demand(call, base.contents) && w.contents == base.contents
      && Taken(base.free, segment.end, demand, next, w.free)
      && next < |demand| && demand[next] > 0 && newFree == w.free + demand[next] <= segment.end
      && oldFree == w.free
    case Finished(call, result) =>
      Apply(base, segment.end, call) == (Store(w.free, w.contents), result)
    case _ => false
  }

  /** The semaphore and the holders: one or the other, never two. */
  ghost predicate Exclusive<K, V>(w: World<K, V>) {
    && w.semaphore <= 1
    && (w.semaphore == 1 ==> forall p :: 0 <= p < |w.processes| ==> !Holds(w.processes[p]))
    && (w.semaphore == 0 ==> exists p :: 0 <= p < |w.processes| && Holds(w.processes[p]))
    && (forall p, q :: 0 <= p < q < |w.processes| ==> !Holds(w.processes[p]) || !Holds(w.processes[q]))
  }

  ghost predicate Inv<K, V>(w: World<K, V>, segment: Segment) {
    && Exclusive(w)
    && Tiled(Arena(segment.start, segment.end, w.free), w.blocks)
    && AnswersAgree(segment, w.history)
    && (w.semaphore == 1 ==> Replay(segment, w.history) == Store(w.free, w.contents))
    && (forall p :: 0 <= p < |w.processes| && Holds(w.processes[p]) ==>
      HolderOnTrack(w, segment, w.processes[p], Replay(segment, w.history)))
  }

  lemma {:induction false} TakeOneMore(base: int, end: int, demand: seq<nat>, n: nat, free: int)
    requires Taken(base, end, demand, n, free) && n < |demand|
    requires demand[n] == 0 || free + demand[n] <= end
    ensures Taken(base, end, demand, n + 1, free + demand[n])
    decreases n
  {
    if n > 0 {
      assert demand[..n][1..] == demand[1..][..n - 1];
      assert demand[..n + 1][1..] == demand[1..][..n];
      TakeOneMore(base + demand[0], end, demand[1..], n - 1, free);
    } else {
      assert demand[..1][1..] == [];
    }
  }

  lemma {:induction false} TakeFails(base: int, end: int, demand: seq<nat>, n: nat, free: int)
    requires Taken(base, end, demand, n, free) && n < |demand|
    requires demand[n] > 0 && free + demand[n] > end
    ensures TakeAll(base, end, demand) == (free, false)
    decreases n
  {
    if n > 0 {
      assert demand[..n][1..] == demand[1..][..n - 1];
      TakeFails(base + demand[0], end, demand[1..], n - 1, free);
    }
  }

  lemma ReplayCommit<K, V>(segment: Segment, history: seq<Event<K, V>>, e: Event<K, V>)
    ensures Replay(segment, history + [e]) ==
      if e.Commit? then Apply(Replay(segment, history), segment.end, e.call).0 else Replay(segment, history)
    ensures AnswersAgree(segment, history)
      && (e.Commit? ==> e.result == Apply(Replay(segment, history), segment.end, e.call).1)
      ==> AnswersAgree(segment, history + [e])
  {
    var more := history + [e];
    assert more[..|history|] == history;
    forall i | 0 <= i < |history| ensures more[..i] == history[..i] && more[i] == history[i] {}
  }

  // --------------------------------------------------------------- single steps

  /** A step of a process outside the lock that stays outside it. */
  lemma OutsideStep<K, V>(w: World<K, V>, segment: Segment, pid: nat, p: Phase<K, V>, e: Event<K, V>)
    requires Inv(w, segment) && pid < |w.processes|
    requires !Holds(w.processes[pid]) && !Holds(p) && !e.Commit?
    ensures Inv(SetPhase(w, pid, p).(history := w.history + [e]), segment)
  {
    ReplayCommit(segment, w.history, e);
    var next := SetPhase(w, pid, p).(history := w.history + [e]);
    forall q | 0 <= q < |w.processes| ensures Holds(next.processes[q]) <==> Holds(w.processes[q]) {}
    if w.semaphore == 0 {
      var q :| 0 <= q < |w.processes| && Holds(w.processes[q]);
      assert Holds(next.processes[q]);
    }
  }

  lemma AcquireStep<K, V>(w: World<K, V>, segment: Segment, pid: nat, call: Call<K, V>)
    requires Inv(w, segment) && pid < |w.processes|
    requires w.processes[pid] == Waiting(call) && w.semaphore > 0
    ensures Inv(SetPhase(w, pid, Allocating(call, Demand(call, w.contents), 0)).(semaphore := w.semaphore - 1), segment)
  {
    var demand := Demand(call, w.contents);
    var next := SetPhase(w, pid, Allocating(call, demand, 0)).(semaphore := w.semaphore - 1);
    assert demand[..0] == [];
    assert Holds(next.processes[pid]);
    forall q | 0 <= q < |w.processes| && q != pid ensures !Holds(next.processes[q]) {}
  }

  /** A step of the holder that keeps the lock: it is on track again, and so is everything it does not touch. */
  lemma InsideStep<K, V>(
    w: World<K, V>, segment: Segment, pid: nat, p: Phase<K, V>, free: int, contents: map<K, V>, blocks: seq<Block>)
    requires Inv(w, segment) && pid < |w.processes|
    requires Holds(w.processes[pid]) && Holds(p)
    requires Tiled(Arena(segment.start, segment.end, free), blocks)
    requires HolderOnTrack(w.(free := free, contents := contents), segment, p, Replay(segment, w.history))
    ensures Inv(SetPhase(w, pid, p).(free := free, contents := contents, blocks := blocks), segment)
  {
    var next := SetPhase(w, pid, p).(free := free, contents := contents, blocks := blocks);
    assert w.semaphore == 0;
    forall q | 0 <= q < |w.processes| && q != pid ensures !Holds(next.processes[q]) {
      assert next.processes[q] == w.processes[q];
      assert q < pid || pid < q;
    }
    assert Holds(next.processes[pid]);
  }

  lemma ReleaseStep<K, V>(w: World<K, V>, segment: Segment, pid: nat, call: Call<K, V>, result: Result<V>)
    requires Inv(w, segment) && pid < |w.processes|
    requires w.processes[pid] == Finished(call, result)
    ensures Inv(SetPhase(w, pid, Responding(call, result)).(
      semaphore := w.semaphore + 1, history := w.history + [Commit(pid, call, result)]), segment)
  {
    var e := Commit(pid, call, result);
    ReplayCommit(segment, w.history, e);
    assert Holds(w.processes[pid]);
    assert w.semaphore == 0;
    var next := SetPhase(w, pid, Responding(call, result)).(semaphore := w.semaphore + 1, history := w.history + [e]);
    forall q | 0 <= q < |w.processes| ensures !Holds(next.processes[q]) {
      assert q == pid || q < pid || pid < q;
    }
  }

  lemma AllocatingStep<K, V>(w: World<K, V>, segment: Segment, m: Move<K, V>)
    requires Inv(w, segment) && m.pid < |w.processes| && w.processes[m.pid].Allocating?
    ensures Inv(Advance(w, segment, m), segment)
  {
    hide Tiled, Exclusive, AnswersAgree, Replay;
    var p := w.processes[m.pid];
    var base := Replay(segment, w.history);
    assert Holds(p);
    assert HolderOnTrack(w, segment, p, base);
    if p.next >= |p.demand| {
      assert p.demand[..p.next] == p.demand;
      var (contents, result) := Update(p.call, w.contents);
      InsideStep(w, segment, m.pid, Finished(p.call, result), w.free, contents, w.blocks);
    } else if p.demand[p.next] == 0 {
      TakeOneMore(base.free, segment.end, p.demand, p.next, w.free);
      InsideStep(w, segment, m.pid, Allocating(p.call, p.demand, p.next + 1), w.free, w.contents, w.blocks);
    } else {
      InsideStep(w, segment, m.pid, Computed(p.call, p.demand, p.next, w.free + p.demand[p.next]),
                 w.free, w.contents, w.blocks);
    }
  }

  lemma ComputedStep<K, V>(w: World<K, V>, segment: Segment, m: Move<K, V>)
    requires Inv(w, segment) && m.pid < |w.processes| && w.processes[m.pid].Computed?
    ensures Inv(Advance(w, segment, m), segment)
  {
    var p := w.processes[m.pid];
    var base := Replay(segment, w.history);
    assert Holds(p);
    if p.newFree > segment.end {
      TakeFails(base.free, segment.end, p.demand, p.next, w.free);
      InsideStep(w, segment, m.pid, Finished(p.call, OutOfMemory), w.free, w.contents, w.blocks);
    } else {
      InsideStep(w, segment, m.pid, Checked(p.call, p.demand, p.next, p.newFree), w.free, w.contents, w.blocks);
    }
  }

  lemma CheckedStep<K, V>(w: World<K, V>, segment: Segment, m: Move<K, V>)
    requires Inv(w, segment) && m.pid < |w.processes| && w.processes[m.pid].Checked?
    ensures Inv(Advance(w, segment, m), segment)
  {
    hide Tiled, Exclusive, AnswersAgree, Replay, Apply;
    var p := w.processes[m.pid];
    assert Holds(p);
    assert HolderOnTrack(w, segment, p, Replay(segment, w.history));
    InsideStep(w, segment, m.pid, Reread(p.call, p.demand, p.next, p.newFree, w.free), w.free, w.contents, w.blocks);
  }

  lemma RereadStep<K, V>(w: World<K, V>, segment: Segment, m: Move<K, V>)
    requires Inv(w, segment) && m.pid < |w.processes| && w.processes[m.pid].Reread?
    ensures Inv(Advance(w, segment, m), segment)
  {
    hide Tiled, Exclusive, AnswersAgree, Replay, Apply;
    var p := w.processes[m.pid];
    var base := Replay(segment, w.history);
    assert Holds(p);
    assert HolderOnTrack(w, segment, p, base);
    TakeOneMore(base.free, segment.end, p.demand, p.next, w.free);
    OneMoreBlock(Arena(segment.start, segment.end, w.free), w.blocks, p.demand[p.next]);
    InsideStep(w, segment, m.pid, Allocating(p.call, p.demand, p.next + 1), p.newFree, w.contents,
               w.blocks + [Block(p.oldFree, p.demand[p.next])]);
  }

  lemma AdvanceKeepsInv<K, V>(w: World<K, V>, segment: Segment, m: Move<K, V>)
    requires Inv(w, segment) && m.pid < |w.processes|
    ensures Inv(Advance(w, segment, m), segment)
    ensures |Advance(w, segment, m).processes| == |w.processes|
  {
    hide Inv, HolderOnTrack, Update, Demand;
    match w.processes[m.pid]
    case Idle => OutsideStep(w, segment, m.pid, Waiting(m.call), Invoke(m.pid, m.call));
    case Waiting(call) => if w.semaphore > 0 { AcquireStep(w, segment, m.pid, call); }
    case Allocating(_, _, _) => AllocatingStep(w, segment, m);
    case Computed(_, _, _, _) => ComputedStep(w, segment, m);
    case Checked(_, _, _, _) => CheckedStep(w, segment, m);
    case Reread(_, _, _, _, _) => RereadStep(w, segment, m);
    case Finished(call, result) => ReleaseStep(w, segment, m.pid, call, result);
    case Responding(call, result) => OutsideStep(w, segment, m.pid, Idle, Respond(m.pid, call, result));
  }

  // ------------------------------------------------------------------ whole runs

  ghost predicate MovesOf<K, V>(moves: seq<Move<K, V>>, processes: nat) {
    forall i :: 0 <= i < |moves| ==> moves[i].pid < processes
  }

  function Run<K(==), V>(w: World<K, V>, segment: Segment, moves: seq<Move<K, V>>): World<K, V>
    requires forall i :: 0 <= i < |moves| ==> moves[i].pid < |w.processes|
    decreases |moves|
  {
    if moves == [] then w else Run(Advance(w, segment, moves[0]), segment, moves[1..])
  }

  lemma {:induction false} RunKeepsInv<K, V>(w: World<K, V>, segment: Segment, moves: seq<Move<K, V>>)
    requires Inv(w, segment)
    requires forall i :: 0 <= i < |moves| ==> moves[i].pid < |w.processes|
    ensures Inv(Run(w, segment, moves), segment)
    decreases |moves|
  {
    if moves != [] {
      AdvanceKeepsInv(w, segment, moves[0]);
      RunKeepsInv(Advance(w, segment, moves[0]), segment, moves[1..]);
    }
  }

  ghost function Holders<K, V>(w: World<K, V>): set<int> {
    set p | 0 <= p < |w.processes| && Holds(w.processes[p])
  }

  lemma SemaphoreCountsHolders<K, V>(w: World<K, V>)
    requires Exclusive(w)
    ensures w.semaphore + |Holders(w)| == 1
  {
    if w.semaphore == 1 {
      assert Holders(w) == {};
    } else {
      var p :| 0 <= p < |w.processes| && Holds(w.processes[p]);
      forall q | q in Holders(w) ensures q == p {
        assert q == p || q < p || p < q;
      }
      assert Holders(w) == {p};
    }
  }

  // --------------------------------------------------- order of calls and answers

  ghost function LastOn<K, V>(history: seq<Event<K, V>>, pid: nat): Option<Event<K, V>> {
    if history == [] then None
    else
      var last := history[|history| - 1];
      if last.pid == pid then Some(last) else LastOn(history[..|history| - 1], pid)
  }

  /**
    What the process that e belongs to did just before: calls commit once, after they were made,
    and answer what they committed.
  */
  ghost predicate Follows<K, V>(last: Option<Event<K, V>>, e: Event<K, V>) {
    match e
    case Invoke(_, _) => last.Some? ==> last.value.Respond?
    case Commit(pid, call, _) => last == Some(Invoke(pid, call))
    case Respond(pid, call, result) => last == Some(Commit(pid, call, result))
  }

  ghost predicate Ordered<K, V>(history: seq<Event<K, V>>) {
    forall i :: 0 <= i < |history| ==> Follows(LastOn(history[..i], history[i].pid), history[i])
  }

  /** The phase of a process is what its last event leads to. */
  ghost predicate InPhase<K, V>(pid: nat, p: Phase<K, V>, last: Option<Event<K, V>>) {
    match p
    case Idle => last.Some? ==> last.value.Respond?
    case Responding(call, result) => last == Some(Commit(pid, call, result))
    case _ => last == Some(Invoke(pid, p.call))
  }

  ghost predicate Recorded<K, V>(w: World<K, V>) {
    Ordered(w.history) && forall p :: 0 <= p < |w.processes| ==> InPhase(p, w.processes[p], LastOn(w.history, p))
  }

  lemma RecordOne<K, V>(w: World<K, V>, next: World<K, V>, pid: nat, p: Phase<K, V>, e: Event<K, V>)
    requires Recorded(w) && pid < |w.processes| && e.pid == pid
    requires Follows(LastOn(w.history, pid), e) && InPhase(pid, p, Some(e))
    requires next.processes == w.processes[pid := p] && next.history == w.history + [e]
    ensures Recorded(next)
  {
    assert next.history[..|w.history|] == w.history;
    forall i | 0 <= i < |next.history|
      ensures Follows(LastOn(next.history[..i], next.history[i].pid), next.history[i])
    {
      if i < |w.history| {
        assert next.history[..i] == w.history[..i] && next.history[i] == w.history[i];
      }
    }
  }

  lemma AdvanceIsRecorded<K, V>(w: World<K, V>, segment: Segment, m: Move<K, V>)
    requires Recorded(w) && m.pid < |w.processes|
    ensures Recorded(Advance(w, segment, m))
  {
    hide Update, Demand;
    var next := Advance(w, segment, m);
    var p := w.processes[m.pid];
    assert InPhase(m.pid, p, LastOn(w.history, m.pid));
    match p
    case Idle => RecordOne(w, next, m.pid, Waiting(m.call), Invoke(m.pid, m.call));
    case Finished(call, result) => RecordOne(w, next, m.pid, Responding(call, result), Commit(m.pid, call, result));
    case Responding(call, result) => RecordOne(w, next, m.pid, Idle, Respond(m.pid, call, result));
    case _ =>
      assert next.history == w.history;
  }

  /**
    In every run each operation takes effect exactly once, between its call and its answer, and
    answers what it then found.
  */
  lemma {:induction false} CommitsLieBetween<K, V>(w: World<K, V>, segment: Segment, moves: seq<Move<K, V>>)
    requires Recorded(w)
    requires forall i :: 0 <= i < |moves| ==> moves[i].pid < |w.processes|
    ensures Recorded(Run(w, segment, moves))
    decreases |moves|
  {
    if moves != [] {
      AdvanceIsRecorded(w, segment, moves[0]);
      CommitsLieBetween(Advance(w, segment, moves[0]), segment, moves[1..]);
    }
  }

  /**
    The shared map is linearizable. For any number of processes, every interleaving of
    their steps and every demand for memory: the semaphore and the holders of the lock
    always add up to one; the blocks taken lie in the segment and are disjoint; each
    operation answered as the sequential map does in the order of the commits; and
    whenever nobody holds the lock, the contents and the free pointer are that map's.
    Each operation commits exactly once, between its call and its answer.
  */
  lemma SharedMapIsLinearizable<K, V>(segment: Segment, processes: nat, moves: seq<Move<K, V>>)
    requires segment.start <= segment.end && MovesOf(moves, processes)
    ensures
      var w := Run(Start<K, V>(segment, processes), segment, moves);
      && w.semaphore + |Holders(w)| == 1
      && Tiled(Arena(segment.start, segment.end, w.free), w.blocks)
      && Recorded(w)
      && AnswersAgree(segment, w.history)
      && (Holders(w) == {} ==> Store(w.free, w.contents) == Replay(segment, w.history))
  {
    var w := Start<K, V>(segment, processes);
    RunKeepsInv(w, segment, moves);
    CommitsLieBetween(w, segment, moves);
    SemaphoreCountsHolders(Run(w, segment, moves));
  }

  // ------------------------------------------------------------- the lock is released

  function StepsLeft<K, V>(p: Phase<K, V>): int {
    match p
    case Allocating(_, demand, next) => 4 * (|demand| - next) + 2
    case Computed(_, demand, next, _) => 4 * (|demand| - next) + 1
    case Checked(_, demand, next, _) => 4 * (|demand| - next)
    case Reread(_, demand, next, _, _) => 4 * (|demand| - next) - 1
    case Finished(_, _) => 1
    case _ => 0
  }

  lemma HolderAdvances<K, V>(w: World<K, V>, segment: Segment, m: Move<K, V>)
    requires Inv(w, segment) && m.pid < |w.processes| && Holds(w.processes[m.pid])
    ensures
      var next := Advance(w, segment, m);
      && Inv(next, segment) && |next.processes| == |w.processes|
      && if Holds(next.processes[m.pid])
         then 0 < StepsLeft(next.processes[m.pid]) < StepsLeft(w.processes[m.pid])
         else StepsLeft(w.processes[m.pid]) == 1 && next.semaphore == 1
  {
    hide Replay, Demand, Update, Apply, Tiled, AnswersAgree;
    AdvanceKeepsInv(w, segment, m);
    AdvanceKeepsInv(Advance(w, segment, m), segment, m);
    var next := Advance(w, segment, m);
    assert HolderOnTrack(w, segment, w.processes[m.pid], Replay(segment, w.history));
    if Holds(next.processes[m.pid]) {
      assert HolderOnTrack(next, segment, next.processes[m.pid], Replay(segment, next.history));
    }
  }

  /** How often this process is scheduled. */
  function MovesBy<K, V>(moves: seq<Move<K, V>>, pid: nat): nat {
    if moves == [] then 0 else (if moves[0].pid == pid then 1 else 0) + MovesBy(moves[1..], pid)
  }

  /** A step of another process leaves the holder where it is. */
  lemma OthersLeaveTheHolder<K, V>(w: World<K, V>, segment: Segment, m: Move<K, V>, pid: nat)
    requires Inv(w, segment) && m.pid < |w.processes| && pid < |w.processes| && m.pid != pid
    ensures
      var next := Advance(w, segment, m);
      Inv(next, segment) && |next.processes| == |w.processes| && next.processes[pid] == w.processes[pid]
  {
    hide Inv, Demand, Update;
    AdvanceKeepsInv(w, segment, m);
  }

  /**
    The holder gives the lock back, whether or not it got its memory: in every
    interleaving that schedules it as often as it has steps left, wherever the other
    processes come in between, there is a moment at which the semaphore is one again.
  */
  lemma {:induction false} HolderReleases<K, V>(w: World<K, V>, segment: Segment, pid: nat, moves: seq<Move<K, V>>)
    returns (n: nat)
    requires Inv(w, segment) && pid < |w.processes| && Holds(w.processes[pid])
    requires forall i :: 0 <= i < |moves| ==> moves[i].pid < |w.processes|
    requires MovesBy(moves, pid) >= StepsLeft(w.processes[pid])
    ensures n <= |moves| && Run(w, segment, moves[..n]).semaphore == 1
    decreases |moves|
  {
    hide Inv, Advance, StepsLeft, Holds;
    HasStepsLeft(w, segment, pid);
    var m, rest := moves[0], moves[1..];
    var next := Advance(w, segment, m);
    assert moves[..1][1..] == [];
    if m.pid != pid {
      OthersLeaveTheHolder(w, segment, m, pid);
      n := HolderReleases(next, segment, pid, rest);
    } else {
      HolderAdvances(w, segment, m);
      if Holds(next.processes[pid]) {
        n := HolderReleases(next, segment, pid, rest);
      } else {
        n := 0;
      }
    }
    assert moves[..n + 1][1..] == rest[..n];
    n := n + 1;
  }

  lemma HasStepsLeft<K, V>(w: World<K, V>, segment: Segment, pid: nat)
    requires Inv(w, segment) && pid < |w.processes| && Holds(w.processes[pid])
    ensures StepsLeft(w.processes[pid]) > 0
  {
    hide Tiled, AnswersAgree, Exclusive, Replay;
    assert HolderOnTrack(w, segment, w.processes[pid], Replay(segment, w.history));
  }
}
