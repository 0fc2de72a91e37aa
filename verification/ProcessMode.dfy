/** Process and hybrid mode: fork the children, reap them all, read and merge what they handed over.

    Source: run_process_mode (src/process_mode.c), run_hybrid_mode (src/hybrid_mode.c). The parent code of
    the two modes is the same and is modelled once (`RunChildren`); the modes differ in what a child
    computes. What the operating system does to child i is a `Fate`: whether its pipe and its fork succeed,
    whether its pipe is broken, how many calls on it are interrupted, when the child dies if it does, and
    whether waitpid on it works. */
module ProcessMode {
  import opened Words
  import opened Tallies
  import opened Checksums
  import opened Partitions
  import opened Results
  import opened Ipc
  import opened ThreadMode
  import opened ThreadModeProofs
  import opened ThreadModeRun

  datatype IpcMode = Pipe | Shm

  /** A child lives to its `_exit(0)`, or exits non-zero or is killed when `bytes` bytes of its result
      have left it (in shared memory: with its slot complete and marked done iff all have). */
  datatype Life = Lives | Dies(bytes: nat)

  datatype Fate = Fate(pipeOk: bool, forkOk: bool, broken: bool, interrupts: nat, life: Life, waitOk: bool)

  /** The checksum a child stores in its record. The parent never looks at it. */
  type Stamp = Tally -> Word64

  function RecordOf(t: Tally, stamp: Stamp): Record { Record(t, stamp(t)) }

  /** Nothing goes wrong and no pipe is broken. */
  predicate AllGoesWell(ipc: IpcMode, fates: seq<Fate>) {
    forall fate <- fates :: Sound(ipc, fate) && (ipc.Pipe? ==> !fate.broken)
  }

  /** The whole result leaves the child, whatever happens to it afterwards. */
  predicate Delivers(fate: Fate) { fate.life.Lives? || fate.life.bytes >= RESULT_SIZE }

  ghost predicate PipeHolds(ch: Channel, t: Tally, stamp: Stamp, fate: Fate)
    reads ch
  {
    && ch.broken == fate.broken
    && ch.bytes <= Encode(RecordOf(t, stamp))
    && (!fate.broken ==> |ch.bytes| == if Delivers(fate) then RESULT_SIZE else fate.life.bytes)
  }

  /** What child i does with its pipe: a living child ignores the return code of its write. */
  method ChildWritesPipe(t: Tally, stamp: Stamp, fate: Fate) returns (ch: Channel)
    ensures fresh(ch) && PipeHolds(ch, t, stamp, fate)
  {
    ch := new Channel(fate.broken, fate.interrupts);
    var image := Encode(RecordOf(t, stamp));
    match fate.life
    case Lives =>
      var written := WriteResult(ch, RecordOf(t, stamp));
      assert [] + image == image;
      if written == -1 {
        ghost var k: nat :| k < RESULT_SIZE && ch.bytes == [] + image[..k];
        assert ch.bytes == image[..k];
      }
    case Dies(bytes) =>
      var k := if bytes < RESULT_SIZE then bytes else RESULT_SIZE;
      var _ := WriteFull(ch, image[..k]);
      assert [] + image[..k] == image[..k];
      assert forall j: nat :: j < k ==> [] + image[..k][..j] == image[..j];
  }

  method ChildWritesSlot(table: ShmTable, i: nat, t: Tally, stamp: Stamp, fate: Fate)
    requires table.Valid()
    modifies table.slots, table.done
    ensures forall k :: 0 <= k < table.slots.Length && k != i ==>
      table.done[k] == old(table.done[k]) && table.slots[k] == old(table.slots[k])
    ensures i < table.slots.Length && table.done[i] && !old(table.done[i]) ==> table.slots[i] == RecordOf(t, stamp)
    ensures i < table.slots.Length && Delivers(fate) ==> table.done[i] && table.slots[i] == RecordOf(t, stamp)
    ensures i < table.slots.Length && !Delivers(fate) ==> table.done[i] == old(table.done[i])
  {
    if Delivers(fate) {
      table.WriteResult(i, RecordOf(t, stamp));
    }
  }

  /** The events the parent can see go wrong. A broken pipe need not show. */
  predicate Sound(ipc: IpcMode, fate: Fate) {
    Created(ipc, fate) && fate.life.Lives? && fate.waitOk
  }

  /** All ids below i, in order. */
  ghost function UpTo(i: nat): seq<int> { seq(i, k => k) }

  lemma {:induction false} MergeAllUpTo(n: nat, g: int -> Tally)
    ensures MergeAll(UpTo(n), g) == MergeFirst(n, g)
  {
    if n > 0 {
      assert UpTo(n)[..n - 1] == UpTo(n - 1);
      MergeAllUpTo(n - 1, g);
    }
  }

  /** The first `count` pipes are distinct and hold what their children wrote. */
  ghost predicate PipesOk(pipes: seq<Channel>, g: int -> Tally, stamp: Stamp, fates: seq<Fate>, count: nat)
    reads pipes
  {
    && count == |pipes| && count <= |fates|
    && (forall i :: 0 <= i < count ==> PipeHolds(pipes[i], g(i), stamp, fates[i]))
    && (forall i, j :: 0 <= i < j < count ==> pipes[i] != pipes[j])
  }

  /** The done slots are those of the children among the first `count` that delivered, and hold their results. */
  ghost predicate SlotsOk(table: ShmTable, g: int -> Tally, stamp: Stamp, fates: seq<Fate>, count: nat)
    reads table.slots, table.done
  {
    && table.Valid() && table.slots.Length == |fates|
    && forall i :: 0 <= i < |fates| ==>
         && (table.done[i] <==> i < count && Delivers(fates[i]))
         && (table.done[i] ==> table.slots[i] == RecordOf(g(i), stamp))
  }

  /** A positive pid marks exactly the first `count` children. */
  ghost predicate PidsOk(pids: seq<int>, count: nat) {
    count <= |pids| && forall i :: 0 <= i < |pids| ==> (pids[i] > 0 <==> i < count)
  }

  predicate Created(ipc: IpcMode, fate: Fate) { fate.forkOk && (ipc.Pipe? ==> fate.pipeOk) }

  /** pipe() and fork() for child i: no pid is stored when the pipe fails, -1 when the fork does. */
  method Fork(ipc: IpcMode, fate: Fate, i: nat) returns (pid: int)
    ensures pid > 0 <==> Created(ipc, fate)
  {
    if ipc.Pipe? && !fate.pipeOk {
      return 0;
    }
    if !fate.forkOk {
      return -1;
    }
    return i + 1;
  }

  /** What the first `count` children have handed over, by pipe or in the table. */
  ghost predicate HandedOver(ipc: IpcMode, g: int -> Tally, stamp: Stamp, fates: seq<Fate>, table: ShmTable,
                             pipes: seq<Channel>, count: nat)
    reads pipes, table.slots, table.done
  {
    if ipc.Pipe? then PipesOk(pipes, g, stamp, fates, count) else SlotsOk(table, g, stamp, fates, count)
  }

  /** What child i does with the pipe or the table: its hand-over is the only effect the parent sees. */
  method ChildHandsOver(ipc: IpcMode, g: int -> Tally, stamp: Stamp, fates: seq<Fate>, table: ShmTable, i: nat,
                        pipes: seq<Channel>)
    returns (extended: seq<Channel>)
    requires i < |fates| && table.Valid() && HandedOver(ipc, g, stamp, fates, table, pipes, i)
    modifies table.slots, table.done
    ensures HandedOver(ipc, g, stamp, fates, table, extended, i + 1)
    ensures forall ch <- extended :: ch in pipes || fresh(ch)
  {
    extended := pipes;
    if ipc.Pipe? {
      var ch := ChildWritesPipe(g(i), stamp, fates[i]);
      extended := pipes + [ch];
    } else {
      ChildWritesSlot(table, i, g(i), stamp, fates[i]);
    }
  }

  ghost predicate AllCreated(ipc: IpcMode, fates: seq<Fate>, count: nat) {
    count <= |fates| && forall i :: 0 <= i < count ==> Created(ipc, fates[i])
  }

  lemma PidsStep(pids: seq<int>, i: nat, pid: int)
    requires PidsOk(pids, i) && i < |pids|
    ensures PidsOk(pids[i := pid], if pid > 0 then i + 1 else i)
  {
  }

  /** The fork loop after `count` children. */
  ghost predicate Forked(ipc: IpcMode, g: int -> Tally, stamp: Stamp, fates: seq<Fate>, table: ShmTable,
                         pids: seq<int>, pipes: seq<Channel>, count: nat)
    reads pipes, table.slots, table.done
  {
    && |pids| == |fates| && PidsOk(pids, count) && AllCreated(ipc, fates, count)
    && HandedOver(ipc, g, stamp, fates, table, pipes, count)
  }

  /** One iteration of the fork loop: the parent's record of child i, and what the child does. */
  method ForkChild(ipc: IpcMode, g: int -> Tally, stamp: Stamp, fates: seq<Fate>, table: ShmTable,
                   pids: seq<int>, pipes: seq<Channel>, i: nat)
    returns (ok: bool, pidsAfter: seq<int>, pipesAfter: seq<Channel>)
    requires i < |fates| && table.Valid() && Forked(ipc, g, stamp, fates, table, pids, pipes, i)
    modifies table.slots, table.done
    ensures ok == Created(ipc, fates[i])
    ensures Forked(ipc, g, stamp, fates, table, pidsAfter, pipesAfter, if ok then i + 1 else i)
    ensures forall ch <- pipesAfter :: ch in pipes || fresh(ch)
  {
    var pid := Fork(ipc, fates[i], i);
    PidsStep(pids, i, pid);
    ok, pidsAfter, pipesAfter := pid > 0, pids[i := pid], pipes;
    if ok {
      pipesAfter := ChildHandsOver(ipc, g, stamp, fates, table, i, pipes);
    }
  }

  /** The fork loop: stops at the first failing pipe or fork. `started` children exist afterwards. */
  method ForkLoop(ipc: IpcMode, g: int -> Tally, stamp: Stamp, fates: seq<Fate>, table: ShmTable)
    returns (pids: seq<int>, pipes: seq<Channel>, failed: bool, ghost started: nat)
    requires table.Valid() && table.slots.Length == |fates|
    requires forall i :: 0 <= i < |fates| ==> !table.done[i]
    modifies table.slots, table.done
    ensures Forked(ipc, g, stamp, fates, table, pids, pipes, started) && forall ch <- pipes :: fresh(ch)
    ensures failed <==> started < |fates|
    ensures started < |fates| ==> !Created(ipc, fates[started])
  {
    pids := seq(|fates|, _ => 0);
    pipes, failed := [], false;
    var i := 0;
    while i < |fates| && !failed
      invariant i <= |fates| && (failed ==> i < |fates| && !Created(ipc, fates[i]))
      invariant Forked(ipc, g, stamp, fates, table, pids, pipes, i) && forall ch <- pipes :: fresh(ch)
      decreases |fates| - i, !failed
    {
      var ok;
      ok, pids, pipes := ForkChild(ipc, g, stamp, fates, table, pids, pipes, i);
      if ok {
        i := i + 1;
      } else {
        failed := true;
      }
    }
    started := i;
  }

  /** The wait loop: every started child is reaped, in order. */
  method ReapLoop(pids: seq<int>, fates: seq<Fate>, ghost started: nat) returns (failed: bool)
    requires |pids| == |fates| && PidsOk(pids, started)
    ensures failed <==> exists i :: 0 <= i < started && (!fates[i].waitOk || fates[i].life.Dies?)
  {
    failed := false;
    for i := 0 to |fates|
      invariant failed <==> exists k :: 0 <= k < i && k < started && (!fates[k].waitOk || fates[k].life.Dies?)
    {
      if pids[i] > 0 && (!fates[i].waitOk || fates[i].life.Dies?) {
        failed := true;
      }
    }
  }

  /** Reads one child's result and merges it: all of it or nothing. */
  method MergeFromPipe(ch: Channel, t: Tally, ghost stamp: Stamp, ghost fate: Fate, out: Result) returns (ok: bool)
    requires out.Valid() && PipeHolds(ch, t, stamp, fate) && FitsLong(t)
    modifies ch, out, out.histogram
    ensures out.Counters() == if ok then Add(old(out.Counters()), t) else old(out.Counters())
    ensures !ok ==> fate.life.Dies? || fate.broken
    ensures !fate.broken ==> (ok <==> Delivers(fate))
  {
    ghost var sent := ch.bytes;
    var rc, r := ReadResult(ch);
    if rc != 0 {
      return false;
    }
    WholeImage(sent, t, stamp);
    MergeRecord(out, r);
    return true;
  }

  lemma WholeImage(sent: seq<Byte>, t: Tally, stamp: Stamp)
    requires sent <= Encode(RecordOf(t, stamp)) && |sent| >= RESULT_SIZE && FitsLong(t)
    ensures Decode(sent[..RESULT_SIZE]).tally == t
  {
    assert sent[..RESULT_SIZE] == Encode(RecordOf(t, stamp));
    RecordRoundTrip(RecordOf(t, stamp));
  }

  method MergeRecord(out: Result, r: Record)
    requires out.Valid()
    modifies out, out.histogram
    ensures out.Counters() == Add(old(out.Counters()), r.tally)
  {
    var child := new Result();
    child.Load(r);
    out.Merge(child);
  }

  /** Bookkeeping of the read loops: the counters are the merge of `merged`, distinct children below i. */
  ghost predicate Tracks(counters: Tally, g: int -> Tally, merged: seq<int>, readCount: nat, i: nat) {
    && counters == MergeAll(merged, g) && |merged| == readCount
    && Distinct(merged) && forall b <- merged :: 0 <= b < i
  }

  lemma TracksMerge(counters: Tally, g: int -> Tally, merged: seq<int>, readCount: nat, i: nat)
    requires Tracks(counters, g, merged, readCount, i)
    ensures Tracks(Add(counters, g(i)), g, merged + [i], readCount + 1, i + 1)
    ensures merged == UpTo(i) ==> merged + [i] == UpTo(i + 1)
  {
    MergeAllSnoc(merged, i, g);
    OccursSnoc(merged, i);
    OccursIn(merged, i);
  }

  /** The children among the first n that delivered, in order. */
  function Delivered(fates: seq<Fate>, n: nat): seq<int>
    requires n <= |fates|
  {
    if n == 0 then [] else Delivered(fates, n - 1) + if Delivers(fates[n - 1]) then [n - 1] else []
  }

  /** How many children are started: as many as come before the first failing pipe or fork. */
  function StartedFrom(ipc: IpcMode, fates: seq<Fate>, i: nat): (started: nat)
    requires i <= |fates|
    ensures i <= started <= |fates|
    decreases |fates| - i
  {
    if i == |fates| || !Created(ipc, fates[i]) then i else StartedFrom(ipc, fates, i + 1)
  }

  lemma {:induction false} StartedIs(ipc: IpcMode, fates: seq<Fate>, i: nat, started: nat)
    requires i <= started && AllCreated(ipc, fates, started)
    requires started < |fates| ==> !Created(ipc, fates[started])
    ensures StartedFrom(ipc, fates, i) == started
    decreases started - i
  {
    if i < started {
      StartedIs(ipc, fates, i + 1, started);
    }
  }

  lemma TracksSkip(counters: Tally, g: int -> Tally, merged: seq<int>, readCount: nat, i: nat, j: nat)
    requires Tracks(counters, g, merged, readCount, i) && i <= j
    ensures Tracks(counters, g, merged, readCount, j)
  {
  }

  predicate Unbroken(fates: seq<Fate>, n: nat) {
    forall i :: 0 <= i < n && i < |fates| ==> !fates[i].broken
  }

  /** The read loop over pipes after i children. */
  ghost predicate ReadSoFar(counters: Tally, g: int -> Tally, fates: seq<Fate>, merged: seq<int>, readCount: nat,
                            failed: bool, i: nat)
  {
    && i <= |fates| && Tracks(counters, g, merged, readCount, i)
    && (!failed ==> merged == UpTo(i))
    && (failed ==> exists k :: 0 <= k < i && (fates[k].life.Dies? || fates[k].broken))
    && (Unbroken(fates, i) ==> merged == Delivered(fates, i))
  }

  lemma ReadNothing(g: int -> Tally, fates: seq<Fate>)
    ensures ReadSoFar(ZERO, g, fates, [], 0, false, 0)
  {
  }

  lemma ReadStep(counters: Tally, g: int -> Tally, fates: seq<Fate>, merged: seq<int>, readCount: nat, failed: bool,
                 i: nat, ok: bool)
    requires ReadSoFar(counters, g, fates, merged, readCount, failed, i) && i < |fates|
    requires !ok ==> fates[i].life.Dies? || fates[i].broken
    requires !fates[i].broken ==> (ok <==> Delivers(fates[i]))
    ensures ReadSoFar(if ok then Add(counters, g(i)) else counters, g, fates, if ok then merged + [i] else merged,
                      if ok then readCount + 1 else readCount, failed || !ok, i + 1)
  {
    TracksMerge(counters, g, merged, readCount, i);
    TracksSkip(counters, g, merged, readCount, i, i + 1);
  }

  method ReadOnePipe(g: int -> Tally, ghost stamp: Stamp, pipe: Channel, fates: seq<Fate>, i: nat, wasFailed: bool,
                     wasRead: nat, ghost was: seq<int>, out: Result)
    returns (failed: bool, readCount: nat, ghost merged: seq<int>)
    requires out.Valid() && i < |fates| && PipeHolds(pipe, g(i), stamp, fates[i]) && FitsLong(g(i))
    requires ReadSoFar(out.Counters(), g, fates, was, wasRead, wasFailed, i)
    modifies pipe, out, out.histogram
    ensures ReadSoFar(out.Counters(), g, fates, merged, readCount, failed, i + 1)
  {
    ghost var counters := out.Counters();
    var ok := MergeFromPipe(pipe, g(i), stamp, fates[i], out);
    ReadStep(counters, g, fates, was, wasRead, wasFailed, i, ok);
    failed, readCount, merged := wasFailed, wasRead, was;
    if ok {
      merged, readCount := merged + [i], readCount + 1;
    } else {
      failed := true;
    }
  }

  /** The read loop over pipes: `merged` are the children whose whole result was read and merged. */
  method ReadPipes(g: int -> Tally, ghost stamp: Stamp, pids: seq<int>, pipes: seq<Channel>, fates: seq<Fate>,
                   ghost started: nat, out: Result) returns (failed: bool, readCount: nat, ghost merged: seq<int>)
    requires out.Valid() && out.Counters() == ZERO
    requires |pids| == |fates| && PidsOk(pids, started)
    requires PipesOk(pipes, g, stamp, fates, started) && forall i :: 0 <= i < started ==> FitsLong(g(i))
    modifies out, out.histogram, set ch | ch in pipes
    ensures ReadSoFar(out.Counters(), g, fates, merged, readCount, failed, started)
  {
    failed, readCount, merged := false, 0, [];
    ghost var n := 0;
    ReadNothing(g, fates);
    for i := 0 to |fates|
      invariant n == (if i < started then i else started)
      invariant ReadSoFar(out.Counters(), g, fates, merged, readCount, failed, n)
      invariant forall k :: i <= k < started ==> unchanged(pipes[k])
    {
      if pids[i] > 0 {
        assert PipeHolds(pipes[i], g(i), stamp, fates[i]);
        failed, readCount, merged := ReadOnePipe(g, stamp, pipes[i], fates, i, failed, readCount, merged, out);
        n := n + 1;
      }
    }
  }

  /** The read loop over shared slots: every slot must be done. */
  method ReadSlots(g: int -> Tally, ghost stamp: Stamp, table: ShmTable, fates: seq<Fate>, ghost started: nat, out: Result)
    returns (failed: bool, readCount: nat, ghost merged: seq<int>)
    requires out.Valid() && out.Counters() == ZERO && started <= |fates| && SlotsOk(table, g, stamp, fates, started)
    modifies out, out.histogram
    ensures Tracks(out.Counters(), g, merged, readCount, started)
    ensures !failed ==> started == |fates| && merged == UpTo(started)
    ensures failed ==> started < |fates| || exists i :: 0 <= i < started && fates[i].life.Dies?
    ensures merged == Delivered(fates, started)
  {
    failed, readCount, merged := false, 0, [];
    for i := 0 to |fates|
      invariant merged == Delivered(fates, if i < started then i else started)
      invariant Tracks(out.Counters(), g, merged, readCount, if i < started then i else started)
      invariant !failed ==> i <= started && merged == UpTo(i)
      invariant failed ==> started < |fates| || exists k :: 0 <= k < started && fates[k].life.Dies?
    {
      var ok, r := table.ReadResult(i);
      if i < started {
        TracksSkip(out.Counters(), g, merged, readCount, i, i + 1);
      }
      if ok {
        TracksMerge(out.Counters(), g, merged, readCount, i);
        MergeRecord(out, r);
        merged, readCount := merged + [i], readCount + 1;
      } else {
        failed := true;
      }
    }
  }

  predicate NoPipeBroken(ipc: IpcMode, fates: seq<Fate>) {
    ipc.Pipe? ==> Unbroken(fates, |fates|)
  }

  /** What either read loop leaves behind when `started` children existed. */
  ghost predicate ReadAll(ipc: IpcMode, counters: Tally, g: int -> Tally, fates: seq<Fate>, started: nat,
                          merged: seq<int>, readCount: nat, failed: bool)
  {
    && started <= |fates| && Tracks(counters, g, merged, readCount, started)
    && (!failed ==> merged == UpTo(started))
    && (failed ==> started < |fates| ||
                   exists i :: 0 <= i < started && (fates[i].life.Dies? || (ipc.Pipe? && fates[i].broken)))
    && (NoPipeBroken(ipc, fates) ==> merged == Delivered(fates, started))
  }

  method ReadChildren(ipc: IpcMode, g: int -> Tally, ghost stamp: Stamp, table: ShmTable, pids: seq<int>,
                      pipes: seq<Channel>, fates: seq<Fate>, ghost started: nat, out: Result)
    returns (failed: bool, readCount: nat, ghost merged: seq<int>)
    requires out.Valid() && out.Counters() == ZERO
    requires Forked(ipc, g, stamp, fates, table, pids, pipes, started) && forall i :: 0 <= i < started ==> FitsLong(g(i))
    modifies out, out.histogram, set ch | ch in pipes
    ensures ReadAll(ipc, out.Counters(), g, fates, started, merged, readCount, failed)
  {
    if ipc.Pipe? {
      failed, readCount, merged := ReadPipes(g, stamp, pids, pipes, fates, started, out);
    } else {
      failed, readCount, merged := ReadSlots(g, stamp, table, fates, started, out);
    }
  }

  /** What the parent's return code and counters say, given what its three loops did. */
  lemma ParentEnds(ipc: IpcMode, counters: Tally, g: int -> Tally, fates: seq<Fate>, started: nat, merged: seq<int>,
                   readCount: nat, forkFailed: bool, reapFailed: bool, readFailed: bool)
    requires ReadAll(ipc, counters, g, fates, started, merged, readCount, readFailed)
    requires AllCreated(ipc, fates, started) && (forkFailed <==> started < |fates|)
    requires forkFailed ==> !Created(ipc, fates[started])
    requires reapFailed <==> exists i :: 0 <= i < started && (!fates[i].waitOk || fates[i].life.Dies?)
    ensures counters == MergeAll(merged, g) && Distinct(merged) && readCount == |merged|
    ensures forall b <- merged :: 0 <= b < |fates|
    ensures NoPipeBroken(ipc, fates) ==> merged == Delivered(fates, StartedFrom(ipc, fates, 0))
    ensures !forkFailed && !reapFailed && !readFailed ==>
      && (forall fate <- fates :: Sound(ipc, fate)) && counters == MergeFirst(|fates|, g) && merged == UpTo(|fates|)
    ensures forkFailed || reapFailed || readFailed ==> !AllGoesWell(ipc, fates)
  {
    StartedIs(ipc, fates, 0, started);
    MergeAllUpTo(|fates|, g);
    Verdict(ipc, fates, started, forkFailed, reapFailed, readFailed);
  }

  /** The parent of process and hybrid mode, where child i would hand over the tally g(i).

      It returns 0 only if nothing went wrong and every child's complete result was merged exactly once;
      it does return 0 when nothing went wrong and no pipe was broken; and whatever happened, `out` holds
      complete results of distinct children and nothing else, stamped with its checksum: without broken
      pipes, of exactly those children that were started and delivered, in order. */
  method RunChildren(trials: int, ipc: IpcMode, g: int -> Tally, fates: seq<Fate>, out: Result)
    returns (rc: int, readCount: nat, bytesRead: nat, ghost merged: seq<int>)
    requires out.Valid() && forall i :: 0 <= i < |fates| ==> FitsLong(g(i))
    modifies out, out.histogram
    ensures rc == 0 || rc == -1
    ensures |fates| == 0 ==> rc == -1
    ensures bytesRead == RESULT_SIZE * readCount
    ensures rc == 0 ==>
      && (forall fate <- fates :: Sound(ipc, fate))
      && out.Counters() == MergeFirst(|fates|, g) && merged == UpTo(|fates|)
    ensures |fates| > 0 && AllGoesWell(ipc, fates) ==> rc == 0
    ensures |fates| > 0 && NoPipeBroken(ipc, fates) ==> merged == Delivered(fates, StartedFrom(ipc, fates, 0))
    ensures |fates| > 0 ==>
      && out.Counters() == MergeAll(merged, g) && Distinct(merged) && (forall b <- merged :: 0 <= b < |fates|)
      && out.checksum == Checksum(out.Counters())
      && readCount == |merged| && bytesRead == RESULT_SIZE * readCount
  {
    merged, readCount, bytesRead := [], 0, 0;
    if |fates| == 0 {
      return -1, readCount, bytesRead, merged;
    }
    out.Init();
    var table := new ShmTable(|fates|);
    var pids, pipes, forkFailed, started := ForkLoop(ipc, g, Checksum, fates, table);
    var reapFailed := ReapLoop(pids, fates, started);
    var readFailed;
    readFailed, readCount, merged := ReadChildren(ipc, g, Checksum, table, pids, pipes, fates, started, out);
    bytesRead := RESULT_SIZE * readCount;
    ParentEnds(ipc, out.Counters(), g, fates, started, merged, readCount, forkFailed, reapFailed, readFailed);
    var _ := Finalize(out, trials);
    rc := if forkFailed || reapFailed || readFailed then -1 else 0;
  }

  /** What the three failure flags together say about the fates. */
  lemma Verdict(ipc: IpcMode, fates: seq<Fate>, started: nat, forkFailed: bool, reapFailed: bool, readFailed: bool)
    requires started <= |fates| && (forkFailed <==> started < |fates|)
    requires forkFailed ==> !Created(ipc, fates[started])
    requires AllCreated(ipc, fates, started)
    requires reapFailed <==> exists i :: 0 <= i < started && (!fates[i].waitOk || fates[i].life.Dies?)
    requires readFailed ==>
      (forkFailed || exists i :: 0 <= i < started && (fates[i].life.Dies? || (ipc.Pipe? && fates[i].broken)))
    ensures !forkFailed && !reapFailed && !readFailed ==>
      started == |fates| && forall fate <- fates :: Sound(ipc, fate)
    ensures forkFailed || reapFailed || readFailed ==>
      exists fate <- fates :: !Sound(ipc, fate) || (ipc.Pipe? && fate.broken)
  {
    if forkFailed {
      assert fates[started] in fates;
    } else if reapFailed {
      var i :| 0 <= i < started && (!fates[i].waitOk || fates[i].life.Dies?);
      assert fates[i] in fates;
    } else if readFailed {
      var i :| 0 <= i < started && (fates[i].life.Dies? || (ipc.Pipe? && fates[i].broken));
      assert fates[i] in fates;
    }
  }

  lemma PartFitsLong(f: int -> Outcome, n: int, k: int, i: int)
    requires 0 <= n <= LONG_MAX && 0 <= i < k
    ensures FitsLong(RangeTally(f, PartStart(n, k, i), PartEnd(n, k, i)))
  {
    PartArithmeticFits(n, k, i);
    CountersWithinTrials(f, PartStart(n, k, i), PartEnd(n, k, i));
    forall c: Counter
      ensures LONG_MIN <= Get(RangeTally(f, PartStart(n, k, i), PartEnd(n, k, i)), c) <= LONG_MAX
    {
      assert 0 <= Get(RangeTally(f, PartStart(n, k, i), PartEnd(n, k, i)), c)
               <= PartEnd(n, k, i) - PartStart(n, k, i);
    }
  }

  /** Child i's part of the trials. */
  function PartTallies(f: int -> Outcome, trials: int, processes: nat): int -> Tally {
    (i: int) => if 0 <= i < processes
                then RangeTally(f, PartStart(trials, processes, i), PartEnd(trials, processes, i)) else ZERO
  }

  lemma PartTalliesMerge(f: int -> Outcome, trials: int, processes: nat)
    requires 0 < trials && 0 < processes
    ensures MergeFirst(processes, PartTallies(f, trials, processes)) == RangeTally(f, 0, trials)
    ensures IsValid(RangeTally(f, 0, trials), trials)
  {
    forall i | 0 <= i < processes
      ensures IsPart(f, 0, trials, processes, i, PartTallies(f, trials, processes)(i))
    {
    }
    PartsMergeToWhole(f, 0, trials, processes, PartTallies(f, trials, processes));
    SequentialIsValid(f, trials);
  }

  lemma PartUndercounts(f: int -> Outcome, trials: nat, processes: nat, i: nat)
    requires i < processes
    ensures Undercounts(PartTallies(f, trials, processes)(i), PartTallies(f, trials, processes)(i))
  {
    PartsJoin(trials, processes, i);
    CountersWithinTrials(f, PartStart(trials, processes, i), PartEnd(trials, processes, i));
  }

  /** Results of distinct children that undercount their parts undercount the whole when merged. */
  lemma ChildrenUndercount(f: int -> Outcome, trials: nat, processes: nat, g: int -> Tally, merged: seq<int>, r: Tally)
    requires 0 < trials && 0 < processes && r == MergeAll(merged, g)
    requires Distinct(merged) && forall b <- merged :: 0 <= b < processes
    requires forall i :: 0 <= i < processes ==> Undercounts(g(i), PartTallies(f, trials, processes)(i))
    ensures UndercountsRange(r, f, 0, trials)
  {
    DistinctUndercount(merged, processes, g);
    MergeUndercounts(processes, g, PartTallies(f, trials, processes));
    PartTalliesMerge(f, trials, processes);
    UndercountsTrans(r, MergeFirst(processes, g), RangeTally(f, 0, trials));
  }

  /** What child i of process mode computes: its part as one batch. */
  method RunPart(f: int -> Outcome, trials: nat, processes: nat, i: nat) returns (t: Tally)
    requires i < processes
    ensures t == PartTallies(f, trials, processes)(i)
  {
    var local := new Result();
    RunBatch(f, PartStart(trials, processes, i), PartEnd(trials, processes, i), local);
    var record := local.Copy();
    t := record.tally;
  }

  method RunParts(f: int -> Outcome, trials: nat, processes: nat) returns (parts: seq<Tally>)
    ensures |parts| == processes
    ensures forall i :: 0 <= i < processes ==> parts[i] == PartTallies(f, trials, processes)(i)
  {
    parts := [];
    for i := 0 to processes
      invariant |parts| == i
      invariant forall k :: 0 <= k < i ==> parts[k] == PartTallies(f, trials, processes)(k)
    {
      var t := RunPart(f, trials, processes, i);
      parts := parts + [t];
    }
  }

  /** Source: run_process_mode. */
  method RunProcessMode(f: int -> Outcome, trials: int, ipc: IpcMode, fates: seq<Fate>, out: Result)
    returns (rc: int, readCount: nat, bytesRead: nat)
    requires out.Valid() && 0 < trials <= LONG_MAX
    modifies out, out.histogram
    ensures rc == 0 ==> out.IsSequentialResult(f, trials) && IsValid(out.Counters(), trials)
    ensures rc == 0 ==> (forall fate <- fates :: Sound(ipc, fate)) && readCount == |fates|
    ensures |fates| > 0 && AllGoesWell(ipc, fates) ==> rc == 0
    ensures rc == 0 || rc == -1
    ensures |fates| > 0 ==> UndercountsRange(out.Counters(), f, 0, trials)
    ensures |fates| > 0 ==> out.checksum == Checksum(out.Counters())
    ensures bytesRead == RESULT_SIZE * readCount
  {
    var processes := |fates|;
    var parts := RunParts(f, trials, processes);
    var g := (i: int) => if 0 <= i < processes then parts[i] else ZERO;
    forall i | 0 <= i < processes
      ensures FitsLong(g(i)) && Undercounts(g(i), PartTallies(f, trials, processes)(i))
    {
      PartFitsLong(f, trials, processes, i);
      PartUndercounts(f, trials, processes, i);
    }
    ghost var merged;
    rc, readCount, bytesRead, merged := RunChildren(trials, ipc, g, fates, out);
    if processes > 0 {
      ChildrenUndercount(f, trials, processes, g, merged, out.Counters());
    }
    if rc == 0 {
      PartTalliesMerge(f, trials, processes);
      MergeFirstCongruent(processes, g, PartTallies(f, trials, processes));
    }
  }

  // ----- Hybrid mode -----

  /** What happens to the thread group of a child: how many threads can be created, and how they interleave. */
  datatype GroupRun = GroupRun(created: nat, steps: seq<Step>)

  /** A run of the created threads of a group on the trials from s to e. */
  ghost predicate RunsIn(f: int -> Outcome, s: int, e: int, threads: nat, mode: SyncMode, run: GroupRun)
    requires 0 < threads
  {
    s <= e && run.created <= threads && IsRun(f, mode, s, e - s, threads, run.created, run.steps)
  }

  /** `r` is what some interleaving of all threads of a group leaves behind. */
  ghost predicate OutcomeIn(f: int -> Outcome, s: int, e: int, threads: nat, mode: SyncMode, r: Tally)
    requires 0 < threads
  {
    s <= e && IsOutcome(f, mode, s, e - s, threads, r)
  }

  ghost predicate IsGroupRun(f: int -> Outcome, trials: nat, processes: nat, threads: nat, mode: SyncMode, i: nat,
                             run: GroupRun)
    requires i < processes && 0 < threads
  {
    RunsIn(f, PartStart(trials, processes, i), PartEnd(trials, processes, i), threads, mode, run)
  }

  ghost predicate IsGroupOutcome(f: int -> Outcome, trials: nat, processes: nat, threads: nat, mode: SyncMode, i: nat,
                                 r: Tally)
    requires i < processes && 0 < threads
  {
    OutcomeIn(f, PartStart(trials, processes, i), PartEnd(trials, processes, i), threads, mode, r)
  }

  ghost predicate UndercountsPart(r: Tally, f: int -> Outcome, trials: nat, processes: nat, i: nat)
    requires i < processes
  {
    UndercountsRange(r, f, PartStart(trials, processes, i), PartEnd(trials, processes, i))
  }

  method RunGroup(f: int -> Outcome, start: int, end: int, threads: nat, mode: SyncMode, run: GroupRun)
    returns (rc: int, r: Tally)
    requires 0 < threads && RunsIn(f, start, end, threads, mode, run)
    ensures rc == if run.created < threads then -1 else 0
    ensures rc == 0 ==> OutcomeIn(f, start, end, threads, mode, r)
    ensures UndercountsRange(r, f, start, end)
  {
    var trials := end - start;
    var local := new Result();
    rc := RunThreadGroup(f, mode, start, trials, threads, run.created, run.steps, local);
    RunHasOutcome(f, mode, start, trials, threads, run.created, run.steps);
    var record := local.Copy();
    r := record.tally;
    FinalNeverOvercounts(f, mode, start, trials, end, threads, run.created, true, run.steps, r);
  }

  /** What child i computes before it hands over, and the return code of its thread group. */
  method RunChildGroup(f: int -> Outcome, trials: nat, processes: nat, threads: nat, mode: SyncMode, i: nat,
                       run: GroupRun) returns (rc: int, r: Tally)
    requires i < processes && 0 < threads && IsGroupRun(f, trials, processes, threads, mode, i, run)
    ensures rc == if run.created < threads then -1 else 0
    ensures rc == 0 ==> IsGroupOutcome(f, trials, processes, threads, mode, i, r)
    ensures UndercountsPart(r, f, trials, processes, i)
  {
    rc, r := RunGroup(f, PartStart(trials, processes, i), PartEnd(trials, processes, i), threads, mode, run);
  }

  /** A child whose thread group fails exits with status 1 before it writes anything. */
  function FateOfChild(fate: Fate, rc: int): Fate {
    if rc != 0 then fate.(life := Dies(0)) else fate
  }

  /** The tally and the end of child i are what its thread group and its fate make of them. */
  ghost predicate ChildEnds(f: int -> Outcome, trials: nat, processes: nat, threads: nat, mode: SyncMode, i: nat,
                            run: GroupRun, fate: Fate, r: Tally, end: Fate)
    requires i < processes && 0 < threads
  {
    && UndercountsPart(r, f, trials, processes, i)
    && if run.created < threads then end == fate.(life := Dies(0))
       else end == fate && IsGroupOutcome(f, trials, processes, threads, mode, i, r)
  }

  /** What the children compute, each in its own address space, and how they end. */
  method RunGroups(f: int -> Outcome, trials: nat, threads: nat, mode: SyncMode, runs: seq<GroupRun>, fates: seq<Fate>)
    returns (groups: seq<Tally>, ends: seq<Fate>)
    requires 0 < threads && |runs| == |fates|
    requires forall i :: 0 <= i < |runs| ==> IsGroupRun(f, trials, |runs|, threads, mode, i, runs[i])
    ensures |groups| == |ends| == |runs|
    ensures forall i :: 0 <= i < |runs| ==>
      ChildEnds(f, trials, |runs|, threads, mode, i, runs[i], fates[i], groups[i], ends[i])
  {
    groups, ends := [], [];
    var processes := |runs|;
    for i := 0 to processes
      invariant |groups| == |ends| == i
      invariant forall k :: 0 <= k < i ==>
        ChildEnds(f, trials, processes, threads, mode, k, runs[k], fates[k], groups[k], ends[k])
    {
      var rc, r := RunChildGroup(f, trials, processes, threads, mode, i, runs[i]);
      assert IsGroupRun(f, trials, processes, threads, mode, i, runs[i]);
      groups, ends := groups + [r], ends + [FateOfChild(fates[i], rc)];
    }
  }

  lemma GroupTally(f: int -> Outcome, trials: int, processes: nat, i: nat, r: Tally)
    requires 0 < trials <= LONG_MAX && i < processes && UndercountsPart(r, f, trials, processes, i)
    ensures FitsLong(r) && Undercounts(r, PartTallies(f, trials, processes)(i))
  {
    PartFitsLong(f, trials, processes, i);
    var q := RangeTally(f, PartStart(trials, processes, i), PartEnd(trials, processes, i));
    forall c: Counter
      ensures LONG_MIN <= Get(r, c) <= LONG_MAX
    {
      assert LONG_MIN <= Get(q, c) <= LONG_MAX && 0 <= Get(r, c) <= Get(q, c);
    }
  }

  lemma GroupIsExact(f: int -> Outcome, trials: nat, processes: nat, threads: nat, mode: SyncMode, i: nat, r: Tally)
    requires i < processes && 0 < threads && !mode.Nosync?
    requires IsGroupOutcome(f, trials, processes, threads, mode, i, r)
    ensures r == PartTallies(f, trials, processes)(i)
  {
    var s, e := PartStart(trials, processes, i), PartEnd(trials, processes, i);
    NormalModesAreSequential(f, mode, s, e - s, threads, r);
  }

  /** The children of hybrid mode as RunChildren sees them: their tallies and their ends. */
  method HybridChildren(f: int -> Outcome, trials: int, threads: nat, mode: SyncMode, runs: seq<GroupRun>, fates: seq<Fate>)
    returns (g: int -> Tally, ends: seq<Fate>)
    requires 0 < trials <= LONG_MAX && 0 < threads && |runs| == |fates|
    requires forall i :: 0 <= i < |runs| ==> IsGroupRun(f, trials, |runs|, threads, mode, i, runs[i])
    ensures |ends| == |fates|
    ensures forall i :: 0 <= i < |runs| ==> FitsLong(g(i)) && Undercounts(g(i), PartTallies(f, trials, |runs|)(i))
    ensures forall i :: 0 <= i < |runs| && !mode.Nosync? && runs[i].created == threads ==>
      g(i) == PartTallies(f, trials, |runs|)(i)
    ensures forall i :: 0 <= i < |runs| ==>
      runs[i].created <= threads && ends[i] == FateOfChild(fates[i], if runs[i].created < threads then -1 else 0)
  {
    var processes, groups := |runs|, [];
    groups, ends := RunGroups(f, trials, threads, mode, runs, fates);
    g := (i: int) => if 0 <= i < processes then groups[i] else ZERO;
    forall i | 0 <= i < processes
      ensures FitsLong(g(i)) && Undercounts(g(i), PartTallies(f, trials, processes)(i))
      ensures runs[i].created <= threads && ends[i] == FateOfChild(fates[i], if runs[i].created < threads then -1 else 0)
      ensures !mode.Nosync? && runs[i].created == threads ==> g(i) == PartTallies(f, trials, processes)(i)
    {
      assert IsGroupRun(f, trials, processes, threads, mode, i, runs[i]);
      assert ChildEnds(f, trials, processes, threads, mode, i, runs[i], fates[i], groups[i], ends[i]);
      GroupTally(f, trials, processes, i, groups[i]);
      if !mode.Nosync? && runs[i].created == threads {
        GroupIsExact(f, trials, processes, threads, mode, i, groups[i]);
      }
    }
  }

  /** Source: run_hybrid_mode. Child i runs a thread group on its part. With reduce or mutex a return code of 0
      means the sequential result; with nosync it means a result for which the mode check is exact. It is 0
      only if every child could create all its threads and nothing else went wrong, and it is 0 if so and no
      pipe was broken. Whatever happened, no counter exceeds its sequential value. */
  method RunHybridMode(f: int -> Outcome, trials: int, threads: nat, mode: SyncMode, runs: seq<GroupRun>,
                       ipc: IpcMode, fates: seq<Fate>, out: Result)
    returns (rc: int, readCount: nat, bytesRead: nat)
    requires out.Valid() && 0 < trials <= LONG_MAX && 0 < threads
    requires |runs| == |fates|
    requires forall i :: 0 <= i < |runs| ==> IsGroupRun(f, trials, |runs|, threads, mode, i, runs[i])
    modifies out, out.histogram
    ensures rc == 0 || rc == -1
    ensures rc == 0 && !mode.Nosync? ==> out.IsSequentialResult(f, trials) && IsValid(out.Counters(), trials)
    ensures |fates| > 0 ==> UndercountsRange(out.Counters(), f, 0, trials)
    ensures |fates| > 0 ==> out.checksum == Checksum(out.Counters())
    ensures bytesRead == RESULT_SIZE * readCount
    ensures rc == 0 ==>
      (IsValid(out.Counters(), trials) && out.checksum == Checksum(RangeTally(f, 0, trials))
       <==> out.Counters() == RangeTally(f, 0, trials))
    ensures rc == 0 ==> readCount == |fates|
    ensures rc == 0 ==> forall i :: 0 <= i < |fates| ==> Sound(ipc, fates[i]) && runs[i].created == threads
    ensures |fates| > 0 && AllGoesWell(ipc, fates) && (forall run <- runs :: run.created == threads) ==> rc == 0
  {
    var g, ends := HybridChildren(f, trials, threads, mode, runs, fates);
    ghost var merged;
    rc, readCount, bytesRead, merged := RunChildren(trials, ipc, g, ends, out);
    if |fates| > 0 {
      ChildrenUndercount(f, trials, |fates|, g, merged, out.Counters());
    }
    if rc == 0 {
      EndsWere(ipc, threads, runs, fates, ends);
      HybridEnds(f, trials, mode, |fates|, g, out.Counters(), out.checksum);
    }
  }

  lemma HybridEnds(f: int -> Outcome, trials: int, mode: SyncMode, processes: nat, g: int -> Tally, r: Tally, hash: Word64)
    requires 0 < trials <= LONG_MAX && 0 < processes
    requires !mode.Nosync? ==> forall i :: 0 <= i < processes ==> g(i) == PartTallies(f, trials, processes)(i)
    requires r == MergeFirst(processes, g) && UndercountsRange(r, f, 0, trials) && hash == Checksum(r)
    ensures var q := RangeTally(f, 0, trials);
      && (!mode.Nosync? ==> r == q && hash == Checksum(q) && IsValid(r, trials))
      && (IsValid(r, trials) && hash == Checksum(q) <==> r == q)
  {
    PartTalliesMerge(f, trials, processes);
    if !mode.Nosync? {
      MergeFirstCongruent(processes, g, PartTallies(f, trials, processes));
    }
    ModeCheckOfUndercount(r, RangeTally(f, 0, trials), trials);
  }

  /** If all children ended well, they created all their threads and their fates were sound. */
  lemma EndsWere(ipc: IpcMode, threads: nat, runs: seq<GroupRun>, fates: seq<Fate>, ends: seq<Fate>)
    requires |runs| == |fates| == |ends| && forall fate <- ends :: Sound(ipc, fate)
    requires forall i :: 0 <= i < |runs| ==>
      runs[i].created <= threads && ends[i] == FateOfChild(fates[i], if runs[i].created < threads then -1 else 0)
    ensures forall i :: 0 <= i < |fates| ==> Sound(ipc, fates[i]) && runs[i].created == threads
  {
    forall i | 0 <= i < |fates|
      ensures Sound(ipc, fates[i]) && runs[i].created == threads
    {
      assert ends[i] in ends;
    }
  }

  lemma {:induction false} MergeFirstCongruent(n: nat, g: int -> Tally, h: int -> Tally)
    requires forall i :: 0 <= i < n ==> g(i) == h(i)
    ensures MergeFirst(n, g) == MergeFirst(n, h)
  {
    if n > 0 {
      MergeFirstCongruent(n - 1, g, h);
    }
  }
}
