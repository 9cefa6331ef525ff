/** Over whole runs: what was acknowledged, what is being written and what is queued are together what clients
    asked for since the database was opened, in the order they asked. */
module Requests {
  import opened Keys
  import opened WriteGroup
  import opened Machine

  /** `done` holds what was done before the database was opened and then the writes of the first `n` who came since. */
  ghost predicate DoneUpTo(a: World, n: nat) {
    n <= |a.asked| && a.done == a.base + OpsOf(a.asked[..n])
  }

  /** How many of the writers who came since the database was opened have left the queue. */
  function Served(a: World): int
    requires a.state.Up?
  {
    |a.asked| - |a.state.m.queue|
  }

  /** The writers of the group stand at the front of the queue, and its operations are theirs. */
  ghost predicate GroupIsFront(m: Memory) {
    m.group.Group? ==>
      && m.group.count <= |m.queue| && m.group.ops == OpsOf(m.queue[..m.group.count])
      && forall i :: 0 <= i < m.group.count && m.queue[i].sync ==> m.queue[0].sync
  }

  /** The accounts of an open database: the queue is the end of what was asked, and all before it is done. */
  ghost predicate QueueOk(a: World)
    requires a.state.Up?
  {
    && 0 <= Served(a) && a.state.m.queue == a.asked[Served(a)..]
    && DoneUpTo(a, Served(a))
    && GroupIsFront(a.state.m)
  }

  ghost predicate Accounts(a: World) {
    if a.state.Up? then QueueOk(a) else exists n :: DoneUpTo(a, n)
  }

  // ----- the steps -----

  lemma EnqueueCounts(a: World, b: World, w: Writer)
    requires Accounts(a) && Enqueue(a, b, w)
    ensures Accounts(b)
  {
    var m, queue := a.state.m, b.state.m.queue;
    assert b.asked[..Served(a)] == a.asked[..Served(a)];
    assert m.group.Group? ==> queue[..m.group.count] == m.queue[..m.group.count];
  }

  lemma FormGroupCounts(a: World, b: World, count: nat)
    requires Accounts(a) && FormGroup(a, b, count)
    ensures Accounts(b)
  {
    hide OpsOf, SizeOf, Joins;
    LedBySync(a.state.m.queue, count);
  }

  lemma LedBySync(ws: seq<Writer>, count: nat)
    requires IsGroup(ws, count)
    ensures forall i :: 0 <= i < count && ws[i].sync ==> ws[0].sync
  {
    forall i | 0 < i < count && ws[i].sync
      ensures ws[0].sync
    {
      assert Joins(ws, i);
    }
  }

  /** The first `k` of a queue that starts at place `n` of what was asked. */
  lemma FrontServed(asked: seq<Writer>, n: nat, k: nat)
    requires n + k <= |asked|
    ensures OpsOf(asked[..n + k]) == OpsOf(asked[..n]) + OpsOf(asked[n..][..k])
    ensures asked[n..][k..] == asked[n + k..]
  {
    assert asked[..n + k] == asked[..n] + asked[n..][..k];
    JoinedQueues(asked[..n], asked[n..][..k]);
  }

  lemma FinishGroupCounts(a: World, b: World)
    requires Accounts(a) && FinishGroup(a, b)
    ensures Accounts(b)
  {
    hide OpsOf, GroupBatch;
    FrontServed(a.asked, Served(a), a.state.m.group.count);
  }

  lemma FinishFlushRequestCounts(a: World, b: World)
    requires Accounts(a) && FinishFlushRequest(a, b)
    ensures Accounts(b)
  {
    var n := Served(a);
    assert a.asked[n] == a.state.m.queue[0];
    OneMore(a.asked, n);
  }

  /** How many of the writers who came since the database was opened have their write on disk: those who left the
      queue, and the group once it is in the log. */
  function OnDisk(a: World): int
    requires a.state.Up?
  {
    |a.asked| - |a.state.m.queue| + if InLog(a.state) then a.state.m.group.count else 0
  }

  lemma CrashCountsTo(a: World)
    requires a.state.Up? && QueueOk(a)
    ensures 0 <= OnDisk(a) <= |a.asked| && AcceptedOps(a) == a.base + OpsOf(a.asked[..OnDisk(a)])
  {
    hide OpsOf, GroupBatch;
    if InLog(a.state) {
      FrontServed(a.asked, Served(a), a.state.m.group.count);
    }
  }

  lemma CrashCounts(a: World, b: World)
    requires Accounts(a) && Crash(a, b)
    ensures Accounts(b)
  {
    if a.state.Up? {
      CrashCountsTo(a);
      assert DoneUpTo(b, OnDisk(a));
    } else {
      var n :| DoneUpTo(a, n);
      assert DoneUpTo(b, n);
    }
  }

  lemma OpenCounts(a: World, b: World)
    requires Accounts(a) && Open(a, b)
    ensures Accounts(b)
  {
    assert b.asked[..0] == [];
  }

  /** Every other step leaves the requests, the queue and what was acknowledged alone. */
  ghost predicate Untouched(a: World, b: World) {
    && b.asked == a.asked && b.base == a.base && b.done == a.done && b.acked == a.acked
    && (if a.state.Up?
        then b.state.Up? && b.state.m.lastSequence == a.state.m.lastSequence
          && b.state.m.queue == a.state.m.queue && (b.state.m.group == a.state.m.group
          || (a.state.m.group.Group? && b.state.m.group.Group? && b.state.m.group.ops == a.state.m.group.ops
              && b.state.m.group.count == a.state.m.group.count))
        else !b.state.Up?)
  }

  lemma UntouchedCounts(a: World, b: World)
    requires Accounts(a) && Untouched(a, b)
    ensures Accounts(b)
  {
    if !a.state.Up? {
      var n :| DoneUpTo(a, n);
      assert DoneUpTo(b, n);
    }
  }

  lemma WriteStepCounts(a: World, b: World)
    requires Accounts(a) && WriteStep(a, b)
    ensures Accounts(b)
  {
    hide Accounts, IsGroup, OpsOf;
    if w :| Enqueue(a, b, w) {
      EnqueueCounts(a, b, w);
    } else if count :| FormGroup(a, b, count) {
      FormGroupCounts(a, b, count);
    } else if FinishGroup(a, b) {
      FinishGroupCounts(a, b);
    } else if FinishFlushRequest(a, b) {
      FinishFlushRequestCounts(a, b);
    } else {
      UntouchedCounts(a, b);
    }
  }

  lemma ReadingTouchesNothing(a: World, b: World)
    requires ReaderStep(a, b) || CollectStep(a, b)
    ensures Untouched(a, b)
  {
    hide KeepsTable;
  }

  lemma FlushingTouchesNothing(a: World, b: World)
    requires FlushStep(a, b)
    ensures Untouched(a, b)
  {
    hide FlushMakes;
  }

  lemma CompactingTouchesNothing(a: World, b: World)
    requires CompactStep(a, b)
    ensures Untouched(a, b)
  {
    hide IsSmallestSnapshot, Sound, Finished;
  }

  lemma OthersTouchNothing(a: World, b: World)
    requires ReaderStep(a, b) || CollectStep(a, b) || FlushStep(a, b) || CompactStep(a, b)
    ensures Untouched(a, b)
  {
    hide ReaderStep, CollectStep, FlushStep, CompactStep, Untouched;
    if ReaderStep(a, b) || CollectStep(a, b) {
      ReadingTouchesNothing(a, b);
    } else if FlushStep(a, b) {
      FlushingTouchesNothing(a, b);
    } else {
      CompactingTouchesNothing(a, b);
    }
  }

  lemma RecoveryStepCounts(a: World, b: World)
    requires Accounts(a) && RecoveryStep(a, b)
    ensures Accounts(b)
  {
    hide Accounts, IsLogList, NoneMissing, IsLastOf, BatchEntries;
    if Open(a, b) {
      OpenCounts(a, b);
    } else {
      UntouchedCounts(a, b);
    }
  }

  lemma NextCounts(a: World, b: World)
    requires Accounts(a) && Next(a, b)
    ensures Accounts(b)
  {
    hide Accounts, WriteStep, ReaderStep, FlushStep, CompactStep, CollectStep, RecoveryStep, Crash, Untouched;
    if WriteStep(a, b) {
      WriteStepCounts(a, b);
    } else if RecoveryStep(a, b) {
      RecoveryStepCounts(a, b);
    } else if Crash(a, b) {
      CrashCounts(a, b);
    } else {
      OthersTouchNothing(a, b);
      UntouchedCounts(a, b);
    }
  }

  lemma {:induction false} RunCounts(run: seq<World>)
    requires IsRun(run)
    ensures Accounts(run[|run| - 1])
  {
    hide Next, Accounts;
    if |run| == 1 {
      InitCounts(run[0]);
    } else {
      var before := run[..|run| - 1];
      forall i | 0 <= i < |before| - 1
        ensures Next(before[i], before[i + 1])
      {
        assert before[i] == run[i] && before[i + 1] == run[i + 1];
      }
      RunCounts(before);
      NextCounts(run[|run| - 2], run[|run| - 1]);
    }
  }

  lemma InitCounts(a: World)
    requires Init(a)
    ensures Accounts(a)
  {
    assert DoneUpTo(a, 0);
  }

  // ----- every run -----

  /** At every moment of every run while the database is open: the queue is the end of what was asked since; all that
      was asked before it is done, each writer's batch whole and in the order they came, on top of what was done when
      the database was opened; and the group being written is the front of the queue, led by a sync writer if there is
      one in it. */
  lemma AskedInOrder(run: seq<World>)
    requires IsRun(run) && run[|run| - 1].state.Up?
    ensures var a := run[|run| - 1]; var m := a.state.m; var n := |a.asked| - |m.queue|;
      && 0 <= n && m.queue == a.asked[n..] && a.base <= a.done
      && forall v: map<UserKey, Bytes> :: ApplyAll(v, a.done[|a.base|..]) == ApplyWriters(v, a.asked[..n])
    ensures var m := run[|run| - 1].state.m; m.group.Group? ==>
      && m.group.count <= |m.queue|
      && (forall v: map<UserKey, Bytes> :: ApplyAll(v, m.group.ops) == ApplyWriters(v, m.queue[..m.group.count]))
      && forall i :: 0 <= i < m.group.count && m.queue[i].sync ==> m.queue[0].sync
  {
    hide Next, Init, OpsOf;
    RunCounts(run);
    var a := run[|run| - 1];
    var m := a.state.m;
    assert a.done[|a.base|..] == OpsOf(a.asked[..Served(a)]);
    forall v: map<UserKey, Bytes>
      ensures ApplyAll(v, a.done[|a.base|..]) == ApplyWriters(v, a.asked[..Served(a)])
      ensures m.group.Group? ==> ApplyAll(v, m.group.ops) == ApplyWriters(v, m.queue[..m.group.count])
    {
      WriterByWriter(v, a.asked[..Served(a)]);
      if m.group.Group? {
        WriterByWriter(v, m.queue[..m.group.count]);
      }
    }
  }

  /** What a crash would keep are whole writes, all those before the group in flight and none twice or out of order. */
  lemma AcceptedIsAsked(run: seq<World>)
    requires IsRun(run)
    ensures var a := run[|run| - 1]; exists n: nat ::
      && n <= |a.asked| && (a.state.Up? ==> n == OnDisk(a))
      && ApplyAll(map[], AcceptedOps(a)) == ApplyWriters(ApplyAll(map[], a.base), a.asked[..n])
  {
    hide Next, Init, OpsOf;
    RunCounts(run);
    var a := run[|run| - 1];
    if a.state.Up? {
      CrashCountsTo(a);
      AcceptedAt(a, OnDisk(a));
    } else {
      var n :| DoneUpTo(a, n);
      AcceptedAt(a, n);
    }
  }

  lemma AcceptedAt(a: World, n: nat)
    requires n <= |a.asked| && AcceptedOps(a) == a.base + OpsOf(a.asked[..n])
    ensures ApplyAll(map[], AcceptedOps(a)) == ApplyWriters(ApplyAll(map[], a.base), a.asked[..n])
  {
    GroupIsQueueOrder(map[], a.base, OpsOf(a.asked[..n]));
    WriterByWriter(ApplyAll(map[], a.base), a.asked[..n]);
  }

  lemma WriteStepGrows(a: World, b: World)
    requires WriteStep(a, b)
    ensures a.done <= b.done && a.base == b.base && (b.asked == a.asked || exists w :: Enqueue(a, b, w))
  {
    hide IsGroup, OpsOf, Stamp;
  }

  lemma RecoveryStepGrows(a: World, b: World)
    requires RecoveryStep(a, b)
    ensures a.done == b.done && ((a.base == b.base && b.asked == a.asked) || Open(a, b))
  {
    hide IsLogList, NoneMissing, IsLastOf, BatchEntries;
  }

  /** No step takes an acknowledged operation back, and only a client's request adds to what was asked. */
  lemma NoneTakenBack(a: World, b: World)
    requires Next(a, b)
    ensures a.done <= b.done
    ensures a.state.Up? ==> a.base == b.base && (a.asked == b.asked || exists w :: b.asked == a.asked + [w])
  {
    hide WriteStep, ReaderStep, FlushStep, CompactStep, CollectStep, RecoveryStep, GroupBatch;
    if WriteStep(a, b) {
      WriteStepGrows(a, b);
    } else if RecoveryStep(a, b) {
      RecoveryStepGrows(a, b);
    } else if !Crash(a, b) {
      OthersTouchNothing(a, b);
    }
  }
}
