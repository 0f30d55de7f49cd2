/** The promises of the ScheduledTaskStore contract, over every run of the machine. */
module TaskStoreRuns {
  import opened Wrappers
  import opened TaskStore
  import opened TaskStoreLaws

  // ----- every step -----

  lemma JoinKeeps(s: Store, tx: Option<Token>, op: Joining)
    requires Inv(s) && Legal(s, StepJoin(tx, op))
    ensures Inv(Join(s, tx, op).1) && Moves(s, Join(s, tx, op).1)
  {
    hide Inv, Moves, Effect, View, DrawsNew, Draw, Write, Stage;
    StandStill(s);
    if Join(s, tx, op).0 == Done {
      if tx.None? {
        DirectKeeps(s, op);
      } else {
        StageKeeps(s, tx.value, op);
      }
    }
  }

  lemma StepKeeps(s: Store, step: Step)
    requires Inv(s) && Legal(s, step)
    ensures Inv(Next(s, step)) && Moves(s, Next(s, step))
  {
    hide Inv, Moves, Join, Commit, ClaimDue, GiveBackIdle, MarkUnsafe, RecordAttempt, Begin, Close, DrawsNew;
    match step
    case StepBegin(id, tenant) => BeginKeeps(s, id, tenant);
    case StepJoin(tx, op) => JoinKeeps(s, tx, op);
    case StepCommit(id) => CommitKeeps(s, id);
    case StepRollback(id) => CloseKeeps(s, id);
    case StepClaimDue(req, at, tokens) => ClaimKeeps(s, req, at, tokens);
    case StepGiveBackIdle(owner, keep) => GiveBackKeeps(s, owner, keep);
    case StepMarkUnsafe(ref) => MarkKeeps(s, ref);
    case StepRecordAttempt(ref, attempt) => RecordKeeps(s, ref, attempt);
    case _ => SweepKeeps(s, Next(s, step));
  }

  /** The states of a run from the empty store, one more than its steps. */
  ghost predicate Run(states: seq<Store>, steps: seq<Step>) {
    && |states| == |steps| + 1 && states[0] == EMPTY
    && forall i :: 0 <= i < |steps| ==> Legal(states[i], steps[i]) && states[i + 1] == Next(states[i], steps[i])
  }

  lemma {:induction false} RunKeeps(states: seq<Store>, steps: seq<Step>, i: nat)
    requires Run(states, steps) && i <= |steps|
    ensures Inv(states[i])
  {
    hide Inv, Legal, Next;
    if i == 0 {
      EmptyOk();
    } else {
      RunKeeps(states, steps, i - 1);
      StepKeeps(states[i - 1], steps[i - 1]);
    }
  }

  lemma EmptyOk()
    ensures Inv(EMPTY)
  {
  }

  lemma RunMoves(states: seq<Store>, steps: seq<Step>, i: nat)
    requires Run(states, steps) && i < |steps|
    ensures Inv(states[i]) && Inv(states[i + 1]) && Moves(states[i], states[i + 1])
  {
    hide Inv, Legal, Next, Moves;
    RunKeeps(states, steps, i);
    StepKeeps(states[i], steps[i]);
  }

  // ----- running tasks -----

  /** At every point of every run a task is RUNNING exactly when it carries a claim, and no two
      tasks of one entity are RUNNING. */
  lemma RunningTasks(states: seq<Store>, steps: seq<Step>, i: nat)
    requires Run(states, steps) && i <= |steps|
    ensures var rows := states[i].rows;
      && (forall k :: k in rows ==> (rows[k].status.Running? <==> rows[k].claim.Some?))
      && (forall k, other :: k in rows && other in rows && k != other && SameEntity(rows, k, other) ==>
            !(rows[k].status.Running? && rows[other].status.Running?))
  {
    RunKeeps(states, steps, i);
    var s := states[i];
    forall k | k in s.rows ensures s.rows[k].status.Running? <==> s.rows[k].claim.Some? {
      RowAt(s, k);
    }
  }

  // ----- the fence -----

  lemma HeldBefore(s: Store, s': Store, ref: Ref)
    requires Inv(s) && Moves(s, s') && Held(s'.rows, ref) && ref.claimToken in s.used
    ensures Held(s.rows, ref)
  {
    hide Inv;
    assert MayBecome(s, ref.Key(), s'.rows[ref.Key()]);
  }

  /** The ref's claim was drawn and holds its task's life no more. */
  predicate Stale(s: Store, ref: Ref) {
    ref.claimToken in s.used && !Held(s.rows, ref)
  }

  /** A stale ref never holds its task again, whatever is armed or claimed since. */
  lemma {:induction false} StaleStays(states: seq<Store>, steps: seq<Step>, i: nat, j: nat, ref: Ref)
    requires Run(states, steps) && i <= j <= |steps| && Stale(states[i], ref)
    ensures Stale(states[j], ref)
    decreases j - i
  {
    hide Inv, Legal, Next, Held;
    if i < j {
      RunMoves(states, steps, i);
      if Held(states[i + 1].rows, ref) {
        HeldBefore(states[i], states[i + 1], ref);
      }
      StaleStays(states, steps, i + 1, j, ref);
    }
  }

  // ----- open transactions -----

  /** A step leaves a transaction open before it with its snapshot, its start and the refs it was fenced by. */
  ghost predicate SameTx(s: Store, s': Store, id: Token) {
    && id in s.open && id in s'.open && s'.open[id].snapshot == s.open[id].snapshot
    && s'.open[id].tenant == s.open[id].tenant && s'.open[id].began == s.open[id].began && s.open[id].accepted <= s'.open[id].accepted
  }

  lemma OpenStep(s: Store, step: Step, id: Token)
    requires Legal(s, step) && id in s.used && id in Next(s, step).open
    ensures SameTx(s, Next(s, step), id)
  {
    hide Overlay, Stamped, Conflicts, Busy, Claimable, Held, Join, DrawsNew, Referenced, Current, OnePerEntity, ValidErrorText,
      MarkUnsafe, RecordAttempt, ClaimDue, GiveBackIdle, SweepOwners, SweepMarks, Commit;
    match step
    case StepJoin(tx, op) => OpenAfterJoin(s, tx, op, id);
    case StepCommit(closed) => OpenAfterCommit(s, closed, id);
    case StepBegin(_, _) =>
    case StepRollback(_) =>
    case _ => OpenKept(s, step);
  }

  lemma OpenKept(s: Store, step: Step)
    requires Legal(s, step)
    requires !step.StepBegin? && !step.StepJoin? && !step.StepCommit? && !step.StepRollback?
    ensures Next(s, step).open == s.open
  {
    hide Overlay, Stamped, Busy, Claimable, Held, Referenced, Current, OnePerEntity, ValidErrorText, Recorded, Released, Claims;
  }

  lemma OpenAfterCommit(s: Store, closed: Token, id: Token)
    requires closed in s.open && id in Commit(s, closed).1.open
    ensures SameTx(s, Commit(s, closed).1, id)
  {
    hide Overlay, Stamped, Conflicts;
  }

  lemma OpenAfterJoin(s: Store, tx: Option<Token>, op: Joining, id: Token)
    requires Legal(s, StepJoin(tx, op)) && id in Join(s, tx, op).1.open
    ensures SameTx(s, Join(s, tx, op).1, id)
  {
    hide Effect, View, Births;
  }

  lemma {:induction false} TxStays(states: seq<Store>, steps: seq<Step>, i: nat, j: nat, id: Token)
    requires Run(states, steps) && i <= j <= |steps| && id in states[i].used && id in states[j].open
    ensures SameTx(states[i], states[j], id)
    decreases j - i
  {
    hide Inv, Legal, Next;
    if i < j {
      RunMoves(states, steps, i);
      TxStays(states, steps, i + 1, j, id);
      OpenStep(states[i], steps[i], id);
    }
  }

  /** The transaction was begun by one of the steps from i on. */
  ghost predicate BegunSince(steps: seq<Step>, i: nat, j: nat, id: Token)
    requires j <= |steps|
  {
    exists b :: i <= b < j && steps[b].StepBegin? && steps[b].id == id
  }

  lemma SnapshotIsRows(states: seq<Store>, steps: seq<Step>, b: nat, j: nat, id: Token)
    requires Run(states, steps) && b < j <= |steps| && steps[b].StepBegin? && steps[b].id == id && id in states[j].open
    ensures states[j].open[id].snapshot == states[b].rows
  {
    hide Inv, Legal;
    assert states[b + 1] == Next(states[b], steps[b]);
    hide Next;
    TxStays(states, steps, b + 1, j, id);
  }

  // ----- what a stale ref is answered -----

  predicate Refused(answer: Answer) {
    answer.Rejected? || answer.TaskBusy? || answer.StaleClaim?
  }

  predicate IsFenced(op: Joining) {
    op.StampSegment? || op.Fail?
  }

  /** A fenced call of a stale ref outside a transaction. */
  lemma RefusedAtOnce(s: Store, ref: Ref, attempt: Attempt, op: Joining)
    requires !Held(s.rows, ref) && IsFenced(op) && op.ref == ref
    ensures Refused(MarkUnsafe(s, ref).0) && Refused(RecordAttempt(s, ref, attempt).0) && Refused(Join(s, None, op).0)
  {
    hide Busy, Held, ValidErrorText;
  }

  lemma RefusedInTx(s: Store, id: Token, ref: Ref, op: Joining)
    requires Inv(s) && id in s.open && !Held(s.open[id].snapshot, ref) && IsFenced(op) && op.ref == ref
    ensures Join(s, Some(id), op).0 != Done
  {
    hide Inv, View, Held, ValidErrorText;
    if Held(View(s.open[id]), ref) {
      AcceptedRef(s, id, ref);
    }
  }

  /** The fence, in every run: from the moment a ref is stale, whatever is armed or claimed since, no
      fenced call of it changes a committed row or a mark again, none is accepted in a transaction begun
      since, and no transaction that one was accepted in commits. */
  lemma StaleIsRefused(states: seq<Store>, steps: seq<Step>, i: nat, j: nat, ref: Ref, attempt: Attempt, op: Joining, id: Token)
    requires Run(states, steps) && i <= j <= |steps| && Stale(states[i], ref) && IsFenced(op) && op.ref == ref
    ensures Refused(MarkUnsafe(states[j], ref).0)
    ensures Refused(RecordAttempt(states[j], ref, attempt).0)
    ensures Refused(Join(states[j], None, op).0)
    ensures id in states[j].open && BegunSince(steps, i, j, id) ==> Join(states[j], Some(id), op).0 != Done
    ensures id in states[j].open && ref in states[j].open[id].accepted ==> Commit(states[j], id).0 == Conflict
  {
    hide Inv, Legal, Next, Held, MarkUnsafe, RecordAttempt, Join, Conflicts, Write;
    StaleStays(states, steps, i, j, ref);
    RunKeeps(states, steps, j);
    var s := states[j];
    RefusedAtOnce(s, ref, attempt, op);
    if id in s.open {
      if b :| i <= b < j && steps[b].StepBegin? && steps[b].id == id {
        SnapshotIsRows(states, steps, b, j, id);
        StaleStays(states, steps, i, b, ref);
        RefusedInTx(s, id, ref, op);
      }
      if ref in s.open[id].accepted && !Conflicts(s, s.open[id]) {
        CommitHolds(s, id);
      }
    }
  }

  /** And so whatever a transaction did under a ref, before the ref went stale or after, it does not
      commit once the ref is stale. */
  lemma StaleWorkNeverCommits(states: seq<Store>, steps: seq<Step>, i: nat, m: nat, j: nat, ref: Ref)
    requires Run(states, steps) && i <= j <= |steps| && m < j && Stale(states[i], ref)
    requires steps[m].StepJoin? && steps[m].tx.Some? && steps[m].tx.value in states[j].open
    requires IsFenced(steps[m].op) && steps[m].op.ref == ref && Legal(states[m], steps[m])
    requires Join(states[m], steps[m].tx, steps[m].op).0 == Done
    ensures Commit(states[j], steps[m].tx.value).0 == Conflict
  {
    hide Inv, Effect, View, Held, Conflicts, DrawsNew, Births;
    var id := steps[m].tx.value;
    assert states[m + 1] == Next(states[m], steps[m]);
    AcceptedIsRecorded(states[m], id, steps[m].op);
    RunKeeps(states, steps, m + 1);
    assert id in states[m + 1].used by { OpenIsUsed(states[m + 1], id); }
    hide Legal, Next, Join, Commit;
    TxStays(states, steps, m + 1, j, id);
    StaleIsRefused(states, steps, i, j, ref, Attempt([], 0, 0, false, false), steps[m].op, id);
  }

  lemma OpenIsUsed(s: Store, id: Token)
    requires Inv(s) && id in s.open
    ensures id in s.used
  {
  }

  /** The rows after the owner of ref's claim gave it back, a transaction open since before. */
  ghost function AfterGiveBack(s: Store, id: Token, ref: Ref): (s1: Store)
    requires Held(s.rows, ref)
    ensures id in s1.open && s1.open[id] == Tx(ref.tenant, s.now, s.rows, map[], {})
  {
    GiveBackIdle(Begin(s, id, ref.tenant), s.rows[ref.Key()].claim.value.owner, {})
  }

  ghost function Stamp(s: Store, id: Token, ref: Ref): (r: (Answer, Store))
    requires id in s.open
    ensures id in r.1.open
  {
    Join(s, Some(id), StampSegment(ref, false))
  }

  /** What is not refused: a transaction open while a ref goes stale judges it on what the transaction
      saw when it began, accepts it, and is refused at its commit. */
  lemma OlderTxStillAccepts(s: Store, id: Token, ref: Ref)
    requires Inv(s) && s.open == map[] && id !in s.used && Held(s.rows, ref)
    ensures var s1 := AfterGiveBack(s, id, ref);
      Stale(s1, ref) && Stamp(s1, id, ref).0 == Done && Commit(Stamp(s1, id, ref).1, id).0 == Conflict
  {
    hide Inv, Overlay;
    var s1 := AfterGiveBack(s, id, ref);
    GivenUp(s, Begin(s, id, ref.tenant), ref);
    assert View(s1.open[id]) == s.rows by { NothingStaged(s.rows); }
    StampConflicts(s1, id, ref);
  }

  lemma NothingStaged(rows: Rows)
    ensures Overlay(rows, map[]) == rows
  {
  }

  lemma GivenUp(s: Store, began: Store, ref: Ref)
    requires Inv(s) && Held(s.rows, ref) && began.rows == s.rows && s.used <= began.used
    requires forall id :: id in began.open ==> began.open[id].staged == map[]
    ensures var s1 := GiveBackIdle(began, s.rows[ref.Key()].claim.value.owner, {});
      && Stale(s1, ref) && s1.open == began.open && ref.Key() in s1.wrote && s1.wrote[ref.Key()] == began.now + 1
  {
    var k := ref.Key();
    RowAt(s, k);
    hide Inv, RowOk, Settled;
    assert UnderClaim(s.rows[k]) by { Running(s, k); }
    assert k in GivenBack(began, s.rows[k].claim.value.owner, {});
  }

  lemma Running(s: Store, k: Key)
    requires Inv(s) && k in s.rows && s.rows[k].claim.Some?
    ensures UnderClaim(s.rows[k]) && s.rows[k].claim.value.token in s.used
  {
    RowAt(s, k);
  }

  lemma StampConflicts(s: Store, id: Token, ref: Ref)
    requires id in s.open && s.open[id].tenant == ref.tenant && Held(View(s.open[id]), ref)
    requires ref.Key() in s.wrote && s.wrote[ref.Key()] > s.open[id].began
    ensures Stamp(s, id, ref).0 == Done && Commit(Stamp(s, id, ref).1, id).0 == Conflict
  {
    hide View, Held, Write;
    var s2 := Stamp(s, id, ref).1;
    assert ref.Key() in s2.open[id].staged && s2.wrote == s.wrote && s2.open[id].began == s.open[id].began;
  }

  /** A transaction commits only if every claim it was fenced by still stands: the work of a run
      whose task was taken, given back, re-armed or removed meanwhile does not commit. */
  lemma CommitIsFenced(states: seq<Store>, steps: seq<Step>, i: nat)
    requires Run(states, steps) && i < |steps| && steps[i].StepCommit?
    requires Commit(states[i], steps[i].id).0 == Done
    ensures forall ref :: ref in states[i].open[steps[i].id].accepted ==> Held(states[i].rows, ref)
  {
    RunKeeps(states, steps, i);
    assert Legal(states[i], steps[i]);
    CommitHolds(states[i], steps[i].id);
  }

  lemma CommitHolds(s: Store, id: Token)
    requires Inv(s) && id in s.open && !Conflicts(s, s.open[id])
    ensures forall ref :: ref in s.open[id].accepted ==> Held(s.rows, ref)
  {
    assert TxOk(s, id, s.open[id]);
    forall ref | ref in s.open[id].accepted ensures Held(s.rows, ref) {
      StagedGoesOn(s, id, ref.Key());
    }
  }

  /** The fenced calls a transaction made are the ones it must still hold at its commit. */
  lemma AcceptedIsRecorded(s: Store, id: Token, op: Joining)
    requires id in s.open && DrawsNew(s.used, op) && IsFenced(op)
    requires Join(s, Some(id), op).0 == Done
    ensures op.ref in Join(s, Some(id), op).1.open[id].accepted
    ensures s.open[id].accepted <= Join(s, Some(id), op).1.open[id].accepted
  {
  }

  // ----- lives -----

  /** The life was committed and has ended. */
  predicate Retired(s: Store, life: Token) {
    Settled(s, life) && !Current(s.rows, life)
  }

  lemma RetiredStep(s: Store, s': Store, life: Token)
    requires Inv(s) && Moves(s, s') && Retired(s, life)
    ensures Retired(s', life)
  {
    hide Inv;
    forall k | k in s'.rows ensures s'.rows[k].armToken != life {
      assert MayBecome(s, k, s'.rows[k]);
    }
  }

  lemma {:induction false} RetiredForever(states: seq<Store>, steps: seq<Step>, i: nat, j: nat, life: Token)
    requires Run(states, steps) && i <= j <= |steps| && Retired(states[i], life)
    ensures Retired(states[j], life)
    decreases j - i
  {
    hide Inv, Legal, Next, Retired, Moves;
    if i < j {
      RunMoves(states, steps, i);
      RetiredStep(states[i], states[i + 1], life);
      RetiredForever(states, steps, i + 1, j, life);
    }
  }

  lemma LifeHasOneRow(s: Store, k: Key, other: Key)
    requires Inv(s) && k in s.rows && other in s.rows && s.rows[k].armToken == s.rows[other].armToken
    ensures k == other
  {
    RowAt(s, k);
    RowAt(s, other);
  }

  /** While a life lasts it stays on its row, its counters only grow, a partial commit is never
      forgotten, and FAILED is final; once off its row it never comes back. */
  lemma {:induction false} LifeGoesOn(states: seq<Store>, steps: seq<Step>, i: nat, j: nat, k: Key)
    requires Run(states, steps) && i <= j <= |steps| && k in states[i].rows
    requires Current(states[j].rows, states[i].rows[k].armToken)
    ensures k in states[j].rows && LifeStep(states[i].rows[k], states[j].rows[k])
    decreases j - i
  {
    hide Inv, Legal, Next, Moves;
    var life := states[i].rows[k].armToken;
    RunKeeps(states, steps, i);
    RowAt(states[i], k);
    if i < j {
      var s, s' := states[i], states[i + 1];
      RunMoves(states, steps, i);
      if Current(s'.rows, life) {
        LifeStepped(s, s', k);
        LifeGoesOn(states, steps, i + 1, j, k);
      } else {
        NowSettled(s, s', life);
        RetiredForever(states, steps, i + 1, j, life);
      }
    }
  }

  lemma NowSettled(s: Store, s': Store, life: Token)
    requires Moves(s, s') && Settled(s, life)
    ensures Settled(s', life)
  {
  }

  lemma LifeStepped(s: Store, s': Store, k: Key)
    requires Inv(s) && Inv(s') && Moves(s, s') && k in s.rows && Current(s'.rows, s.rows[k].armToken)
    ensures k in s'.rows && LifeStep(s.rows[k], s'.rows[k])
  {
    hide Inv;
    var other :| other in s'.rows && s'.rows[other].armToken == s.rows[k].armToken;
    RowAt(s, k);
    assert MayBecome(s, other, s'.rows[other]);
    LifeHasOneRow(s, k, other);
  }

  // ----- counters -----

  /** The step records a counted attempt of the life. */
  predicate CountsAttempt(s: Store, step: Step, life: Token) {
    && step.StepRecordAttempt? && !step.attempt.notCounted && step.ref.armToken == life
    && RecordAttempt(s, step.ref, step.attempt).0 == Done
  }

  /** The step claims the life's task from an owner that lost it. */
  predicate TakesFromLost(s: Store, step: Step, life: Token) {
    step.StepClaimDue? && exists k :: k in step.tokens && k in s.rows && s.rows[k].armToken == life && s.rows[k].status.Running?
  }

  predicate Counted(s: Store, step: Step, r: Row, r': Row) {
    && r'.attempts == r.attempts + (if CountsAttempt(s, step, r.armToken) then 1 else 0)
    && r'.lostOwners == r.lostOwners + (if TakesFromLost(s, step, r.armToken) then 1 else 0)
  }

  /** How a step changes the counters of the row at k: within its life by what it counts; a new life has none. */
  ghost predicate CountsAt(s: Store, step: Step, k: Key, r': Row) {
    if k in s.rows && s.rows[k].armToken == r'.armToken then Counted(s, step, s.rows[k], r')
    else !Settled(s, r'.armToken) && Unclaimed(r')
  }

  lemma CommitCounts(s: Store, id: Token, k: Key)
    requires Inv(s) && id in s.open && k in Commit(s, id).1.rows
    ensures CountsAt(s, StepCommit(id), k, Commit(s, id).1.rows[k])
  {
    hide OneRunning, TokensOk, RowsOk;
    if !Conflicts(s, s.open[id]) && k in s.open[id].staged {
      StagedGoesOn(s, id, k);
      assert TxOk(s, id, s.open[id]);
      var r := s.open[id].staged[k].value;
      assert StagedOk(s, id, s.open[id], k, r);
      if k in s.rows {
        RowAt(s, k);
      }
    }
  }

  lemma DirectCounts(s: Store, op: Joining, k: Key)
    requires Inv(s) && DrawsNew(s.used, op) && Effect(s.rows, op).Some?
    requires k in Effect(s.rows, op).value && Effect(s.rows, op).value[k].Some?
    ensures CountsAt(s, StepJoin(None, op), k, Effect(s.rows, op).value[k].value)
  {
    hide OneRunning, TxOk, RowsOk, Effect;
    if k in s.rows {
      RowAt(s, k);
    }
    DirectRow(s, op, k);
    EffectOf(s, s.rows, op, None, k);
  }

  lemma JoinCounts(s: Store, tx: Option<Token>, op: Joining, k: Key)
    requires Inv(s) && Legal(s, StepJoin(tx, op)) && k in Join(s, tx, op).1.rows
    ensures CountsAt(s, StepJoin(tx, op), k, Join(s, tx, op).1.rows[k])
  {
    hide Inv, Effect, View, LifeStep, Settled, Births;
    if tx.None? && Join(s, tx, op).0 == Done && k in Effect(s.rows, op).value {
      DirectCounts(s, op, k);
    }
  }

  lemma ClaimCounts(s: Store, step: Step, k: Key)
    requires Inv(s) && step.StepClaimDue? && Legal(s, step) && k in Next(s, step).rows
    ensures CountsAt(s, step, k, Next(s, step).rows[k])
  {
    hide Inv, Busy, Lost, LifeStep, OnePerEntity;
    forall other | other in step.tokens && s.rows[other].armToken == s.rows[k].armToken ensures other == k {
      LifeHasOneRow(s, k, other);
    }
    if k in step.tokens {
      assert TakesFromLost(s, step, s.rows[k].armToken) <==> s.rows[k].status.Running?;
    } else {
      assert !TakesFromLost(s, step, s.rows[k].armToken);
    }
  }

  /** The one row an accepted RecordAttempt changes, and how. */
  lemma RecordedRow(s: Store, ref: Ref, a: Attempt, k: Key)
    requires k in RecordAttempt(s, ref, a).1.rows
    ensures var (answer, s') := RecordAttempt(s, ref, a);
      && k in s.rows
      && (answer == Done ==> Held(s.rows, ref))
      && s'.rows[k] == if answer == Done && k == ref.Key() then Recorded(s.rows[k], a) else s.rows[k]
  {
    hide Busy, ValidErrorText;
  }

  lemma RecordCounts(s: Store, step: Step, k: Key)
    requires Inv(s) && step.StepRecordAttempt? && k in Next(s, step).rows
    ensures CountsAt(s, step, k, Next(s, step).rows[k])
  {
    hide Inv, RecordAttempt;
    RecordedRow(s, step.ref, step.attempt, k);
    if Held(s.rows, step.ref) && s.rows[k].armToken == step.ref.armToken {
      LifeHasOneRow(s, k, step.ref.Key());
    }
  }

  lemma StepCounts(s: Store, step: Step, k: Key)
    requires Inv(s) && Legal(s, step) && k in Next(s, step).rows
    ensures CountsAt(s, step, k, Next(s, step).rows[k])
  {
    hide Inv, DrawsNew, Busy, Claimable, Join, Commit, ClaimDue, GiveBackIdle, RecordAttempt, MarkUnsafe, SweepOwners,
      SweepMarks, LifeStep, Settled, ValidErrorText;
    match step
    case StepJoin(tx, op) => JoinCounts(s, tx, op, k);
    case StepCommit(id) => CommitCounts(s, id, k);
    case StepClaimDue(_, _, _) => ClaimCounts(s, step, k);
    case StepRecordAttempt(_, _) => RecordCounts(s, step, k);
    case StepGiveBackIdle(owner, keep) => GiveBackCounts(s, owner, keep, k);
    case _ => RowsLeft(s, step);
  }

  lemma GiveBackCounts(s: Store, owner: Token, keep: set<Token>, k: Key)
    requires k in GiveBackIdle(s, owner, keep).rows
    ensures CountsAt(s, StepGiveBackIdle(owner, keep), k, GiveBackIdle(s, owner, keep).rows[k])
  {
    hide Busy, Settled;
  }

  lemma RowsLeft(s: Store, step: Step)
    requires Legal(s, step)
    requires step.StepBegin? || step.StepRollback? || step.StepMarkUnsafe? || step.StepHeartbeat? || step.StepRetireOwner? ||
      step.StepSweepOwners? || step.StepSweepMarks?
    ensures Next(s, step).rows == s.rows
  {
    hide Busy, Held, Referenced, Current;
  }

  /** How many of the first i steps record a counted attempt of the life. */
  ghost function Attempts(states: seq<Store>, steps: seq<Step>, i: nat, life: Token): nat
    requires i <= |steps| < |states|
  {
    if i == 0 then 0
    else Attempts(states, steps, i - 1, life) + (if CountsAttempt(states[i - 1], steps[i - 1], life) then 1 else 0)
  }

  /** How many of the first i steps take the life from a lost owner. */
  ghost function Losses(states: seq<Store>, steps: seq<Step>, i: nat, life: Token): nat
    requires i <= |steps| < |states|
  {
    if i == 0 then 0
    else Losses(states, steps, i - 1, life) + (if TakesFromLost(states[i - 1], steps[i - 1], life) then 1 else 0)
  }

  lemma CountedIsSettled(s: Store, step: Step, life: Token)
    requires Inv(s) && (CountsAttempt(s, step, life) || TakesFromLost(s, step, life))
    ensures Settled(s, life)
  {
    hide Inv, Busy, ValidErrorText;
    if CountsAttempt(s, step, life) {
      RowAt(s, step.ref.Key());
    } else {
      var k :| k in step.tokens && k in s.rows && s.rows[k].armToken == life;
      RowAt(s, k);
    }
  }

  lemma {:induction false} NothingCounted(states: seq<Store>, steps: seq<Step>, i: nat, life: Token)
    requires Run(states, steps) && i <= |steps| && !Settled(states[i], life)
    ensures Attempts(states, steps, i, life) == 0 && Losses(states, steps, i, life) == 0
  {
    hide Inv, Legal, Next, CountsAttempt, TakesFromLost;
    if i > 0 {
      RunMoves(states, steps, i - 1);
      NothingCounted(states, steps, i - 1, life);
      if CountsAttempt(states[i - 1], steps[i - 1], life) || TakesFromLost(states[i - 1], steps[i - 1], life) {
        CountedIsSettled(states[i - 1], steps[i - 1], life);
      }
    }
  }

  /** At every point of every run a task's Attempts is the number of counted attempts recorded in its
      current life, and its LostOwners the number of claims of that life taken from a lost owner. */
  lemma {:induction false} CountersCount(states: seq<Store>, steps: seq<Step>, i: nat, k: Key)
    requires Run(states, steps) && i <= |steps| && k in states[i].rows
    ensures var r := states[i].rows[k];
      r.attempts == Attempts(states, steps, i, r.armToken) && r.lostOwners == Losses(states, steps, i, r.armToken)
  {
    hide Inv, Legal, Next, CountsAttempt, TakesFromLost, Moves;
    if i > 0 {
      var s, life := states[i - 1], states[i].rows[k].armToken;
      RunMoves(states, steps, i - 1);
      StepCounts(s, steps[i - 1], k);
      if k in s.rows && s.rows[k].armToken == life {
        CountersCount(states, steps, i - 1, k);
      } else {
        NothingCounted(states, steps, i - 1, life);
        if CountsAttempt(s, steps[i - 1], life) || TakesFromLost(s, steps[i - 1], life) {
          CountedIsSettled(s, steps[i - 1], life);
        }
      }
    }
  }

  // ----- marks -----

  /** The step by which a claim takes back its own mark of a life. */
  predicate ClearsOwnMark(s: Store, step: Step, life: Token, claim: Token) {
    && step.StepRecordAttempt? && step.attempt.clearOwnMark
    && step.ref.armToken == life && step.ref.claimToken == claim && RecordAttempt(s, step.ref, step.attempt).0 == Done
  }

  /** How a mark of the life may change from one state to the next. */
  ghost predicate MarkMoves(s: Store, step: Step, s': Store, life: Token) {
    && (life in s.marks ==>
          || (life in s'.marks && s'.marks[life] == s.marks[life])
          || (life !in s'.marks && (ClearsOwnMark(s, step, life, s.marks[life]) || !Current(s.rows, life))))
    && (life !in s.marks && life in s'.marks ==> Current(s.rows, life))
  }

  lemma MarkStep(s: Store, step: Step, life: Token)
    requires Legal(s, step)
    ensures MarkMoves(s, step, Next(s, step), life)
  {
    hide MarkUnsafe, RecordAttempt, Join, Commit, ClaimDue, GiveBackIdle, SweepOwners, SweepMarks, DrawsNew, Claimable, Current,
      ClearsOwnMark, OnePerEntity;
    match step
    case StepMarkUnsafe(ref) => MarkWritten(s, ref, life);
    case StepRecordAttempt(_, _) => MarkCleared(s, step, life);
    case StepSweepMarks => MarksSwept(s, life);
    case _ => MarksLeft(s, step);
  }

  lemma MarkWritten(s: Store, ref: Ref, life: Token)
    ensures MarkMoves(s, StepMarkUnsafe(ref), MarkUnsafe(s, ref).1, life)
  {
    hide Busy;
    if Held(s.rows, ref) {
      assert ref.Key() in s.rows;
    }
  }

  lemma MarkCleared(s: Store, step: Step, life: Token)
    requires step.StepRecordAttempt?
    ensures MarkMoves(s, step, RecordAttempt(s, step.ref, step.attempt).1, life)
  {
    hide Busy, ValidErrorText, Overlay, Stamped, Recorded, Held, Current;
  }

  lemma MarksSwept(s: Store, life: Token)
    ensures MarkMoves(s, StepSweepMarks, SweepMarks(s), life)
  {
  }

  lemma MarksLeft(s: Store, step: Step)
    requires Legal(s, step) && !step.StepMarkUnsafe? && !step.StepRecordAttempt? && !step.StepSweepMarks?
    ensures Next(s, step).marks == s.marks
  {
    hide Effect, View, Busy, Claimable, DrawsNew, Conflicts, Overlay, Stamped, Births, Referenced, OnePerEntity, Released, Claims,
      Held, ValidJoining, GivenBack, Current, Drawn, Tenant;
  }

  lemma {:induction false} RetiredStaysUnmarked(states: seq<Store>, steps: seq<Step>, i: nat, j: nat, life: Token)
    requires Run(states, steps) && i <= j <= |steps| && Retired(states[i], life) && life !in states[i].marks
    ensures life !in states[j].marks
    decreases j - i
  {
    hide Inv, Legal, Next, Moves;
    if i < j {
      RunMoves(states, steps, i);
      MarkStep(states[i], steps[i], life);
      RetiredStep(states[i], states[i + 1], life);
      RetiredStaysUnmarked(states, steps, i + 1, j, life);
    }
  }

  /** A mark of a life belongs to the claim that wrote it. Another claim's mark can stand later only
      if in between the first claim, still in force, took its own mark back. */
  lemma {:induction false} MarkHasOneClaim(states: seq<Store>, steps: seq<Step>, i: nat, j: nat, life: Token)
    returns (m: nat)
    requires Run(states, steps) && i <= j <= |steps|
    requires life in states[i].marks && life in states[j].marks && states[j].marks[life] != states[i].marks[life]
    ensures i <= m < j && ClearsOwnMark(states[m], steps[m], life, states[i].marks[life])
    decreases j - i
  {
    hide Inv, Legal, Next, Moves, ClearsOwnMark, Current;
    var s, s' := states[i], states[i + 1];
    RunMoves(states, steps, i);
    MarkStep(s, steps[i], life);
    if life in s'.marks {
      m := MarkHasOneClaim(states, steps, i + 1, j, life);
    } else if ClearsOwnMark(s, steps[i], life, s.marks[life]) {
      m := i;
    } else {
      MarkedSettled(s, life);
      RetiredStep(s, s', life);
      RetiredStaysUnmarked(states, steps, i + 1, j, life);
      assert false;
    }
  }

  lemma MarkedSettled(s: Store, life: Token)
    requires Inv(s) && life in s.marks
    ensures Settled(s, life)
  {
  }

  /** A newly armed life is unmarked, whatever marks its task had before. */
  lemma ArmedUnmarked(states: seq<Store>, steps: seq<Step>, i: nat, k: Key)
    requires Run(states, steps) && i < |steps| && k in states[i + 1].rows
    requires !Current(states[i].rows, states[i + 1].rows[k].armToken)
    ensures states[i + 1].rows[k].armToken !in states[i + 1].marks
  {
    hide Legal, Next;
    var s, s' := states[i], states[i + 1];
    var life := s'.rows[k].armToken;
    RunMoves(states, steps, i);
    MarkStep(s, steps[i], life);
    assert MayBecome(s, k, s'.rows[k]);
    if life in s.marks {
      MarkedSettled(s, life);
      RetiredStep(s, s', life);
      assert false;
    }
  }
}
