/** What each call of the store's contract answers and leaves in the rows, field by field. */
module TaskStoreCalls {
  import opened Bytes
  import opened TaskStore
  import opened Wrappers
  import Utf8

  // ----- claims -----

  /** What a claim call may take: a WAITING task that is due, or, where lost owners are allowed, a RUNNING one
      whose owner has no beat or one older than staleAfter; not written by an open transaction, and no
      other task of its entity RUNNING. */
  ghost predicate MayBeClaimed(s: Store, req: DueRequest, at: int, k: Key) {
    && k in s.rows && !WrittenByOpen(s, k)
    && (|| (s.rows[k].status == Waiting && s.rows[k].nextAttemptTime <= req.nowMs)
        || (&& req.allowLostOwner && s.rows[k].status == Running && s.rows[k].claim.Some?
            && var owner := s.rows[k].claim.value.owner; (owner in s.beats ==> at - s.beats[owner] > req.staleAfter)))
    && forall other :: other in s.rows && other != k && other.0 == k.0 && s.rows[other].entity == s.rows[k].entity ==>
      s.rows[other].status != Running
  }

  ghost predicate WrittenByOpen(s: Store, k: Key) {
    exists id :: id in s.open && k in s.open[id].staged
  }

  lemma ClaimableMeans(s: Store, req: DueRequest, at: int, k: Key)
    ensures Claimable(s, req, at, k) <==> MayBeClaimed(s, req, at, k)
  {
  }

  /** The row is the same task in the same life. */
  predicate SameLife(r: Row, r': Row) {
    r'.entity == r.entity && r'.plan == r.plan && r'.armToken == r.armToken
  }

  predicate SameFailure(r: Row, r': Row) {
    r'.failureReason == r.failureReason && r'.failedTime == r.failedTime && r'.partialCommit == r.partialCommit
  }

  predicate SameAttempts(r: Row, r': Row) {
    && r'.attempts == r.attempts && r'.lastAttemptTime == r.lastAttemptTime && r'.lastError == r.lastError
    && r'.nextAttemptTime == r.nextAttemptTime
  }

  /** Claimed tasks run under the owner's new claim, and a claim from a lost owner is counted. */
  lemma ClaimedRows(s: Store, req: DueRequest, tokens: map<Key, Token>, k: Key)
    requires tokens.Keys <= s.rows.Keys
    ensures var s' := ClaimDue(s, req, tokens);
      && s'.rows.Keys == s.rows.Keys && s'.marks == s.marks && s'.open == s.open && s'.beats == s.beats
      && (k in s.rows && k !in tokens ==> s'.rows[k] == s.rows[k])
      && (k in tokens ==>
            var r, r' := s.rows[k], s'.rows[k];
            && r'.status == Running && r'.claim == Some(Claim(tokens[k], req.owner))
            && r'.lostOwners == r.lostOwners + (if r.status == Running then 1 else 0)
            && SameLife(r, r') && SameFailure(r, r') && SameAttempts(r, r'))
  {
  }

  // ----- fenced calls -----

  /** The task's current life and claim are the ref's. */
  ghost predicate IsCurrent(rows: Rows, ref: Ref) {
    var k := (ref.tenant, ref.id);
    k in rows && rows[k].armToken == ref.armToken && exists owner :: rows[k].claim == Some(Claim(ref.claimToken, owner))
  }

  lemma HeldMeans(rows: Rows, ref: Ref)
    ensures Held(rows, ref) <==> IsCurrent(rows, ref)
  {
    if Held(rows, ref) {
      assert rows[(ref.tenant, ref.id)].claim == Some(Claim(ref.claimToken, rows[(ref.tenant, ref.id)].claim.value.owner));
    }
  }

  /** An error text a store keeps as given. */
  ghost predicate Storable(s: Text) {
    |s| <= 1024 && (exists text: string :: Utf8.Encode(text) == s) && 0 !in s
  }

  lemma StorableMeans(s: Text)
    ensures ValidErrorText(s) <==> Storable(s)
  {
    hide Utf8.Valid;
    if Utf8.Valid(s) {
      var text := Utf8.ValidIsEncoded(s);
    }
    if text: string :| Utf8.Encode(text) == s {
      Utf8.EncodedIsValid(text);
    }
  }

  /** MarkUnsafe: busy, then stale, then marked by another claim; otherwise the life's mark is this claim's,
      and nothing else changes. */
  lemma MarkAnswers(s: Store, ref: Ref)
    ensures var (answer, s') := MarkUnsafe(s, ref);
      && (answer == TaskBusy <==> WrittenByOpen(s, (ref.tenant, ref.id)))
      && (answer == StaleClaim <==> answer != TaskBusy && !IsCurrent(s.rows, ref))
      && (answer == MarkedByAnotherClaim <==>
            answer != TaskBusy && answer != StaleClaim && ref.armToken in s.marks && s.marks[ref.armToken] != ref.claimToken)
      && (answer == Done <==> answer != TaskBusy && answer != StaleClaim && answer != MarkedByAnotherClaim)
      && s' == if answer == Done then s.(marks := s.marks[ref.armToken := ref.claimToken]) else s
  {
    HeldMeans(s.rows, ref);
  }

  /** RecordAttempt: the task waits for its next attempt without its claim, the attempt counted unless it is
      not to be; this claim's own mark goes if asked for, another's stays. */
  lemma RecordAnswers(s: Store, ref: Ref, a: Attempt, k: Key)
    ensures var (answer, s') := RecordAttempt(s, ref, a);
      && (answer == Rejected <==> !Storable(a.error))
      && (answer == TaskBusy <==> answer != Rejected && WrittenByOpen(s, (ref.tenant, ref.id)))
      && (answer == StaleClaim <==> answer != Rejected && answer != TaskBusy && !IsCurrent(s.rows, ref))
      && (answer == Done <==> answer != Rejected && answer != TaskBusy && answer != StaleClaim)
      && (answer != Done ==> s' == s)
      && (answer == Done ==>
            && s'.open == s.open && s'.beats == s.beats && s'.rows.Keys == s.rows.Keys
            && s'.marks == (if a.clearOwnMark && ref.armToken in s.marks && s.marks[ref.armToken] == ref.claimToken
                            then s.marks - {ref.armToken} else s.marks)
            && (k in s.rows && k != (ref.tenant, ref.id) ==> s'.rows[k] == s.rows[k])
            && (k == (ref.tenant, ref.id) ==>
                  var r, r' := s.rows[k], s'.rows[k];
                  && r'.status == Waiting && r'.claim == None && r'.nextAttemptTime == a.nextAttemptTime
                  && r'.attempts == r.attempts + (if a.notCounted then 0 else 1) && r'.lostOwners == r.lostOwners
                  && r'.lastError == a.error && r'.lastAttemptTime == Some(a.atMs) && SameLife(r, r') && SameFailure(r, r')))
  {
    hide Utf8.Valid;
    HeldMeans(s.rows, ref);
    StorableMeans(a.error);
    assert Held(s.rows, ref) ==> (ref.tenant, ref.id) in s.rows;
    hide Held, ValidErrorText, Storable, IsCurrent;
  }

  /** GiveBackIdle: the owner's tasks whose claims are not kept wait again, but those an open transaction
      has written. */
  lemma GiveBackRows(s: Store, owner: Token, keep: set<Token>, k: Key)
    ensures var s' := GiveBackIdle(s, owner, keep);
      && s'.rows.Keys == s.rows.Keys && s'.marks == s.marks && s'.open == s.open && s'.beats == s.beats
      && (k in s.rows ==>
            var r, r' := s.rows[k], s'.rows[k];
            if r.status == Running && r.claim.Some? && r.claim.value.owner == owner && r.claim.value.token !in keep && !WrittenByOpen(s, k)
            then r'.status == Waiting && r'.claim == None && r'.lostOwners == r.lostOwners && SameLife(r, r') && SameFailure(r, r') && SameAttempts(r, r')
            else r' == r)
  {
  }

  // ----- owners and marks -----

  predicate OwnedRow(rows: Rows, k: Key, owner: Token) {
    k in rows && rows[k].claim.Some? && rows[k].claim.value.owner == owner
  }

  /** A task claimed by an owner that beats is not claimable while the beat is fresh; once the owner has retired it
      is, where lost owners are allowed, unless an open transaction has written it or its entity runs another. */
  lemma OwnersBeat(s: Store, owner: Token, beat: int, req: DueRequest, at: int, k: Key)
    requires k in s.rows && s.rows[k].status == Running && s.rows[k].claim.Some? && s.rows[k].claim.value.owner == owner
    ensures var s' := Next(s, StepHeartbeat(owner, beat));
      s' == s.(beats := s'.beats) && (at - beat <= req.staleAfter ==> !MayBeClaimed(s', req, at, k))
    ensures var s' := Next(s, StepRetireOwner(owner));
      && s' == s.(beats := s'.beats)
      && (MayBeClaimed(s', req, at, k) <==>
            && req.allowLostOwner && !WrittenByOpen(s, k)
            && forall other :: other in s.rows && other != k && other.0 == k.0 && s.rows[other].entity == s.rows[k].entity ==>
                 s.rows[other].status != Running)
  {
  }

  /** Whatever the step, an owner's beat is the last it sent, until it retires or is swept. */
  lemma BeatsAre(s: Store, owner: Token, beat: int, other: Token)
    ensures var s' := Next(s, StepHeartbeat(owner, beat));
      owner in s'.beats && s'.beats[owner] == beat
      && (other != owner ==> (other in s.beats <==> other in s'.beats) && (other in s.beats ==> s'.beats[other] == s.beats[other]))
    ensures var s' := Next(s, StepRetireOwner(owner));
      owner !in s'.beats
      && (other != owner ==> (other in s.beats <==> other in s'.beats) && (other in s.beats ==> s'.beats[other] == s.beats[other]))
  {
  }

  /** SweepOwners removes the beats older than deadFor of owners no task is claimed by. */
  lemma SweptOwners(s: Store, deadFor: int, at: int, owner: Token)
    ensures var s' := SweepOwners(s, deadFor, at);
      && s' == s.(beats := s'.beats)
      && (owner in s'.beats <==>
            owner in s.beats && (at - s.beats[owner] <= deadFor || exists k :: OwnedRow(s.rows, k, owner)))
      && (owner in s'.beats ==> s'.beats[owner] == s.beats[owner])
  {
    assert forall k :: OwnedRow(s.rows, k, owner) <==> k in s.rows && s.rows[k].claim.Some? && s.rows[k].claim.value.owner == owner;
  }

  /** SweepMarks removes the marks of lives no task is in. */
  lemma SweptMarks(s: Store, life: Token)
    ensures var s' := SweepMarks(s);
      && s' == s.(marks := s'.marks)
      && (life in s'.marks <==> life in s.marks && exists k :: k in s.rows && s.rows[k].armToken == life)
      && (life in s'.marks ==> s'.marks[life] == s.marks[life])
  {
  }

  // ----- joining calls -----

  /** The rows after an accepted operation, seen from a view of them. */
  function After(view: Rows, op: Joining): Rows
    requires Effect(view, op).Some?
  {
    Overlay(view, Effect(view, op).value)
  }

  predicate Fenced(op: Joining) {
    op.StampSegment? || op.Fail?
  }

  /** What a joining call sees: its transaction, or the committed rows where it has none. */
  function Seen(s: Store, tx: Option<Token>): Rows
    requires tx.Some? ==> tx.value in s.open
  {
    if tx.Some? then View(s.open[tx.value]) else s.rows
  }

  /** Input is judged before the tenant, and the tenant before the fence; a refused call changes nothing. */
  lemma JoinAnswers(s: Store, tx: Option<Token>, op: Joining)
    requires (tx.Some? ==> tx.value in s.open) && DrawsNew(s.used, op)
    ensures var (answer, s') := Join(s, tx, op);
      && (answer == Rejected <==>
            || (op.Reconcile? && ([] in op.arm || exists id :: id in op.arm && id in op.cancel))
            || (op.Fail? && !Storable(op.failure.error)))
      && (answer == TenantMismatch <==>
            answer != Rejected && tx.Some? && s.open[tx.value].tenant != (if Fenced(op) then op.ref.tenant else op.tenant))
      && (answer == StaleClaim <==>
            answer != Rejected && answer != TenantMismatch && Fenced(op) && !IsCurrent(Seen(s, tx), op.ref))
      && (answer == Done <==> answer != Rejected && answer != TenantMismatch && answer != StaleClaim)
      && (answer != Done ==> s' == s)
  {
    var view := Seen(s, tx);
    if Fenced(op) {
      HeldMeans(view, op.ref);
    }
    if op.Fail? {
      StorableMeans(op.failure.error);
    }
    assert Effect(view, op).None? <==> Fenced(op) && !Held(view, op.ref);
    hide Effect, Overlay, Held, ValidErrorText, Storable, IsCurrent, Births, View, DrawsNew, Draw, Stage, Write;
  }

  /** An accepted operation is seen in its transaction, or at once where it has none. */
  lemma JoinTakesEffect(s: Store, tx: Option<Token>, op: Joining)
    requires (tx.Some? ==> tx.value in s.open) && DrawsNew(s.used, op) && Join(s, tx, op).0 == Done
    ensures Effect(Seen(s, tx), op).Some?
    ensures var s' := Join(s, tx, op).1;
      && s'.marks == s.marks && s'.beats == s.beats
      && (tx.None? ==> s'.rows == After(s.rows, op) && s'.open == s.open)
      && (tx.Some? ==>
            && s'.rows == s.rows && s'.open.Keys == s.open.Keys
            && View(s'.open[tx.value]) == After(View(s.open[tx.value]), op)
            && (forall id :: id in s.open && id != tx.value ==> s'.open[id] == s.open[id]))
  {
    var view := Seen(s, tx);
    if tx.Some? && Effect(view, op).Some? {
      OverlayTwice(s.open[tx.value].snapshot, s.open[tx.value].staged, Effect(view, op).value);
    }
    hide Effect, Overlay, Held, ValidErrorText, ValidJoining, Births, DrawsNew, Stamped, Drawn;
  }

  lemma OverlayTwice(rows: Rows, w: Writes, more: Writes)
    ensures Overlay(Overlay(rows, w), more) == Overlay(rows, w + more)
  {
  }

  /** ReconcileForEntity: each plan armed is a new waiting life with nothing of an earlier one; every other task of
      the entity is gone; no other row changes. */
  lemma ReconciledRows(view: Rows, op: Joining, k: Key)
    requires op.Reconcile? && op.tokens.Keys == op.arm.Keys
    ensures var rows := After(view, op);
      && (k in rows <==> (k.0 == op.tenant && k.1 in op.arm) || (k in view && !(k.0 == op.tenant && view[k].entity == op.entity)))
      && (k.0 == op.tenant && k.1 in op.arm ==>
            && rows[k].entity == op.entity && rows[k].plan == op.arm[k.1] && rows[k].armToken == op.tokens[k.1]
            && rows[k].status == Waiting && rows[k].nextAttemptTime == op.arm[k.1].scheduledTime && rows[k].claim == None
            && rows[k].attempts == 0 && rows[k].lostOwners == 0 && rows[k].lastAttemptTime == None && rows[k].lastError == []
            && rows[k].failureReason == None && rows[k].failedTime == None && !rows[k].partialCommit)
      && (k in rows && !(k.0 == op.tenant && k.1 in op.arm) ==> rows[k] == view[k])
  {
    if k.0 == op.tenant && k.1 in op.arm {
      assert k == (op.tenant, k.1);
    }
  }

  /** RemoveLife removes the task of that life and nothing else. */
  lemma RemovedRows(view: Rows, op: Joining, k: Key)
    requires op.RemoveLife?
    ensures var rows := After(view, op);
      && (k in rows <==> k in view && !(k == (op.tenant, op.id) && view[k].armToken == op.armToken))
      && (k in rows ==> rows[k] == view[k])
    ensures Effect(view, op).value == map[] <==> (op.tenant, op.id) !in view || view[(op.tenant, op.id)].armToken != op.armToken
  {
    var at := (op.tenant, op.id);
    if at in view && view[at].armToken == op.armToken {
      assert at in Effect(view, op).value;
    }
  }

  /** StampSegment writes the row, and only ever sets PartialCommit. */
  lemma StampedRows(view: Rows, op: Joining, k: Key)
    requires op.StampSegment? && Effect(view, op).Some?
    ensures var rows := After(view, op);
      && rows.Keys == view.Keys && (op.ref.tenant, op.ref.id) in Effect(view, op).value
      && (k in view && k != (op.ref.tenant, op.ref.id) ==> rows[k] == view[k])
      && (k == (op.ref.tenant, op.ref.id) ==> rows[k] == view[k].(partialCommit := view[k].partialCommit || op.partial))
  {
  }

  /** DeleteForEntities removes every task of the entities in the tenant. */
  lemma EntitiesDeletedRows(view: Rows, op: Joining, k: Key)
    requires op.DeleteForEntities?
    ensures var rows := After(view, op);
      && (k in rows <==> k in view && !(k.0 == op.tenant && view[k].entity in op.entities))
      && (k in rows ==> rows[k] == view[k])
  {
  }

  /** DeleteForModel removes every task of the model version in the tenant but those of a kept transition. */
  lemma ModelDeletedRows(view: Rows, op: Joining, k: Key)
    requires op.DeleteForModel?
    ensures var rows := After(view, op);
      && (k in rows <==>
            && k in view && !(k.0 == op.tenant && view[k].plan.model == op.model
                              && (view[k].plan.sourceState, view[k].plan.transition) !in op.keep))
      && (k in rows ==> rows[k] == view[k])
  {
  }

  /** Fail: the task is FAILED for the reason, its error replaced and its claim cleared. */
  lemma FailedRows(view: Rows, op: Joining, k: Key)
    requires op.Fail? && Effect(view, op).Some?
    ensures var rows := After(view, op);
      && rows.Keys == view.Keys
      && (k in view && k != (op.ref.tenant, op.ref.id) ==> rows[k] == view[k])
      && (k == (op.ref.tenant, op.ref.id) ==>
            var r, r' := view[k], rows[k];
            && r'.status == Failed && r'.claim == None && r'.failureReason == Some(op.failure.reason)
            && r'.lastError == op.failure.error && r'.failedTime == Some(op.failure.atMs)
            && r'.attempts == r.attempts && r'.lostOwners == r.lostOwners && r'.lastAttemptTime == r.lastAttemptTime
            && r'.nextAttemptTime == r.nextAttemptTime && r'.partialCommit == r.partialCommit && SameLife(r, r'))
  {
  }

  // ----- transactions -----

  /** A transaction begins with the committed rows. */
  lemma BeginRows(s: Store, id: Token, tenant: Text)
    ensures var s' := Begin(s, id, tenant);
      && s'.rows == s.rows && s'.marks == s.marks && s'.beats == s.beats && s'.open.Keys == s.open.Keys + {id}
      && View(s'.open[id]) == s.rows && s'.open[id].tenant == tenant
      && (forall other :: other in s.open && other != id ==> s'.open[other] == s.open[other])
  {
    assert Overlay(s.rows, map[]) == s.rows;
    hide Overlay;
  }

  /** One that commits leaves what it staged; one that does not leaves the rows. */
  lemma CommitRows(s: Store, id: Token, k: Key)
    requires id in s.open
    ensures var (answer, s') := Commit(s, id); var staged := s.open[id].staged;
      && s'.marks == s.marks && s'.beats == s.beats && s'.open == s.open - {id} && (answer == Done || answer == Conflict)
      && (answer == Done ==>
            && (k in s'.rows <==> if k in staged then staged[k].Some? else k in s.rows)
            && (k in s'.rows ==> s'.rows[k] == if k in staged then staged[k].value else s.rows[k]))
      && (answer == Conflict ==> s'.rows == s.rows)
  {
    hide Conflicts, Stamped;
  }
}
