/** What every run of the ScheduledTaskStore machine keeps. */
module TaskStoreLaws {
  import opened Bytes
  import opened Wrappers
  import opened TaskStore

  // ----- the invariant -----

  /** The life's token is drawn and no open transaction drew it: the life is, or was, committed. */
  predicate Settled(s: Store, life: Token) {
    life in s.born && (s.born[life].tx.Some? ==> s.born[life].tx.value !in s.open)
  }

  ghost predicate RowOk(s: Store, k: Key, r: Row) {
    && (r.status.Running? <==> r.claim.Some?)
    && r.armToken in s.born && s.born[r.armToken].key == k
    && (r.claim.Some? ==> r.claim.value.token in s.used)
  }

  ghost predicate RowsOk(s: Store, rows: Rows) {
    forall k :: k in rows ==> RowOk(s, k, rows[k]) && Settled(s, rows[k].armToken)
  }

  ghost predicate OneRunning(rows: Rows) {
    forall k, other :: k in rows && other in rows && k != other && SameEntity(rows, k, other) ==>
      !(rows[k].status.Running? && rows[other].status.Running?)
  }

  /** How a row may change within one life. */
  predicate LifeStep(r: Row, r': Row) {
    && r'.armToken == r.armToken && r'.entity == r.entity && r'.plan == r.plan
    && r.attempts <= r'.attempts && r.lostOwners <= r'.lostOwners
    && (r.partialCommit ==> r'.partialCommit) && (r.status.Failed? ==> r'.status.Failed?)
  }

  predicate Follows(r: Row, r': Row) {
    LifeStep(r, r') && (r'.claim.Some? ==> r'.claim == r.claim) && r'.attempts == r.attempts && r'.lostOwners == r.lostOwners
  }

  /** A row never claimed in its life. */
  predicate Unclaimed(r: Row) {
    r.claim.None? && r.attempts == 0 && r.lostOwners == 0
  }

  ghost predicate StagedOk(s: Store, id: Token, tx: Tx, k: Key, r: Row) {
    && RowOk(s, k, r)
    && (|| (s.born[r.armToken].tx == Some(id) && Unclaimed(r))
        || (k in tx.snapshot && Follows(tx.snapshot[k], r)))
  }

  predicate SameAt(a: Rows, b: Rows, k: Key) {
    (k in a <==> k in b) && (k in a ==> a[k] == b[k])
  }

  /** The row has had no committed write since the transaction began. */
  predicate Untouched(s: Store, tx: Tx, k: Key) {
    k in s.wrote ==> s.wrote[k] <= tx.began
  }

  ghost predicate TxOk(s: Store, id: Token, tx: Tx) {
    && tx.began <= s.now
    && RowsOk(s, tx.snapshot) && SnapshotOk(s, tx) && AllStagedOk(s, id, tx) && AcceptedOk(tx)
  }

  /** The snapshot shows every row not written since as it still is. */
  ghost predicate SnapshotOk(s: Store, tx: Tx) {
    forall k :: Untouched(s, tx, k) ==> SameAt(s.rows, tx.snapshot, k)
  }

  ghost predicate AllStagedOk(s: Store, id: Token, tx: Tx) {
    forall k :: k in tx.staged && tx.staged[k].Some? ==> StagedOk(s, id, tx, k, tx.staged[k].value)
  }

  ghost predicate AcceptedOk(tx: Tx) {
    forall ref :: ref in tx.accepted ==> ref.Key() in tx.staged && Held(tx.snapshot, ref)
  }

  ghost predicate TokensOk(s: Store) {
    && (forall a :: a in s.born ==> a in s.used && (s.born[a].tx.Some? ==> s.born[a].tx.value in s.used))
    && s.open.Keys <= s.used
    && (forall a :: a in s.marks ==> Settled(s, a) && s.marks[a] in s.used)
    && (forall k :: k in s.wrote ==> s.wrote[k] <= s.now)
  }

  ghost predicate Inv(s: Store) {
    TokensOk(s) && RowsOk(s, s.rows) && OneRunning(s.rows) && forall id :: id in s.open ==> TxOk(s, id, s.open[id])
  }

  // ----- committed writes -----

  /** A committed write: every written row settled, and nothing put to run beside a running task. */
  ghost predicate GoodWrites(s: Store, w: Writes) {
    && (forall k :: k in w && w[k].Some? ==> RowOk(s, k, w[k].value) && Settled(s, w[k].value.armToken))
    && OneRunning(Overlay(s.rows, w))
  }

  /** Nothing known of the tokens and of what settled is lost. */
  ghost predicate Carries(s: Store, s': Store) {
    && s.used <= s'.used
    && (forall a :: a in s.born ==> a in s'.born && s'.born[a] == s.born[a])
    && (forall a :: Settled(s, a) ==> Settled(s', a))
  }

  /** What may become of row k: it goes on in its life, under its claim or a new one,
      or a life begins that was never committed before. */
  ghost predicate MayBecome(s: Store, k: Key, r': Row) {
    || (k in s.rows && LifeStep(s.rows[k], r') &&
        (r'.claim.Some? ==> r'.claim == s.rows[k].claim || r'.claim.value.token !in s.used))
    || (!Settled(s, r'.armToken) && Unclaimed(r'))
  }

  ghost predicate Moves(s: Store, s': Store) {
    Carries(s, s') && forall k :: k in s'.rows ==> MayBecome(s, k, s'.rows[k])
  }

  lemma RowsCarried(s: Store, s': Store, rows: Rows)
    requires Carries(s, s') && RowsOk(s, rows)
    ensures RowsOk(s', rows)
  {
    forall k | k in rows ensures RowOk(s', k, rows[k]) && Settled(s', rows[k].armToken) {
      assert RowOk(s, k, rows[k]) && Settled(s, rows[k].armToken);
    }
  }

  lemma TxWritten(s: Store, w: Writes, id: Token)
    requires id in s.open && TxOk(s, id, s.open[id]) && Carries(s, Write(s, w))
    ensures TxOk(Write(s, w), id, s.open[id])
  {
    hide RowsOk;
    var s', tx := Write(s, w), s.open[id];
    RowsCarried(s, s', tx.snapshot);
    forall k | Untouched(s', tx, k) ensures SameAt(s'.rows, tx.snapshot, k) {
      assert k !in w && Untouched(s, tx, k) && SameAt(s.rows, tx.snapshot, k);
    }
    assert forall k, r :: StagedOk(s, id, tx, k, r) ==> StagedOk(s', id, tx, k, r);
  }

  lemma RowsWritten(s: Store, w: Writes)
    requires RowsOk(s, s.rows) && GoodWrites(s, w)
    ensures RowsOk(Write(s, w), Write(s, w).rows)
  {
    hide OneRunning;
    var s' := Write(s, w);
    forall k | k in s'.rows ensures RowOk(s', k, s'.rows[k]) && Settled(s', s'.rows[k].armToken) {
      assert k !in w ==> RowOk(s, k, s.rows[k]) && Settled(s, s.rows[k].armToken);
    }
  }

  lemma WriteKeeps(s: Store, w: Writes)
    requires Inv(s) && GoodWrites(s, w)
    ensures Inv(Write(s, w)) && Carries(s, Write(s, w))
  {
    hide OneRunning, RowsOk, TxOk;
    var s' := Write(s, w);
    assert Carries(s, s');
    RowsWritten(s, w);
    TokensWritten(s, w);
    forall id | id in s'.open ensures TxOk(s', id, s'.open[id]) {
      TxWritten(s, w, id);
    }
    assert OneRunning(s'.rows) by { assert s'.rows == Overlay(s.rows, w); }
  }

  lemma TokensWritten(s: Store, w: Writes)
    requires TokensOk(s)
    ensures TokensOk(Write(s, w))
  {
    var s' := Write(s, w);
    forall a | a in s'.marks ensures Settled(s', a) && s'.marks[a] in s'.used {
      assert Settled(s, a);
    }
  }

  /** Writes that put nothing new to run keep one running task per entity. */
  lemma NoNewRun(rows: Rows, w: Writes)
    requires OneRunning(rows)
    requires forall k :: k in w && w[k].Some? && w[k].value.status.Running? ==>
      k in rows && rows[k].status.Running? && rows[k].entity == w[k].value.entity
    ensures OneRunning(Overlay(rows, w))
  {
    var after := Overlay(rows, w);
    forall k, other | k in after && other in after && k != other && SameEntity(after, k, other)
      ensures !(after[k].status.Running? && after[other].status.Running?)
    {
      if after[k].status.Running? && after[other].status.Running? {
        assert SameEntity(rows, k, other);
      }
    }
  }

  /** A step that leaves the committed rows and the open transactions alone. */
  lemma RowsKept(s: Store, s': Store)
    requires Inv(s) && Carries(s, s') && TokensOk(s')
    requires s'.rows == s.rows && s'.wrote == s.wrote && s'.now == s.now && s'.open == s.open
    ensures Inv(s') && Moves(s, s')
  {
    hide OneRunning, RowsOk, TxOk, TokensOk;
    RowsCarried(s, s', s.rows);
    forall id | id in s'.open ensures TxOk(s', id, s'.open[id]) {
      TxCarried(s, s', id, s.open[id]);
    }
  }

  lemma DrawKeeps(s: Store, op: Joining, tx: Option<Token>)
    requires Inv(s) && DrawsNew(s.used, op) && (tx.Some? ==> tx.value in s.open)
    ensures Inv(Draw(s, op, tx)) && Moves(s, Draw(s, op, tx))
  {
    hide OneRunning, RowsOk, TxOk, Births;
    var s' := Draw(s, op, tx);
    DrawCarries(s, op, tx);
    forall a | a in s'.marks ensures Settled(s', a) && s'.marks[a] in s'.used {
      assert Settled(s, a);
    }
    RowsKept(s, s');
  }

  lemma DrawCarries(s: Store, op: Joining, tx: Option<Token>)
    requires TokensOk(s) && DrawsNew(s.used, op)
    requires tx.Some? ==> tx.value in s.used
    ensures var s' := Draw(s, op, tx);
      Carries(s, s') && forall a :: a in s'.born ==> a in s'.used && (s'.born[a].tx.Some? ==> s'.born[a].tx.value in s'.used)
  {
    BirthsOf(op, tx);
    var s' := Draw(s, op, tx);
    assert forall a :: a in s.born ==> a in s'.born && s'.born[a] == s.born[a];
  }

  lemma BirthsOf(op: Joining, tx: Option<Token>)
    requires op.Reconcile? ==> Injective(op.tokens)
    ensures Births(op, tx).Keys == Drawn(op)
    ensures forall a :: a in Births(op, tx) ==> Births(op, tx)[a].tx == tx
  {
    if op.Reconcile? {
      forall a ensures a in Births(op, tx) <==> a in op.tokens.Values {
      }
    }
  }

  lemma TxCarried(s: Store, s': Store, id: Token, tx: Tx)
    requires TxOk(s, id, tx) && Carries(s, s')
    requires s'.rows == s.rows && s'.wrote == s.wrote && s'.now == s.now
    ensures TxOk(s', id, tx)
  {
    hide RowsOk;
    RowsCarried(s, s', tx.snapshot);
    forall k | Untouched(s', tx, k) ensures SameAt(s'.rows, tx.snapshot, k) {
      assert Untouched(s, tx, k);
    }
    assert forall k, r :: StagedOk(s, id, tx, k, r) ==> StagedOk(s', id, tx, k, r);
  }

  // ----- claims -----

  ghost predicate GoodRow(s: Store, s1: Store, k: Key, r: Row) {
    RowOk(s1, k, r) && Settled(s1, r.armToken) && MayBecome(s, k, r)
  }

  /** A step that draws tokens or changes marks, giving s1, and then writes w. */
  lemma WriteAfter(s: Store, s1: Store, w: Writes)
    requires Inv(s) && Carries(s, s1) && TokensOk(s1)
    requires s1.rows == s.rows && s1.wrote == s.wrote && s1.now == s.now && s1.open == s.open
    requires forall k :: k in w && w[k].Some? ==> GoodRow(s, s1, k, w[k].value)
    requires OneRunning(Overlay(s.rows, w))
    ensures Inv(Write(s1, w)) && Moves(s, Write(s1, w))
  {
    hide OneRunning, TokensOk, Settled, RowOk, RowsOk, TxOk;
    RowsKept(s, s1);
    WriteThen(s, s1, w);
  }

  lemma RowAt(s: Store, k: Key)
    requires Inv(s) && k in s.rows
    ensures RowOk(s, k, s.rows[k]) && Settled(s, s.rows[k].armToken)
  {
    hide OneRunning, TokensOk, TxOk;
  }

  /** A row of s changed within its life, its claim dropped, kept or new. */
  lemma GoodInLife(s: Store, s1: Store, k: Key, r: Row)
    requires Inv(s) && k in s.rows && Carries(s, s1)
    requires LifeStep(s.rows[k], r) && (r.status.Running? <==> r.claim.Some?)
    requires r.claim.Some? ==> r.claim == s.rows[k].claim || r.claim.value.token in s1.used - s.used
    ensures GoodRow(s, s1, k, r)
  {
    RowAt(s, k);
    hide Inv;
  }

  lemma SameSettled(s: Store, s1: Store)
    requires TokensOk(s) && s1.born == s.born && s1.open == s.open && s.used <= s1.used && s1.wrote == s.wrote && s1.now == s.now
    requires forall a :: a in s1.marks ==> Settled(s, a) && s1.marks[a] in s.used
    ensures Carries(s, s1) && TokensOk(s1)
  {
    assert forall a :: Settled(s, a) <==> Settled(s1, a);
  }

  lemma ClaimKeeps(s: Store, req: DueRequest, at: int, tokens: map<Key, Token>)
    requires Inv(s) && Legal(s, StepClaimDue(req, at, tokens))
    ensures Inv(ClaimDue(s, req, tokens)) && Moves(s, ClaimDue(s, req, tokens))
  {
    ClaimedRunAlone(s, req, at, tokens);
    var s1 := s.(used := s.used + tokens.Values);
    var w := Claims(s.rows, tokens, req.owner);
    SameSettled(s, s1);
    forall k | k in w ensures GoodRow(s, s1, k, w[k].value) {
      ClaimedRow(s, s1, req, at, tokens, k);
    }
    hide Inv, Moves, Carries, GoodRow, OneRunning, TokensOk, Overlay, Legal;
    WriteAfter(s, s1, w);
  }

  lemma ClaimedRow(s: Store, s1: Store, req: DueRequest, at: int, tokens: map<Key, Token>, k: Key)
    requires Inv(s) && Legal(s, StepClaimDue(req, at, tokens)) && k in tokens
    requires s1 == s.(used := s.used + tokens.Values) && Carries(s, s1)
    ensures k in s.rows && GoodRow(s, s1, k, Claimed(s.rows[k], Claim(tokens[k], req.owner)))
  {
    hide OneRunning, RowsOk, RowOk, MayBecome, Settled, TxOk, Overlay, Busy, Lost, GoodRow;
    assert tokens[k] in tokens.Values && Claimable(s, req, at, k);
    GoodInLife(s, s1, k, Claimed(s.rows[k], Claim(tokens[k], req.owner)));
  }

  lemma ClaimedRunAlone(s: Store, req: DueRequest, at: int, tokens: map<Key, Token>)
    requires OneRunning(s.rows) && Legal(s, StepClaimDue(req, at, tokens))
    ensures OneRunning(Overlay(s.rows, Claims(s.rows, tokens, req.owner)))
  {
    hide Busy, Lost;
    var after := Overlay(s.rows, Claims(s.rows, tokens, req.owner));
    forall k, other | k in after && other in after && k != other && SameEntity(after, k, other)
      ensures !(after[k].status.Running? && after[other].status.Running?)
    {
      assert SameEntity(s.rows, k, other) && SameEntity(s.rows, other, k);
      assert k in tokens ==> Claimable(s, req, at, k);
      assert other in tokens ==> Claimable(s, req, at, other);
    }
  }

  lemma GiveBackKeeps(s: Store, owner: Token, keep: set<Token>)
    requires Inv(s)
    ensures Inv(GiveBackIdle(s, owner, keep)) && Moves(s, GiveBackIdle(s, owner, keep))
  {
    var w := Released(s.rows, GivenBack(s, owner, keep));
    NoNewRun(s.rows, w);
    hide OneRunning, RowsOk, RowOk, MayBecome, Settled, TxOk, Overlay, Busy, TokensOk;
    SameSettledSelf(s);
    forall k | k in w ensures GoodRow(s, s, k, w[k].value) {
      GoodInLife(s, s, k, w[k].value);
    }
    WriteAfter(s, s, w);
  }

  lemma SameSettledSelf(s: Store)
    ensures Carries(s, s)
  {
  }

  lemma RecordKeeps(s: Store, ref: Ref, a: Attempt)
    requires Inv(s)
    ensures Inv(RecordAttempt(s, ref, a).1) && Moves(s, RecordAttempt(s, ref, a).1)
  {
    hide OneRunning, RowsOk, RowOk, MayBecome, Settled, TxOk, Overlay, Busy, ValidErrorText;
    if RecordAttempt(s, ref, a).0 == Done {
      RecordWrites(s, ref, a);
    } else {
      StandStill(s);
    }
  }

  lemma StandStill(s: Store)
    requires Inv(s)
    ensures Moves(s, s)
  {
  }

  lemma RecordWrites(s: Store, ref: Ref, a: Attempt)
    requires Inv(s) && RecordAttempt(s, ref, a).0 == Done
    ensures Inv(RecordAttempt(s, ref, a).1) && Moves(s, RecordAttempt(s, ref, a).1)
  {
    hide RowsOk, MayBecome, Settled, TxOk, Busy, ValidErrorText;
    var k, s1 := ref.Key(), s.(marks := RecordAttempt(s, ref, a).1.marks);
    var r := Recorded(s.rows[k], a);
    var w: Writes := map[k := Some(r)];
    RowAt(s, k);
    SameSettled(s, s1);
    NoNewRun(s.rows, w);
    hide OneRunning, RowOk, TokensOk, Overlay;
    GoodInLife(s, s1, k, r);
    WriteAfter(s, s1, w);
    assert RecordAttempt(s, ref, a).1 == Write(s1, w);
  }

  lemma MarkKeeps(s: Store, ref: Ref)
    requires Inv(s)
    ensures Inv(MarkUnsafe(s, ref).1) && Moves(s, MarkUnsafe(s, ref).1)
  {
    hide RowsOk, Settled, TxOk, OneRunning, Busy;
    var s' := MarkUnsafe(s, ref).1;
    if Held(s.rows, ref) {
      RowAt(s, ref.Key());
    }
    SameSettled(s, s');
    RowsKept(s, s');
  }

  lemma SweepKeeps(s: Store, s': Store)
    requires Inv(s)
    requires s' == s.(marks := s'.marks, beats := s'.beats)
    requires forall a :: a in s'.marks ==> a in s.marks && s'.marks[a] == s.marks[a]
    ensures Inv(s') && Moves(s, s')
  {
    hide TxOk, OneRunning;
    assert forall x :: Settled(s, x) <==> Settled(s', x);
    RowsKept(s, s');
  }

  // ----- transactions -----

  lemma BeginKeeps(s: Store, id: Token, tenant: Text)
    requires Inv(s) && id !in s.used
    ensures Inv(Begin(s, id, tenant)) && Moves(s, Begin(s, id, tenant))
  {
    hide OneRunning, RowsOk, TxOk;
    var s' := Begin(s, id, tenant);
    assert TokensOk(s') && Carries(s, s') by {
      assert forall a :: Settled(s, a) ==> Settled(s', a);
    }
    RowsCarried(s, s', s.rows);
    forall other | other in s'.open ensures TxOk(s', other, s'.open[other]) {
      if other == id {
        NewTx(s', id);
      } else {
        TxCarried(s, s', other, s.open[other]);
      }
    }
  }

  lemma NewTx(s: Store, id: Token)
    requires RowsOk(s, s.rows) && TokensOk(s)
    requires id in s.open && s.open[id].snapshot == s.rows && s.open[id].began == s.now
    requires s.open[id].staged == map[] && s.open[id].accepted == {}
    ensures TxOk(s, id, s.open[id])
  {
  }

  lemma CloseKeeps(s: Store, id: Token)
    requires Inv(s) && id in s.open
    ensures Inv(Close(s, id)) && Moves(s, Close(s, id))
  {
    hide OneRunning, RowsOk, TxOk;
    var s' := Close(s, id);
    assert TokensOk(s') && Carries(s, s') by {
      assert forall a :: Settled(s, a) ==> Settled(s', a);
    }
    RowsCarried(s, s', s.rows);
    forall other | other in s'.open ensures TxOk(s', other, s'.open[other]) {
      TxCarried(s, s', other, s.open[other]);
    }
  }

  /** Without a conflict, what a transaction staged of a row goes on from the row as it is committed. */
  lemma StagedGoesOn(s: Store, id: Token, k: Key)
    requires Inv(s) && id in s.open && !Conflicts(s, s.open[id]) && k in s.open[id].staged
    ensures SameAt(s.rows, s.open[id].snapshot, k)
  {
    hide OneRunning, RowsOk, StagedOk, TokensOk;
    assert TxOk(s, id, s.open[id]);
    assert Untouched(s, s.open[id], k);
  }

  lemma StagedRow(s: Store, id: Token, k: Key)
    requires Inv(s) && id in s.open && !Conflicts(s, s.open[id])
    requires k in s.open[id].staged && s.open[id].staged[k].Some?
    ensures var r := s.open[id].staged[k].value;
      && GoodRow(s, Close(s, id), k, r)
      && (r.status.Running? ==> k in s.rows && s.rows[k].status.Running? && s.rows[k].entity == r.entity)
  {
    hide OneRunning, RowsOk, TokensOk;
    var tx := s.open[id];
    var r := tx.staged[k].value;
    StagedGoesOn(s, id, k);
    assert TxOk(s, id, tx) && StagedOk(s, id, tx, k, r);
    if k in s.rows {
      RowAt(s, k);
    }
  }

  lemma CommitKeeps(s: Store, id: Token)
    requires Inv(s) && id in s.open
    ensures Inv(Commit(s, id).1) && Moves(s, Commit(s, id).1)
  {
    var s1, tx := Close(s, id), s.open[id];
    CloseKeeps(s, id);
    hide OneRunning, RowsOk, RowOk, MayBecome, Settled, TxOk, TokensOk, Conflicts;
    if !Conflicts(s, tx) {
      forall k | k in tx.staged && tx.staged[k].Some?
        ensures GoodRow(s, s1, k, tx.staged[k].value)
        ensures var r := tx.staged[k].value;
          r.status.Running? ==> k in s.rows && s.rows[k].status.Running? && s.rows[k].entity == r.entity
      {
        StagedRow(s, id, k);
      }
      NoNewRun(s.rows, tx.staged);
      WriteThen(s, s1, tx.staged);
    }
  }

  /** A committed write after a step that kept the rows. */
  lemma WriteThen(s: Store, s1: Store, w: Writes)
    requires Inv(s1) && Moves(s, s1) && s1.rows == s.rows
    requires forall k :: k in w && w[k].Some? ==> GoodRow(s, s1, k, w[k].value)
    requires OneRunning(Overlay(s.rows, w))
    ensures Inv(Write(s1, w)) && Moves(s, Write(s1, w))
  {
    hide OneRunning, TokensOk, Settled, RowOk, RowsOk, TxOk;
    var s' := Write(s1, w);
    assert GoodWrites(s1, w);
    WriteKeeps(s1, w);
    forall k | k in s'.rows ensures MayBecome(s, k, s'.rows[k]) {
      assert k in w ==> GoodRow(s, s1, k, w[k].value);
      assert k !in w ==> s'.rows[k] == s.rows[k];
    }
  }

  // ----- joining operations -----

  /** What an operation writes of row k: the first row of a life it just armed, or the row it saw, gone on. */
  ghost predicate Effected(s1: Store, tx: Option<Token>, view: Rows, k: Key, r: Row) {
    && (r.status.Running? <==> r.claim.Some?)
    && (|| (Unclaimed(r) && r.armToken in s1.born && s1.born[r.armToken] == Birth(tx, k))
        || (k in view && Follows(view[k], r)))
  }

  lemma EffectOf(s: Store, view: Rows, op: Joining, tx: Option<Token>, k: Key)
    requires DrawsNew(s.used, op) && Effect(view, op).Some?
    requires k in Effect(view, op).value && Effect(view, op).value[k].Some?
    requires k in view ==> (view[k].status.Running? <==> view[k].claim.Some?)
    ensures Effected(Draw(s, op, tx), tx, view, k, Effect(view, op).value[k].value)
    ensures op.Reconcile? ==> Effect(view, op).value[k].value.armToken in Drawn(op)
    ensures !op.Reconcile? ==> k in view && Follows(view[k], Effect(view, op).value[k].value)
  {
    if op.Reconcile? {
      hide Draw, Births;
      assert k in Armed(op.tenant, op.entity, op.arm, op.tokens);
      ArmedRow(s, op, tx, k);
    }
  }

  lemma ArmedRow(s: Store, op: Joining, tx: Option<Token>, k: Key)
    requires op.Reconcile? && DrawsNew(s.used, op) && k in Armed(op.tenant, op.entity, op.arm, op.tokens)
    ensures Armed(op.tenant, op.entity, op.arm, op.tokens)[k].Some?
    ensures var r, s1 := Armed(op.tenant, op.entity, op.arm, op.tokens)[k].value, Draw(s, op, tx);
      && Unclaimed(r) && r.status.Waiting? && r.armToken in Drawn(op)
      && r.armToken in s1.born && s1.born[r.armToken] == Birth(tx, k)
  {
    var id :| id in op.arm.Keys && (op.tenant, id) == k;
    assert id in op.tokens && op.tokens[id] in op.tokens.Values;
    assert op.tokens[id] in Births(op, tx) && Births(op, tx)[op.tokens[id]] == Birth(tx, k);
  }

  lemma DirectRow(s: Store, op: Joining, k: Key)
    requires Inv(s) && DrawsNew(s.used, op) && Effect(s.rows, op).Some?
    requires k in Effect(s.rows, op).value && Effect(s.rows, op).value[k].Some?
    ensures var r := Effect(s.rows, op).value[k].value;
      && GoodRow(s, Draw(s, op, None), k, r)
      && (r.status.Running? ==> k in s.rows && s.rows[k].status.Running? && s.rows[k].entity == r.entity)
  {
    hide OneRunning, Effect, TxOk, RowsOk;
    if k in s.rows {
      RowAt(s, k);
    }
    EffectOf(s, s.rows, op, None, k);
    DrawKeeps(s, op, None);
  }

  lemma DirectKeeps(s: Store, op: Joining)
    requires Inv(s) && DrawsNew(s.used, op) && Effect(s.rows, op).Some?
    ensures var s' := Write(Draw(s, op, None), Effect(s.rows, op).value);
      Inv(s') && Moves(s, s')
  {
    var s1, w := Draw(s, op, None), Effect(s.rows, op).value;
    DrawKeeps(s, op, None);
    hide OneRunning, RowsOk, RowOk, MayBecome, Settled, TxOk, TokensOk, Effect;
    forall k | k in w && w[k].Some?
      ensures GoodRow(s, s1, k, w[k].value)
      ensures var r := w[k].value;
        r.status.Running? ==> k in s.rows && s.rows[k].status.Running? && s.rows[k].entity == r.entity
    {
      DirectRow(s, op, k);
    }
    NoNewRun(s.rows, w);
    WriteAfter(s, s1, w);
  }

  lemma ViewRow(s: Store, id: Token, k: Key)
    requires Inv(s) && id in s.open && k in View(s.open[id])
    ensures var tx := s.open[id];
      StagedOk(s, id, tx, k, View(tx)[k])
    ensures k !in s.open[id].staged ==> k in s.open[id].snapshot && View(s.open[id])[k] == s.open[id].snapshot[k]
  {
    hide OneRunning, TokensOk;
    var tx := s.open[id];
    assert TxOk(s, id, tx);
    assert k in tx.snapshot ==> RowOk(s, k, tx.snapshot[k]);
  }

  lemma StageRow(s: Store, id: Token, op: Joining, k: Key)
    requires Inv(s) && id in s.open && DrawsNew(s.used, op) && Effect(View(s.open[id]), op).Some?
    requires k in Effect(View(s.open[id]), op).value && Effect(View(s.open[id]), op).value[k].Some?
    ensures StagedOk(Draw(s, op, Some(id)), id, s.open[id], k, Effect(View(s.open[id]), op).value[k].value)
  {
    hide OneRunning, Effect, TxOk, RowsOk, View;
    var tx := s.open[id];
    if k in View(tx) {
      ViewRow(s, id, k);
    }
    EffectOf(s, View(tx), op, Some(id), k);
    DrawKeeps(s, op, Some(id));
  }

  /** A ref the view accepts is one the snapshot holds: nothing staged puts a row under a new claim. */
  lemma AcceptedRef(s: Store, id: Token, ref: Ref)
    requires Inv(s) && id in s.open && Held(View(s.open[id]), ref)
    ensures Held(s.open[id].snapshot, ref)
  {
    hide OneRunning, TxOk, RowsOk;
    ViewRow(s, id, ref.Key());
  }

  lemma StagedTx(s: Store, id: Token, op: Joining)
    requires Inv(s) && id in s.open && DrawsNew(s.used, op) && Effect(View(s.open[id]), op).Some?
    ensures var tx := s.open[id];
      TxOk(Draw(s, op, Some(id)), id, Stage(tx, op, Effect(View(tx), op).value))
  {
    var tx, s1 := s.open[id], Draw(s, op, Some(id));
    var tx' := Stage(tx, op, Effect(View(tx), op).value);
    DrawKeeps(s, op, Some(id));
    StagedRows(s, id, op);
    StagedRefs(s, id, op);
    hide OneRunning, RowsOk, TokensOk, Effect, View, AllStagedOk, AcceptedOk;
    assert TxOk(s1, id, tx);
    forall k | Untouched(s1, tx', k) ensures SameAt(s1.rows, tx'.snapshot, k) {
      assert Untouched(s1, tx, k);
    }
  }

  lemma StagedRows(s: Store, id: Token, op: Joining)
    requires Inv(s) && id in s.open && DrawsNew(s.used, op) && Effect(View(s.open[id]), op).Some?
    ensures var tx := s.open[id];
      AllStagedOk(Draw(s, op, Some(id)), id, Stage(tx, op, Effect(View(tx), op).value))
  {
    var tx, s1 := s.open[id], Draw(s, op, Some(id));
    var w := Effect(View(tx), op).value;
    var tx' := Stage(tx, op, w);
    DrawKeeps(s, op, Some(id));
    assert TxOk(s1, id, tx);
    hide OneRunning, RowsOk, TokensOk, Effect, View, StagedOk, Draw;
    forall k | k in tx'.staged && tx'.staged[k].Some? ensures StagedOk(s1, id, tx', k, tx'.staged[k].value) {
      if k in w {
        StageRow(s, id, op, k);
      }
      SameSnapshot(s1, id, tx, tx', k, tx'.staged[k].value);
    }
  }

  lemma StagedRefs(s: Store, id: Token, op: Joining)
    requires Inv(s) && id in s.open && Effect(View(s.open[id]), op).Some?
    ensures AcceptedOk(Stage(s.open[id], op, Effect(View(s.open[id]), op).value))
  {
    hide OneRunning, RowsOk, TokensOk, View, AllStagedOk, SnapshotOk;
    assert TxOk(s, id, s.open[id]);
    if op.StampSegment? || op.Fail? {
      AcceptedRef(s, id, op.ref);
    }
  }

  lemma SameSnapshot(s: Store, id: Token, tx: Tx, tx': Tx, k: Key, r: Row)
    requires tx'.snapshot == tx.snapshot
    ensures StagedOk(s, id, tx, k, r) <==> StagedOk(s, id, tx', k, r)
  {
  }

  lemma StageKeeps(s: Store, id: Token, op: Joining)
    requires Inv(s) && id in s.open && DrawsNew(s.used, op) && Effect(View(s.open[id]), op).Some?
    ensures var s1 := Draw(s, op, Some(id));
      var s' := s1.(open := s.open[id := Stage(s.open[id], op, Effect(View(s.open[id]), op).value)]);
      Inv(s') && Moves(s, s')
  {
    var s1 := Draw(s, op, Some(id));
    var tx' := Stage(s.open[id], op, Effect(View(s.open[id]), op).value);
    DrawKeeps(s, op, Some(id));
    StagedTx(s, id, op);
    TxReplaced(s1, id, tx');
  }

  lemma TxReplaced(s: Store, id: Token, tx: Tx)
    requires Inv(s) && id in s.open && TxOk(s, id, tx)
    ensures var s' := s.(open := s.open[id := tx]);
      Inv(s') && Moves(s, s')
  {
    hide OneRunning, RowsOk, TxOk;
    var s' := s.(open := s.open[id := tx]);
    assert Carries(s, s') && TokensOk(s') by {
      assert forall a :: Settled(s, a) <==> Settled(s', a);
    }
    RowsCarried(s, s', s.rows);
    hide Settled, TokensOk;
    forall other | other in s'.open ensures TxOk(s', other, s'.open[other]) {
      TxCarried(s, s', other, s'.open[other]);
    }
  }
}
