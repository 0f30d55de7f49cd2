/** First committer wins, over every run: which transactions a store commits. */
module TaskStoreCommits {
  import opened Wrappers
  import opened TaskStore
  import opened TaskStoreLaws
  import opened TaskStoreRuns

  /** The step writes the committed row: at once, or by a transaction that commits. */
  ghost predicate WritesRow(s: Store, step: Step, k: Key)
    requires Legal(s, step)
  {
    match step
    case StepJoin(tx, op) =>
      tx.None? && Join(s, tx, op).0 == Done && Effect(s.rows, op).Some? && k in Effect(s.rows, op).value
    case StepCommit(id) => Commit(s, id).0 == Done && k in s.open[id].staged
    case StepClaimDue(_, _, tokens) => k in tokens
    case StepGiveBackIdle(owner, keep) => k in GivenBack(s, owner, keep)
    case StepRecordAttempt(ref, a) => RecordAttempt(s, ref, a).0 == Done && k == (ref.tenant, ref.id)
    case _ => false
  }

  /** The row was written after a point of the store's clock. */
  predicate WrittenSince(s: Store, began: nat, k: Key) {
    k in s.wrote && s.wrote[k] > began
  }

  /** Between the two states the row was written, or was left alone. */
  ghost predicate Seen(s: Store, s': Store, k: Key, written: bool) {
    && s.now <= s'.now && (written ==> k in s'.wrote && s'.wrote[k] > s.now)
    && (!written ==> SameAt(s.rows, s'.rows, k) && (k in s.wrote <==> k in s'.wrote) && (k in s.wrote ==> s'.wrote[k] == s.wrote[k]))
  }

  lemma WriteSeen(s: Store, w: Writes, k: Key)
    ensures Seen(s, Write(s, w), k, k in w)
  {
  }

  lemma StepWrites(s: Store, step: Step, k: Key)
    requires Legal(s, step)
    ensures Seen(s, Next(s, step), k, WritesRow(s, step, k))
  {
    hide Seen, Join, Commit, ClaimDue, GiveBackIdle, RecordAttempt, GivenBack, Busy, Claimable, OnePerEntity, DrawsNew, Effect;
    match step
    case StepJoin(tx, op) => JoinSeen(s, tx, op, k);
    case StepCommit(id) => CommitSeen(s, id, k);
    case StepClaimDue(req, at, tokens) =>
      ClaimableRows(s, req, at, tokens);
      ClaimSeen(s, req, tokens, k);
    case StepGiveBackIdle(owner, keep) => GiveBackSeen(s, owner, keep, k);
    case StepRecordAttempt(ref, a) => RecordSeen(s, ref, a, k);
    case _ => OthersSeen(s, step, k);
  }

  lemma OthersSeen(s: Store, step: Step, k: Key)
    requires Legal(s, step) && !step.StepJoin? && !step.StepCommit? && !step.StepClaimDue?
    requires !step.StepGiveBackIdle? && !step.StepRecordAttempt?
    ensures Seen(s, Next(s, step), k, false)
  {
    hide Busy, Claimable, Held, Referenced, Current, OnePerEntity;
  }

  lemma JoinSeen(s: Store, tx: Option<Token>, op: Joining, k: Key)
    requires Legal(s, StepJoin(tx, op))
    ensures Seen(s, Join(s, tx, op).1, k, WritesRow(s, StepJoin(tx, op), k))
  {
    hide Effect, View, Stage, Births, Overlay, Stamped, ValidJoining;
    if tx.None? && Join(s, tx, op).0 == Done {
      WriteSeen(Draw(s, op, tx), Effect(s.rows, op).value, k);
    }
  }

  lemma CommitSeen(s: Store, id: Token, k: Key)
    requires id in s.open
    ensures Seen(s, Commit(s, id).1, k, Commit(s, id).0 == Done && k in s.open[id].staged)
  {
    hide Conflicts, Overlay, Stamped;
    WriteSeen(Close(s, id), s.open[id].staged, k);
  }

  lemma ClaimableRows(s: Store, req: DueRequest, at: int, tokens: map<Key, Token>)
    requires forall k :: k in tokens ==> Claimable(s, req, at, k)
    ensures tokens.Keys <= s.rows.Keys
  {
  }

  lemma ClaimSeen(s: Store, req: DueRequest, tokens: map<Key, Token>, k: Key)
    requires tokens.Keys <= s.rows.Keys
    ensures Seen(s, ClaimDue(s, req, tokens), k, k in tokens)
  {
    hide Overlay, Stamped;
    WriteSeen(s.(used := s.used + tokens.Values), Claims(s.rows, tokens, req.owner), k);
  }

  lemma GiveBackSeen(s: Store, owner: Token, keep: set<Token>, k: Key)
    ensures Seen(s, GiveBackIdle(s, owner, keep), k, k in GivenBack(s, owner, keep))
  {
    hide Overlay, Stamped, Busy;
    WriteSeen(s, Released(s.rows, GivenBack(s, owner, keep)), k);
  }

  lemma RecordSeen(s: Store, ref: Ref, a: Attempt, k: Key)
    ensures var (answer, s') := RecordAttempt(s, ref, a);
      Seen(s, s', k, answer == Done && k == (ref.tenant, ref.id))
  {
    hide Busy, ValidErrorText, Recorded, Overlay, Stamped;
    if RecordAttempt(s, ref, a).0 == Done {
      var own := ref.armToken in s.marks && s.marks[ref.armToken] == ref.claimToken;
      var marks := if a.clearOwnMark && own then s.marks - {ref.armToken} else s.marks;
      WriteSeen(s.(marks := marks), map[ref.Key() := Some(Recorded(s.rows[ref.Key()], a))], k);
    }
  }

  lemma WrittenByNow(s: Store)
    requires Inv(s)
    ensures forall k :: k in s.wrote ==> s.wrote[k] <= s.now
  {
  }

  /** A row is as it was exactly where no step wrote it. */
  lemma {:induction false} RunWrites(states: seq<Store>, steps: seq<Step>, b: nat, j: nat, k: Key)
    requires Run(states, steps) && b <= j <= |steps|
    ensures WrittenSince(states[j], states[b].now, k) <==> WrittenBetween(states, steps, b, j, k)
    ensures states[b].now <= states[j].now
    ensures !WrittenBetween(states, steps, b, j, k) ==> SameAt(states[b].rows, states[j].rows, k)
    decreases j
  {
    hide Inv, Legal, Next, WritesRow;
    if b == j {
      RunKeeps(states, steps, b);
      WrittenByNow(states[b]);
    } else {
      RunWrites(states, steps, b, j - 1, k);
      StepWrites(states[j - 1], steps[j - 1], k);
    }
  }

  /** Some step of the run from b to j wrote the row. */
  ghost predicate WrittenBetween(states: seq<Store>, steps: seq<Step>, b: nat, j: nat, k: Key)
    requires Run(states, steps) && b <= j <= |steps|
  {
    exists m :: b <= m < j && WritesRow(states[m], steps[m], k)
  }

  /** First committer wins, in every run: a transaction is refused at its commit exactly when a step since it
      began, of another transaction or of none, has written a row it staged; and one that commits finds every
      row it staged as it was when it began. */
  lemma FirstCommitterWins(states: seq<Store>, steps: seq<Step>, b: nat, j: nat, id: Token)
    requires Run(states, steps) && b < j <= |steps| && steps[b].StepBegin? && steps[b].id == id && id in states[j].open
    ensures Commit(states[j], id).0 == Conflict <==>
      exists k :: k in states[j].open[id].staged && WrittenBetween(states, steps, b + 1, j, k)
    ensures Commit(states[j], id).0 == Done ==>
      forall k :: k in states[j].open[id].staged ==> SameAt(states[b].rows, states[j].rows, k)
  {
    hide Inv, Legal, WritesRow;
    assert states[b + 1] == Next(states[b], steps[b]);
    assert states[b + 1].now == states[b].now && states[b + 1].rows == states[b].rows;
    assert id in states[b + 1].open && states[b + 1].open[id].began == states[b].now && id in states[b + 1].used;
    hide Next;
    TxStays(states, steps, b + 1, j, id);
    var tx := states[j].open[id];
    forall k ensures WrittenSince(states[j], tx.began, k) <==> WrittenBetween(states, steps, b + 1, j, k)
      ensures !WrittenBetween(states, steps, b + 1, j, k) ==> SameAt(states[b].rows, states[j].rows, k)
    {
      RunWrites(states, steps, b + 1, j, k);
    }
    assert Conflicts(states[j], tx) <==> exists k :: k in tx.staged && WrittenSince(states[j], tx.began, k);
    hide Write;
  }
}
