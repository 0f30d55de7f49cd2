/** The ScheduledTaskStore contract of persistence.go as a machine: committed task rows, the marks
    of their lives, owner liveness, and the open transactions that stage joining writes. */
module TaskStore {
  import opened Bytes
  import opened Wrappers
  import Utf8

  /** What the store draws: arm tokens, claim tokens and transaction ids. Never reused. */
  datatype Token = Token(n: nat)

  type Key = (Text, Text)  // tenant, id
  type Rows = map<Key, Row>
  type Writes = map<Key, Option<Row>>  // None removes the row

  datatype Status = Waiting | Running | Failed
  datatype Claim = Claim(token: Token, owner: Token)
  datatype Reason =
    | UnsafeWorkNotCompleted | OwnerLostRepeatedly | ExpiredAfterFailedAttempts | RunPanicked | StoppedAfterPartialCommit

  /** What the caller gives of a task to arm. */
  datatype Plan = Plan(model: (Text, int), sourceState: Text, transition: Text, scheduledTime: int)

  datatype Row = Row(
    entity: Text, plan: Plan,
    status: Status, armToken: Token, nextAttemptTime: int, attempts: nat, lostOwners: nat,
    lastAttemptTime: Option<int>, lastError: Text, failureReason: Option<Reason>, failedTime: Option<int>,
    partialCommit: bool, claim: Option<Claim>)

  /** One claim of one life. */
  datatype Ref = Ref(tenant: Text, id: Text, armToken: Token, claimToken: Token) {
    function Key(): Key { (tenant, id) }
  }

  datatype Attempt = Attempt(error: Text, atMs: int, nextAttemptTime: int, notCounted: bool, clearOwnMark: bool)
  datatype Failure = Failure(reason: Reason, error: Text, atMs: int)

  datatype Tx = Tx(tenant: Text, began: nat, snapshot: Rows, staged: Writes, accepted: set<Ref>)

  /** Where an arm token was drawn: for which row, and in which transaction if any. */
  datatype Birth = Birth(tx: Option<Token>, key: Key)

  /** born is where each arm token was drawn, wrote when a row was last written. */
  datatype Store = Store(
    rows: Rows, marks: map<Token, Token>, beats: map<Token, int>, open: map<Token, Tx>,
    used: set<Token>, born: map<Token, Birth>, wrote: map<Key, nat>, now: nat)

  const EMPTY := Store(map[], map[], map[], map[], {}, map[], map[], 0)

  datatype Answer = Done | StaleClaim | TaskBusy | MarkedByAnotherClaim | TenantMismatch | Rejected | Conflict

  const MAX_TASK_ERROR_BYTES := 1024

  predicate ValidErrorText(s: Text) {
    |s| <= MAX_TASK_ERROR_BYTES && Utf8.Valid(s) && 0 !in s
  }

  // ----- rows -----

  function Overlay(rows: Rows, w: Writes): Rows {
    map k | k in rows.Keys + w.Keys && (k in w ==> w[k].Some?) :: if k in w then w[k].value else rows[k]
  }

  function View(tx: Tx): Rows {
    Overlay(tx.snapshot, tx.staged)
  }

  /** The fence: the row is the ref's life, under the ref's claim. */
  predicate Held(rows: Rows, ref: Ref) {
    ref.Key() in rows && rows[ref.Key()].armToken == ref.armToken &&
    rows[ref.Key()].claim.Some? && rows[ref.Key()].claim.value.token == ref.claimToken
  }

  /** An open transaction has written the row. */
  predicate Busy(s: Store, k: Key) {
    exists id :: id in s.open && k in s.open[id].staged
  }

  function NewLife(entity: Text, plan: Plan, token: Token): Row {
    Row(entity, plan, Waiting, token, plan.scheduledTime, 0, 0, None, [], None, None, false, None)
  }

  // ----- joining operations -----

  datatype Joining =
    | Reconcile(tenant: Text, entity: Text, arm: map<Text, Plan>, cancel: set<Text>, tokens: map<Text, Token>)
    | RemoveLife(tenant: Text, id: Text, armToken: Token)
    | StampSegment(ref: Ref, partial: bool)
    | DeleteForEntities(tenant: Text, entities: set<Text>)
    | DeleteForModel(tenant: Text, model: (Text, int), keep: set<(Text, Text)>)
    | Fail(ref: Ref, failure: Failure)

  function Tenant(op: Joining): Text {
    if op.StampSegment? || op.Fail? then op.ref.tenant else op.tenant
  }

  predicate ValidJoining(op: Joining) {
    match op
    case Reconcile(_, _, arm, cancel, _) => [] !in arm && arm.Keys !! cancel
    case Fail(_, f) => ValidErrorText(f.error)
    case _ => true
  }

  predicate Injective<K(!new), V(==)>(m: map<K, V>) {
    forall a, b :: a in m && b in m && m[a] == m[b] ==> a == b
  }

  function Drawn(op: Joining): set<Token> {
    if op.Reconcile? then op.tokens.Values else {}
  }

  /** The store draws one new arm token for each task to arm. */
  predicate DrawsNew(used: set<Token>, op: Joining) {
    Drawn(op) !! used && (op.Reconcile? ==> op.tokens.Keys == op.arm.Keys && Injective(op.tokens))
  }

  function Removed(rows: Rows, gone: set<Key>): Writes {
    map k | k in rows.Keys && k in gone :: None
  }

  function OfEntities(rows: Rows, tenant: Text, entities: set<Text>): set<Key> {
    set k | k in rows && k.0 == tenant && rows[k].entity in entities
  }

  function Armed(tenant: Text, entity: Text, arm: map<Text, Plan>, tokens: map<Text, Token>): Writes {
    map id | id in arm.Keys && id in tokens :: (tenant, id) := Some(NewLife(entity, arm[id], tokens[id]))
  }

  /** The rows an operation writes, seen from a view; None when it is fenced off. */
  function Effect(view: Rows, op: Joining): Option<Writes> {
    match op
    case Reconcile(tenant, entity, arm, _, tokens) =>
      Some(Removed(view, OfEntities(view, tenant, {entity})) + Armed(tenant, entity, arm, tokens))
    case RemoveLife(tenant, id, armToken) =>
      var k := (tenant, id);
      Some(if k in view && view[k].armToken == armToken then map[k := None] else map[])
    case StampSegment(ref, partial) =>
      if !Held(view, ref) then None
      else
        var r := view[ref.Key()];
        Some(map[ref.Key() := Some(r.(partialCommit := r.partialCommit || partial))])
    case DeleteForEntities(tenant, entities) =>
      Some(Removed(view, OfEntities(view, tenant, entities)))
    case DeleteForModel(tenant, model, keep) =>
      Some(Removed(view, set k | k in view && k.0 == tenant && view[k].plan.model == model &&
        (view[k].plan.sourceState, view[k].plan.transition) !in keep))
    case Fail(ref, f) =>
      if !Held(view, ref) then None
      else
        var r := view[ref.Key()];
        Some(map[ref.Key() := Some(r.(status := Failed, failureReason := Some(f.reason), lastError := f.error,
          failedTime := Some(f.atMs), claim := None))])
  }

  /** A committed write of rows: every way a row changes ends here. */
  function Write(s: Store, w: Writes): Store {
    s.(rows := Overlay(s.rows, w), now := s.now + 1, wrote := s.wrote + Stamped(w, s.now + 1))
  }

  function Stamped(w: Writes, at: nat): map<Key, nat> {
    map k | k in w :: at
  }

  function Births(op: Joining, tx: Option<Token>): map<Token, Birth>
    requires op.Reconcile? ==> Injective(op.tokens)
  {
    if op.Reconcile? then map id | id in op.tokens :: op.tokens[id] := Birth(tx, (op.tenant, id)) else map[]
  }

  function Draw(s: Store, op: Joining, tx: Option<Token>): Store
    requires op.Reconcile? ==> Injective(op.tokens)
  {
    s.(used := s.used + Drawn(op), born := s.born + Births(op, tx))
  }

  function Stage(tx: Tx, op: Joining, w: Writes): Tx {
    tx.(staged := tx.staged + w,
      accepted := if op.StampSegment? || op.Fail? then tx.accepted + {op.ref} else tx.accepted)
  }

  function Join(s: Store, tx: Option<Token>, op: Joining): (Answer, Store)
    requires (tx.Some? ==> tx.value in s.open) && DrawsNew(s.used, op)
  {
    if !ValidJoining(op) then (Rejected, s)
    else if tx.Some? && s.open[tx.value].tenant != Tenant(op) then (TenantMismatch, s)
    else
      match Effect(if tx.Some? then View(s.open[tx.value]) else s.rows, op)
      case None => (StaleClaim, s)
      case Some(w) =>
        var s' := Draw(s, op, tx);
        (Done, if tx.None? then Write(s', w) else s'.(open := s.open[tx.value := Stage(s.open[tx.value], op, w)]))
  }

  // ----- transactions -----

  function Begin(s: Store, id: Token, tenant: Text): Store {
    s.(used := s.used + {id}, open := s.open[id := Tx(tenant, s.now, s.rows, map[], {})])
  }

  /** First committer wins: another write to a row this one staged, committed since it began. */
  predicate Conflicts(s: Store, tx: Tx) {
    exists k :: k in tx.staged && k in s.wrote && s.wrote[k] > tx.began
  }

  function Close(s: Store, id: Token): Store {
    s.(open := s.open - {id})
  }

  function Commit(s: Store, id: Token): (Answer, Store)
    requires id in s.open
  {
    var tx := s.open[id];
    if Conflicts(s, tx) then (Conflict, Close(s, id)) else (Done, Write(Close(s, id), tx.staged))
  }

  // ----- claims -----

  datatype DueRequest = DueRequest(owner: Token, nowMs: int, staleAfter: int, allowLostOwner: bool)

  predicate Lost(s: Store, owner: Token, staleAfter: int, at: int) {
    owner !in s.beats || at - s.beats[owner] > staleAfter
  }

  predicate Claimable(s: Store, req: DueRequest, at: int, k: Key) {
    && k in s.rows && !Busy(s, k)
    && (|| (s.rows[k].status.Waiting? && s.rows[k].nextAttemptTime <= req.nowMs)
        || (req.allowLostOwner && UnderClaim(s.rows[k]) && Lost(s, s.rows[k].claim.value.owner, req.staleAfter, at)))
    && forall other :: other in s.rows && other != k && SameEntity(s.rows, k, other) ==> !s.rows[other].status.Running?
  }

  predicate UnderClaim(r: Row) {
    r.status.Running? && r.claim.Some?
  }

  predicate SameEntity(rows: Rows, k: Key, other: Key)
    requires k in rows && other in rows
  {
    k.0 == other.0 && rows[k].entity == rows[other].entity
  }

  function Claimed(r: Row, claim: Claim): Row {
    r.(status := Running, claim := Some(claim), lostOwners := r.lostOwners + (if r.status.Running? then 1 else 0))
  }

  function ClaimDue(s: Store, req: DueRequest, tokens: map<Key, Token>): Store
    requires tokens.Keys <= s.rows.Keys
  {
    Write(s.(used := s.used + tokens.Values), Claims(s.rows, tokens, req.owner))
  }

  function Claims(rows: Rows, tokens: map<Key, Token>, owner: Token): Writes
    requires tokens.Keys <= rows.Keys
  {
    map k | k in tokens :: Some(Claimed(rows[k], Claim(tokens[k], owner)))
  }

  function GivenBack(s: Store, owner: Token, keep: set<Token>): set<Key> {
    set k | k in s.rows && UnderClaim(s.rows[k]) && s.rows[k].claim.value.owner == owner &&
      s.rows[k].claim.value.token !in keep && !Busy(s, k)
  }

  function GiveBackIdle(s: Store, owner: Token, keep: set<Token>): Store {
    Write(s, Released(s.rows, GivenBack(s, owner, keep)))
  }

  function Released(rows: Rows, keys: set<Key>): Writes
    requires keys <= rows.Keys
  {
    map k | k in keys :: Some(rows[k].(status := Waiting, claim := None))
  }

  function MarkUnsafe(s: Store, ref: Ref): (Answer, Store) {
    if Busy(s, ref.Key()) then (TaskBusy, s)
    else if !Held(s.rows, ref) then (StaleClaim, s)
    else if ref.armToken in s.marks && s.marks[ref.armToken] != ref.claimToken then (MarkedByAnotherClaim, s)
    else (Done, s.(marks := s.marks[ref.armToken := ref.claimToken]))
  }

  function RecordAttempt(s: Store, ref: Ref, a: Attempt): (Answer, Store) {
    if !ValidErrorText(a.error) then (Rejected, s)
    else if Busy(s, ref.Key()) then (TaskBusy, s)
    else if !Held(s.rows, ref) then (StaleClaim, s)
    else
      var own := ref.armToken in s.marks && s.marks[ref.armToken] == ref.claimToken;
      var marks := if a.clearOwnMark && own then s.marks - {ref.armToken} else s.marks;
      (Done, Write(s.(marks := marks), map[ref.Key() := Some(Recorded(s.rows[ref.Key()], a))]))
  }

  function Recorded(r: Row, a: Attempt): Row {
    r.(status := Waiting, claim := None, nextAttemptTime := a.nextAttemptTime,
      attempts := r.attempts + (if a.notCounted then 0 else 1), lastError := a.error, lastAttemptTime := Some(a.atMs))
  }

  // ----- owners and marks -----

  predicate Referenced(s: Store, owner: Token) {
    exists k :: k in s.rows && s.rows[k].claim.Some? && s.rows[k].claim.value.owner == owner
  }

  function SweepOwners(s: Store, deadFor: int, at: int): Store {
    s.(beats := map o | o in s.beats && (at - s.beats[o] <= deadFor || Referenced(s, o)) :: s.beats[o])
  }

  /** The life is some task's current one. */
  predicate Current(rows: Rows, life: Token) {
    exists k :: k in rows && rows[k].armToken == life
  }

  function SweepMarks(s: Store): Store {
    s.(marks := map a | a in s.marks && Current(s.rows, a) :: s.marks[a])
  }

  // ----- the machine -----

  datatype Step =
    | StepBegin(id: Token, tenant: Text)
    | StepJoin(tx: Option<Token>, op: Joining)
    | StepCommit(id: Token)
    | StepRollback(id: Token)
    | StepClaimDue(req: DueRequest, at: int, tokens: map<Key, Token>)
    | StepGiveBackIdle(owner: Token, keep: set<Token>)
    | StepMarkUnsafe(ref: Ref)
    | StepRecordAttempt(ref: Ref, attempt: Attempt)
    | StepHeartbeat(owner: Token, at: int)
    | StepRetireOwner(owner: Token)
    | StepSweepOwners(deadFor: int, at: int)
    | StepSweepMarks

  predicate OnePerEntity(rows: Rows, keys: set<Key>) {
    forall k, other :: k in keys && other in keys && k != other && k in rows && other in rows ==> !SameEntity(rows, k, other)
  }

  /** A step the store may take: tokens are new, transactions open, claims claimable and one per entity. */
  predicate Legal(s: Store, step: Step) {
    match step
    case StepBegin(id, _) => id !in s.used
    case StepJoin(tx, op) =>
      (tx.Some? ==> tx.value in s.open) && DrawsNew(s.used, op)
    case StepCommit(id) => id in s.open
    case StepRollback(id) => id in s.open
    case StepClaimDue(req, at, tokens) =>
      && (forall k :: k in tokens ==> Claimable(s, req, at, k))
      && OnePerEntity(s.rows, tokens.Keys) && tokens.Values !! s.used && Injective(tokens)
    case _ => true
  }

  function Next(s: Store, step: Step): Store
    requires Legal(s, step)
  {
    match step
    case StepBegin(id, tenant) => Begin(s, id, tenant)
    case StepJoin(tx, op) => Join(s, tx, op).1
    case StepCommit(id) => Commit(s, id).1
    case StepRollback(id) => Close(s, id)
    case StepClaimDue(req, at, tokens) => ClaimDue(s, req, tokens)
    case StepGiveBackIdle(owner, keep) => GiveBackIdle(s, owner, keep)
    case StepMarkUnsafe(ref) => MarkUnsafe(s, ref).1
    case StepRecordAttempt(ref, attempt) => RecordAttempt(s, ref, attempt).1
    case StepHeartbeat(owner, at) => s.(beats := s.beats[owner := at])
    case StepRetireOwner(owner) => s.(beats := s.beats - {owner})
    case StepSweepOwners(deadFor, at) => SweepOwners(s, deadFor, at)
    case StepSweepMarks => SweepMarks(s)
  }
}
