/** A ScheduledTaskStore in memory: the contract's methods, each against the machine. */
module ScheduledTasks {
  import opened Bytes
  import opened Wrappers
  import opened TaskStore
  import opened TaskStoreLaws
  import opened TaskStoreRuns
  import Selection = ClaimSelection
  import ClaimLaws
  import ClaimLoops
  import ClaimOrder
  import TaskStoreCalls

  class ScheduledTaskStore {
    var rows: Rows
    var marks: map<Token, Token>
    var beats: map<Token, int>
    var open: map<Token, Tx>
    var used: set<Token>
    var born: map<Token, Birth>
    var wrote: map<Key, nat>
    var now: nat
    var next: nat  // tokens from here on are new

    function State(): Store
      reads this
    {
      Store(rows, marks, beats, open, used, born, wrote, now)
    }

    ghost predicate Valid()
      reads this
    {
      Inv(State()) && forall t :: t in used ==> t.n < next
    }

    constructor ()
      ensures Valid() && State() == EMPTY
    {
      rows, marks, beats, open, used, born, wrote, now, next := map[], map[], map[], map[], {}, map[], map[], 0, 0;
      new;
      EmptyOk();
    }

    /** Begin: the transaction sees the rows as they are committed now. */
    method Begin(tenant: Text) returns (id: Token)
      requires Valid()
      modifies this
      ensures Valid() && Legal(old(State()), StepBegin(id, tenant))
      ensures State() == Next(old(State()), StepBegin(id, tenant))
    {
      hide Inv;
      id := Token(next);
      StepKeeps(State(), StepBegin(id, tenant));
      used, next := used + {id}, next + 1;
      open := open[id := Tx(tenant, now, rows, map[], {})];
    }

    method WriteRows(w: Writes)
      modifies this`rows, this`wrote, this`now
      ensures State() == Write(old(State()), w)
    {
      rows := Overlay(rows, w);
      now := now + 1;
      wrote := wrote + Stamped(w, now);
    }

    /** A joining method, in a transaction or applied at once. */
    method Join(tx: Option<Token>, op: Joining) returns (answer: Answer)
      requires Valid() && (tx.Some? ==> tx.value in open) && DrawsNew(used, op)
      requires forall t :: t in Drawn(op) ==> t.n < next
      modifies this
      ensures Valid() && (answer, State()) == TaskStore.Join(old(State()), tx, op)
    {
      hide Inv, Effect, Births, Injective;
      JoinKeeps(State(), tx, op);
      if !ValidJoining(op) {
        return Rejected;
      }
      if tx.Some? && open[tx.value].tenant != Tenant(op) {
        return TenantMismatch;
      }
      var effect := Effect(if tx.Some? then View(open[tx.value]) else rows, op);
      if effect.None? {
        return StaleClaim;
      }
      born := born + Births(op, tx);
      used := used + Drawn(op);
      if tx.None? {
        WriteRows(effect.value);
      } else {
        open := open[tx.value := Stage(open[tx.value], op, effect.value)];
      }
      return Done;
    }

    /** A new token for each key. */
    method DrawTokens<K(!new, ==)>(keys: set<K>) returns (tokens: map<K, Token>)
      modifies this`next
      ensures tokens.Keys == keys && Injective(tokens) && old(next) <= next
      ensures forall k :: k in keys ==> old(next) <= tokens[k].n < next
    {
      var left := keys;
      tokens := map[];
      while left != {}
        invariant left <= keys && tokens.Keys == keys - left && old(next) <= next
        invariant forall k :: k in tokens ==> old(next) <= tokens[k].n < next
        invariant Injective(tokens)
        decreases |left|
      {
        var k :| k in left;
        tokens := tokens[k := Token(next)];
        left := left - {k};
        next := next + 1;
      }
    }

    /** Arms each plan as a new life and removes the entity's other tasks; returns those it removed
        unasked, in the order of their ids. */
    method ReconcileForEntity(tx: Option<Token>, tenant: Text, entity: Text, arm: map<Text, Plan>, cancel: set<Text>)
      returns (answer: Answer, op: Joining, removed: seq<(Text, Row)>)
      requires Valid() && (tx.Some? ==> tx.value in open)
      modifies this
      ensures Valid() && DrawsNew(old(used), op)
      ensures op.Reconcile? && op == Reconcile(tenant, entity, arm, cancel, op.tokens)
      ensures (answer, State()) == TaskStore.Join(old(State()), tx, op)
      ensures answer != Done ==> removed == []
      ensures answer == Done ==>
        var view := if tx.Some? then View(old(open[tx.value])) else old(rows);
        && Ascending(removed)
        && forall r :: r in removed <==> InRows(view, tenant, entity, r) && r.0 !in arm && r.0 !in cancel
    {
      hide Inv, View;
      var view := if tx.Some? then View(open[tx.value]) else rows;
      var gone := set k | k in view && k.0 == tenant && view[k].entity == entity && k.1 !in arm && k.1 !in cancel :: k.1;
      var tokens := DrawTokens(arm.Keys);
      op := Reconcile(tenant, entity, arm, cancel, tokens);
      answer := Join(tx, op);
      removed := [];
      if answer == Done {
        removed := SortedById(view, tenant, gone);
      }
    }

    /** First committer wins. */
    method Commit(id: Token) returns (answer: Answer)
      requires Valid() && id in open
      modifies this
      ensures Valid() && (answer, State()) == TaskStore.Commit(old(State()), id)
    {
      hide Inv;
      CommitKeeps(State(), id);
      hide Conflicts;
      var tx := open[id];
      var conflicts := Conflicts(State(), tx);
      open := open - {id};
      if conflicts {
        return Conflict;
      }
      WriteRows(tx.staged);
      return Done;
    }

    method Rollback(id: Token)
      requires Valid() && id in open
      modifies this`open
      ensures Valid() && State() == Close(old(State()), id)
    {
      hide Inv;
      CloseKeeps(State(), id);
      open := open - {id};
    }

    /** Returns the owner's tasks but those under a kept claim, and counts them. */
    method GiveBackIdle(owner: Token, keep: set<Token>) returns (count: nat)
      requires Valid()
      modifies this
      ensures Valid() && State() == TaskStore.GiveBackIdle(old(State()), owner, keep)
      ensures count == |GivenBack(old(State()), owner, keep)|
    {
      hide Inv, Busy;
      GiveBackKeeps(State(), owner, keep);
      var keys := GivenBack(State(), owner, keep);
      count := |keys|;
      WriteRows(Released(rows, keys));
    }

    method MarkUnsafe(ref: Ref) returns (answer: Answer)
      requires Valid()
      modifies this`marks
      ensures Valid() && (answer, State()) == TaskStore.MarkUnsafe(old(State()), ref)
    {
      hide Inv, Busy;
      MarkKeeps(State(), ref);
      if Busy(State(), ref.Key()) {
        return TaskBusy;
      }
      if !Held(rows, ref) {
        return StaleClaim;
      }
      if ref.armToken in marks && marks[ref.armToken] != ref.claimToken {
        return MarkedByAnotherClaim;
      }
      marks := marks[ref.armToken := ref.claimToken];
      return Done;
    }

    method RecordAttempt(ref: Ref, a: Attempt) returns (answer: Answer)
      requires Valid()
      modifies this
      ensures Valid() && (answer, State()) == TaskStore.RecordAttempt(old(State()), ref, a)
    {
      hide Inv, ValidErrorText, Busy, Recorded;
      RecordKeeps(State(), ref, a);
      if !ValidErrorText(a.error) {
        return Rejected;
      }
      if Busy(State(), ref.Key()) {
        return TaskBusy;
      }
      if !Held(rows, ref) {
        return StaleClaim;
      }
      var r := rows[ref.Key()];
      if a.clearOwnMark && ref.armToken in marks && marks[ref.armToken] == ref.claimToken {
        marks := marks - {ref.armToken};
      }
      WriteRows(map[ref.Key() := Some(Recorded(r, a))]);
      return Done;
    }

    /** The candidates of a claim call, one for each claimable row. */
    method Candidates(due: DueRequest, at: int) returns (cands: array<Selection.Task>)
      ensures fresh(cands) && AreCandidates(State(), due, at, cands[..])
    {
      hide Claimable, KeysOf, CandidatesOf;
      var all := ClaimableKeys(State(), due, at);
      var left := all;
      var s: seq<Selection.Task> := [];
      NoCandidates(rows);
      while left != {}
        invariant left <= all && KeysOf(s) == all - left && CandidatesOf(rows, s)
        decreases |left|
      {
        var k :| k in left;
        CandidateAdded(rows, s, k);
        s := s + [Candidate(rows, k)];
        left := left - {k};
      }
      cands := new Selection.Task[|s|](i requires 0 <= i < |s| => s[i]);
      assert cands[..] == s;
    }

    /** Claims what SelectClaims takes of the claimable tasks, each under a new token, and says which were
        marked unsafe as they were claimed and which were taken from a lost owner. */
    method ClaimDue(due: DueRequest, at: int, req: Selection.ClaimRequest)
      returns (answer: Answer, claimed: seq<Selection.Task>, tokens: map<Key, Token>,
               unsafeMarked: set<Key>, fromLostOwner: set<Key>, ghost offered: seq<Selection.Task>, ghost cands: seq<Selection.Task>)
      requires Valid()
      modifies this
      ensures Valid() && (answer == Done || answer == Rejected)
      ensures answer == Rejected <==>
        req.limit < 1 || req.perTenantLimit < 1 || exists t :: t in req.inProgress && req.inProgress[t] < 0
      ensures answer.Rejected? ==> State() == old(State()) && claimed == []
      ensures answer.Done? ==>
        && AreCandidates(old(State()), due, at, offered)
        && Selection.Sorted(cands) && multiset(cands) == multiset(offered) && claimed == Selection.Selected(cands, req)
        && ClaimOrder.KeepsPromises(cands, req, claimed) && ClaimsDueTasks(old(State()), due, at, req, claimed)
        && tokens.Keys == KeysOf(claimed)
        && Legal(old(State()), StepClaimDue(due, at, tokens))
        && State() == TaskStore.ClaimDue(old(State()), due, tokens)
        && unsafeMarked == (set k | k in tokens && old(rows)[k].armToken in old(marks))
        && fromLostOwner == (set k | k in tokens && old(rows)[k].status.Running?)
    {
      hide Inv, Selection.Sorted, Selection.Selected, AreCandidates, Claimable, KeysOf, OnePerEntity, TaskStore.Claims,
        ClaimOrder.KeepsPromises, ClaimsDueTasks;
      claimed, tokens, offered, cands := [], map[], [], [];
      unsafeMarked, fromLostOwner := {}, {};
      if !Selection.ValidRequest(req) {
        answer := Rejected;
        return;
      }
      ghost var before := State();
      var found := Candidates(due, at);
      offered := found[..];
      claimed := ClaimLoops.SelectClaims(found, req);
      cands := found[..];
      DueTasksClaimed(before, due, at, offered, cands, req, claimed);
      tokens := DrawTokens(KeysOf(claimed));
      ClaimStepLegal(before, due, at, offered, cands, req, tokens);
      hide Legal;
      unsafeMarked := set k | k in tokens && rows[k].armToken in marks;
      fromLostOwner := set k | k in tokens && rows[k].status.Running?;
      used := used + tokens.Values;
      WriteRows(TaskStore.Claims(rows, tokens, due.owner));
      answer := Done;
    }

    method Heartbeat(owner: Token, at: int)
      requires Valid()
      modifies this`beats
      ensures Valid() && State() == Next(old(State()), StepHeartbeat(owner, at))
    {
      hide Inv;
      StepKeeps(State(), StepHeartbeat(owner, at));
      beats := beats[owner := at];
    }

    method RetireOwner(owner: Token)
      requires Valid()
      modifies this`beats
      ensures Valid() && State() == Next(old(State()), StepRetireOwner(owner))
    {
      hide Inv;
      StepKeeps(State(), StepRetireOwner(owner));
      beats := beats - {owner};
    }

    method SweepOwners(deadFor: int, at: int)
      requires Valid()
      modifies this`beats
      ensures Valid() && State() == Next(old(State()), StepSweepOwners(deadFor, at))
    {
      hide Inv;
      StepKeeps(State(), StepSweepOwners(deadFor, at));
      beats := map o | o in beats && (at - beats[o] <= deadFor || Referenced(State(), o)) :: beats[o];
    }

    method SweepMarks()
      requires Valid()
      modifies this`marks
      ensures Valid() && State() == Next(old(State()), StepSweepMarks)
    {
      hide Inv;
      StepKeeps(State(), StepSweepMarks);
      marks := map a | a in marks && Current(rows, a) :: marks[a];
    }
  }

  predicate InRows(rows: Rows, tenant: Text, entity: Text, r: (Text, Row)) {
    (tenant, r.0) in rows && rows[(tenant, r.0)] == r.1 && r.1.entity == entity
  }

  predicate Ascending(s: seq<(Text, Row)>) {
    forall i, j :: 0 <= i < j < |s| ==> Less(s[i].0, s[j].0)
  }

  /** The least of some ids. */
  method LeastId(ids: set<Text>) returns (least: Text)
    requires ids != {}
    ensures least in ids && forall id :: id in ids && id != least ==> Less(least, id)
  {
    least :| least in ids;
    var left := ids - {least};
    while left != {}
      invariant left <= ids && least in ids && least !in left
      invariant forall id :: id in ids && id !in left && id != least ==> Less(least, id)
      decreases |left|
    {
      var id :| id in left;
      left := left - {id};
      CompareIsOrder(id, least);
      if Less(id, least) {
        forall other | other in ids && other !in left && other != id ensures Less(id, other) {
          if other != least {
            LessTransitive(id, least, other);
          }
        }
        least := id;
      }
    }
  }

  /** The tenant's rows of these ids, sorted by id. */
  method SortedById(rows: Rows, tenant: Text, ids: set<Text>) returns (s: seq<(Text, Row)>)
    requires forall id :: id in ids ==> (tenant, id) in rows
    ensures Ascending(s)
    ensures forall r :: r in s <==> r.0 in ids && rows[(tenant, r.0)] == r.1
  {
    s := [];
    var left := ids;
    while left != {}
      invariant left <= ids && Ascending(s)
      invariant forall r :: r in s <==> r.0 in ids - left && rows[(tenant, r.0)] == r.1
      invariant forall i, id :: 0 <= i < |s| && id in left ==> Less(s[i].0, id)
      decreases |left|
    {
      var id := LeastId(left);
      left := left - {id};
      s := s + [(id, rows[(tenant, id)])];
    }
  }

  function KeysOf(claimed: seq<Selection.Task>): set<Key> {
    set c | c in claimed :: (c.tenant, c.id)
  }

  /** Candidates as their rows give them, no row twice. */
  ghost predicate CandidatesOf(rows: Rows, s: seq<Selection.Task>) {
    && Selection.UniqueIds(s)
    && forall c :: c in s ==> (c.tenant, c.id) in rows && c == Candidate(rows, (c.tenant, c.id))
  }

  lemma NoCandidates(rows: Rows)
    ensures CandidatesOf(rows, []) && KeysOf([]) == {}
  {
  }

  lemma CandidateAdded(rows: Rows, s: seq<Selection.Task>, k: Key)
    requires CandidatesOf(rows, s) && k in rows && k !in KeysOf(s)
    ensures var s' := s + [Candidate(rows, k)];
      CandidatesOf(rows, s') && KeysOf(s') == KeysOf(s) + {k}
  {
    forall c | c in s ensures (c.tenant, c.id) != k {
      assert (c.tenant, c.id) in KeysOf(s);
    }
    KeysOfSnoc(s, Candidate(rows, k));
  }

  lemma KeysOfSnoc(claimed: seq<Selection.Task>, c: Selection.Task)
    ensures KeysOf(claimed + [c]) == KeysOf(claimed) + {(c.tenant, c.id)}
  {
    assert c in claimed + [c];
    forall k ensures k in KeysOf(claimed + [c]) <==> k in KeysOf(claimed) || k == (c.tenant, c.id) {
      if k in KeysOf(claimed) {
        var d :| d in claimed && (d.tenant, d.id) == k;
        assert d in claimed + [c];
      }
    }
  }

  /** What SelectClaims takes of the candidates, the machine may claim. */
  lemma ClaimsLegal(s: Store, due: DueRequest, at: int, offered: seq<Selection.Task>, cands: seq<Selection.Task>,
                    req: Selection.ClaimRequest)
    requires Selection.ValidRequest(req) && AreCandidates(s, due, at, offered) && multiset(cands) == multiset(offered)
    ensures var keys := KeysOf(Selection.Selected(cands, req));
      && (forall k :: k in keys ==> Claimable(s, due, at, k))
      && OnePerEntity(s.rows, keys)
  {
    hide Selection.Selected, Claimable;
    var claimed := Selection.Selected(cands, req);
    forall c | c in claimed
      ensures (c.tenant, c.id) in s.rows && c == Candidate(s.rows, (c.tenant, c.id))
      ensures Claimable(s, due, at, (c.tenant, c.id))
    {
      ClaimLaws.SelectedMembers(cands, req, c);
      assert c in multiset(cands);
      assert c in offered && (c.tenant, c.id) in KeysOf(offered);
    }
    forall k, other | k in KeysOf(claimed) && other in KeysOf(claimed) && k != other && k in s.rows && other in s.rows
      ensures !SameEntity(s.rows, k, other)
    {
      var i :| 0 <= i < |claimed| && (claimed[i].tenant, claimed[i].id) == k;
      var j :| 0 <= j < |claimed| && (claimed[j].tenant, claimed[j].id) == other;
      ClaimLaws.SelectedWithinBounds(cands, req, k.0);
      assert (if i < j then (claimed[i].tenant, claimed[i].entity) != (claimed[j].tenant, claimed[j].entity)
              else (claimed[j].tenant, claimed[j].entity) != (claimed[i].tenant, claimed[i].entity));
    }
  }

  /** Every claimed task could be claimed, in the order and within the limits promised; and where limit and
      quota have room left, every task that could be claimed has one of its entity claimed, no later than it. */
  ghost predicate ClaimsDueTasks(s: Store, due: DueRequest, at: int, req: Selection.ClaimRequest, claimed: seq<Selection.Task>) {
    && (forall c :: c in claimed ==>
          && TaskStoreCalls.MayBeClaimed(s, due, at, (c.tenant, c.id))
          && c.entity == s.rows[(c.tenant, c.id)].entity && c.nextAttemptTime == s.rows[(c.tenant, c.id)].nextAttemptTime)
    && ClaimOrder.TenantAscends(claimed) && ClaimOrder.WithinLimits(req, claimed)
    && (forall k :: (TaskStoreCalls.MayBeClaimed(s, due, at, k) && |claimed| < req.limit
                     && ClaimOrder.ClaimsOf(claimed, k.0) + ClaimOrder.InProgress(req, k.0) < req.perTenantLimit) ==>
          ClaimOrder.EntityServed(claimed, Candidate(s.rows, k)))
    && (forall k :: TaskStoreCalls.MayBeClaimed(s, due, at, k) && ClaimOrder.InProgress(req, k.0) < req.perTenantLimit ==>
          claimed != [] && !ClaimOrder.SoonerTenant(Candidate(s.rows, k), claimed[0]))
    && (forall k, c :: (TaskStoreCalls.MayBeClaimed(s, due, at, k) && c in claimed && c.tenant == k.0
                        && ClaimOrder.Sooner(Candidate(s.rows, k), c)) ==> ClaimOrder.EntityServed(claimed, Candidate(s.rows, k)))
  }

  lemma DueTasksClaimed(s: Store, due: DueRequest, at: int, offered: seq<Selection.Task>, cands: seq<Selection.Task>,
                        req: Selection.ClaimRequest, claimed: seq<Selection.Task>)
    requires AreCandidates(s, due, at, offered) && multiset(cands) == multiset(offered)
    requires ClaimOrder.KeepsPromises(cands, req, claimed)
    ensures ClaimsDueTasks(s, due, at, req, claimed)
  {
    assert forall k :: TaskStoreCalls.MayBeClaimed(s, due, at, k) ==> k in s.rows;
    hide Claimable, TaskStoreCalls.MayBeClaimed, ClaimOrder.Sooner, ClaimOrder.SoonerTenant, ClaimOrder.EntityServed,
      ClaimOrder.ClaimsOf, ClaimOrder.TenantAscends, ClaimOrder.WithinLimits;
    forall c | c in claimed
      ensures (c.tenant, c.id) in s.rows && c == Candidate(s.rows, (c.tenant, c.id))
      ensures TaskStoreCalls.MayBeClaimed(s, due, at, (c.tenant, c.id))
    {
      assert c in multiset(cands) && c in offered && (c.tenant, c.id) in KeysOf(offered);
      TaskStoreCalls.ClaimableMeans(s, due, at, (c.tenant, c.id));
    }
    forall k | TaskStoreCalls.MayBeClaimed(s, due, at, k) ensures k in s.rows && Candidate(s.rows, k) in cands {
      TaskStoreCalls.ClaimableMeans(s, due, at, k);
      assert k in KeysOf(offered);
      assert Candidate(s.rows, k) in multiset(offered);
    }
  }

  lemma ClaimStepLegal(s: Store, due: DueRequest, at: int, offered: seq<Selection.Task>, cands: seq<Selection.Task>,
                       req: Selection.ClaimRequest, tokens: map<Key, Token>)
    requires Inv(s) && Selection.ValidRequest(req)
    requires AreCandidates(s, due, at, offered) && multiset(cands) == multiset(offered)
    requires tokens.Keys == KeysOf(Selection.Selected(cands, req)) && tokens.Values !! s.used && Injective(tokens)
    ensures Legal(s, StepClaimDue(due, at, tokens)) && tokens.Keys <= s.rows.Keys
    ensures Inv(TaskStore.ClaimDue(s, due, tokens))
  {
    ClaimsLegal(s, due, at, offered, cands, req);
    hide Selection.Selected, KeysOf, AreCandidates, Inv, Busy, Lost, Moves;
    forall k | k in tokens ensures Claimable(s, due, at, k) {
      assert k in KeysOf(Selection.Selected(cands, req));
    }
    ClaimKeeps(s, due, at, tokens);
  }

  function Candidate(rows: Rows, k: Key): Selection.Task
    requires k in rows
  {
    Selection.Task(k.1, k.0, rows[k].entity, rows[k].nextAttemptTime)
  }

  function ClaimableKeys(s: Store, due: DueRequest, at: int): set<Key> {
    set k | k in s.rows && Claimable(s, due, at, k)
  }

  /** One candidate for each claimable row, and nothing else. */
  ghost predicate AreCandidates(s: Store, due: DueRequest, at: int, cands: seq<Selection.Task>) {
    CandidatesOf(s.rows, cands) && KeysOf(cands) == ClaimableKeys(s, due, at)
  }
}
