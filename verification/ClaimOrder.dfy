/** What SelectClaims promises, said of the candidates' and the request's own fields. */
module ClaimOrder {
  import opened Bytes
  import opened ClaimSelection
  import opened ClaimLaws

  /** a is due before b, ties by id. */
  ghost predicate Sooner(a: Task, b: Task) {
    a.nextAttemptTime < b.nextAttemptTime || (a.nextAttemptTime == b.nextAttemptTime && Precedes(a.id, b.id))
  }

  /** a's tenant goes before b's on account of these two candidates: the earlier one, ties by tenant. */
  ghost predicate SoonerTenant(a: Task, b: Task) {
    a.nextAttemptTime < b.nextAttemptTime || (a.nextAttemptTime == b.nextAttemptTime && Precedes(a.tenant, b.tenant))
  }

  function InProgress(req: ClaimRequest, tenant: Text): int {
    if tenant in req.inProgress then req.inProgress[tenant] else 0
  }

  /** How many of the claims are the tenant's. */
  ghost function ClaimsOf(out: seq<Task>, tenant: Text): nat {
    |set i | 0 <= i < |out| && out[i].tenant == tenant|
  }

  /** By time, then tenant, then id. */
  ghost predicate InOrder(s: seq<Task>) {
    forall i, j :: 0 <= i < j < |s| ==>
      !SoonerTenant(s[j], s[i]) && (s[i].tenant == s[j].tenant ==> !Sooner(s[j], s[i]))
  }

  // ----- what a claim call promises -----

  /** One tenant's claims ascend by time and id. */
  ghost predicate TenantAscends(out: seq<Task>) {
    forall i, j :: 0 <= i < j < |out| && out[i].tenant == out[j].tenant ==> !Sooner(out[j], out[i])
  }

  /** A candidate sooner than a claim of its tenant has been claimed itself, or another of its entity no later. */
  ghost predicate NoneSkipped(cands: seq<Task>, out: seq<Task>) {
    forall c, o :: c in cands && o in out && c.tenant == o.tenant && Sooner(c, o) ==> EntityServed(out, c)
  }

  ghost predicate EntityServed(out: seq<Task>, c: Task) {
    exists o :: o in out && o.tenant == c.tenant && o.entity == c.entity && !Sooner(c, o)
  }

  /** The first claim is no later than any candidate of a tenant with quota left, ties by tenant. */
  ghost predicate EarliestFirst(cands: seq<Task>, req: ClaimRequest, out: seq<Task>) {
    forall c :: c in cands && InProgress(req, c.tenant) < req.perTenantLimit ==> out != [] && !SoonerTenant(c, out[0])
  }

  /** No more than the limit in all, nor than a tenant's limit counting its tasks in progress, nor than
      one of an entity. */
  ghost predicate WithinLimits(req: ClaimRequest, out: seq<Task>) {
    && |out| <= req.limit
    && (forall t :: ClaimsOf(out, t) == 0 || ClaimsOf(out, t) + InProgress(req, t) <= req.perTenantLimit)
    && forall i, j :: 0 <= i < j < |out| ==> (out[i].tenant, out[i].entity) != (out[j].tenant, out[j].entity)
  }

  /** With limit and quota to spare, every candidate's entity is claimed. */
  ghost predicate NothingLeft(cands: seq<Task>, req: ClaimRequest, out: seq<Task>) {
    forall c :: c in cands && |out| < req.limit && ClaimsOf(out, c.tenant) + InProgress(req, c.tenant) < req.perTenantLimit ==>
      EntityServed(out, c)
  }

  /** Of these claims the candidate's tenant has quota for another, and its entity has none. */
  ghost predicate Waits(cands: seq<Task>, req: ClaimRequest, out: seq<Task>, c: Task) {
    c in cands && ClaimsOf(out, c.tenant) + InProgress(req, c.tenant) < req.perTenantLimit && !EntityServed(out, c)
  }

  /** t has a candidate that puts it before u. */
  ghost predicate Leads(cands: seq<Task>, t: Text, u: Text) {
    t != u && exists a :: a in cands && a.tenant == t && forall d :: d in cands && d.tenant == u ==> SoonerTenant(a, d)
  }

  /** At every point, no tenant is more than one claim ahead of one that waits, and none is ahead of one
      that waits and whose earliest candidate puts it first. */
  ghost predicate TakesTurns(cands: seq<Task>, req: ClaimRequest, out: seq<Task>) {
    forall n, c, u :: 0 <= n <= |out| && Waits(cands, req, out[..n], c) ==>
      ClaimsOf(out[..n], u) <= ClaimsOf(out[..n], c.tenant) + (if Leads(cands, c.tenant, u) then 0 else 1)
  }

  ghost predicate KeepsPromises(cands: seq<Task>, req: ClaimRequest, out: seq<Task>) {
    && (forall o :: o in out ==> o in cands) && TenantAscends(out) && NoneSkipped(cands, out)
    && EarliestFirst(cands, req, out) && WithinLimits(req, out) && NothingLeft(cands, req, out) && TakesTurns(cands, req, out)
  }

  // ----- the order by fields -----

  lemma BeforeMeans(a: Task, b: Task)
    ensures Before(a, b) <==> SoonerTenant(a, b) || (a.nextAttemptTime == b.nextAttemptTime && a.tenant == b.tenant && Precedes(a.id, b.id))
    ensures a.tenant == b.tenant ==> (Before(a, b) <==> Sooner(a, b))
  {
    hide Precedes;
    LessMeans(a.tenant, b.tenant);
    LessMeans(a.id, b.id);
    CompareIsOrder(a.tenant, b.tenant);
  }

  lemma SortedInOrder(s: seq<Task>)
    requires Sorted(s)
    ensures InOrder(s)
  {
    hide Before, Precedes;
    forall i, j | 0 <= i < j < |s|
      ensures !SoonerTenant(s[j], s[i]) && (s[i].tenant == s[j].tenant ==> !Sooner(s[j], s[i]))
    {
      BeforeMeans(s[j], s[i]);
    }
  }

  lemma {:induction false} QueueSorted(s: seq<Task>, t: Text)
    requires Sorted(s)
    ensures Sorted(Queue(s, t))
  {
    hide Before;
    if s != [] {
      var n := |s| - 1;
      QueueSorted(s[..n], t);
      QueueMembers(s[..n], t);
      forall c <- Queue(s[..n], t) ensures !Before(s[n], c) {
        var k :| 0 <= k < n && s[..n][k] == c;
      }
    }
  }

  lemma {:induction false} FirstsSorted(q: seq<Task>)
    requires Sorted(q)
    ensures Sorted(Firsts(q))
  {
    hide Before;
    if q != [] {
      var n := |q| - 1;
      FirstsSorted(q[..n]);
      FirstsMembers(q[..n]);
      forall c <- Firsts(q[..n]) ensures !Before(q[n], c) {
        var k :| 0 <= k < n && q[..n][k] == c;
      }
    }
  }

  /** The first candidate of an entity is no later than any of it. */
  lemma FirstOfEntity(q: seq<Task>, c: Task) returns (f: Task)
    requires Sorted(q) && c in q
    ensures f in Firsts(q) && f.entity == c.entity && !Before(c, f)
  {
    hide Before;
    FirstsOnePerEntity(q);
    assert c.entity in Entities(Firsts(q));
    f :| f in Firsts(q) && f.entity == c.entity;
    var i :| 0 <= i < |q| && q[i] == f && f.entity !in Entities(q[..i]);
    var j :| 0 <= j < |q| && q[j] == c;
    NotBeforeItself(c);
    if j < i {
      assert false;
    }
  }

  lemma NotBeforeItself(c: Task)
    ensures !Before(c, c)
  {
    BeforeTransitive(c, c, c);
  }

  // ----- one tenant's claims -----

  /** The tenant's claims, the first so many of its picks. */
  lemma Share(s: seq<Task>, req: ClaimRequest, t: Text)
    requires Sorted(s)
    ensures var own := Queue(Selected(s, req), t);
      && Sorted(own) && own <= Picks(s, req, t) && Sorted(Firsts(Queue(s, t))) && Sorted(Queue(s, t))
      && own <= Firsts(Queue(s, t))
  {
    hide Before, Queue, Firsts, Selected;
    var out := Selected(s, req);
    assert out[..|out|] == out;
    ShareAt(s, req, |out|, t, t);
    QueueSorted(s, t);
    FirstsSorted(Queue(s, t));
  }

  lemma Ascends(s: seq<Task>, req: ClaimRequest)
    requires Sorted(s)
    ensures TenantAscends(Selected(s, req))
  {
    hide Before, Queue, Firsts, Selected, Sooner;
    var out := Selected(s, req);
    forall i, j | 0 <= i < j < |out| && out[i].tenant == out[j].tenant ensures !Sooner(out[j], out[i]) {
      var a, b := QueueKeepsOrder(out, i, j);
      Share(s, req, out[i].tenant);
      BeforeMeans(out[j], out[i]);
    }
  }

  lemma Served(s: seq<Task>, req: ClaimRequest, c: Task, o: Task)
    requires Sorted(s) && c in s && o in Selected(s, req) && c.tenant == o.tenant && Sooner(c, o)
    ensures EntityServed(Selected(s, req), c)
  {
    hide Before, Queue, Firsts, Selected, Sooner, Picks;
    var out, t := Selected(s, req), c.tenant;
    Share(s, req, t);
    QueueMembers(s, t);
    QueueMembers(out, t);
    var own, firsts := Queue(out, t), Firsts(Queue(s, t));
    var f := FirstOfEntity(Queue(s, t), c);
    FirstsMembers(Queue(s, t));
    var p :| 0 <= p < |firsts| && firsts[p] == f;
    var m :| 0 <= m < |own| && own[m] == o;
    assert firsts[m] == o;
    BeforeMeans(c, o);
    BeforeMeans(c, f);
    if p > m {
      BeforeTransitive(o, f, c);
      assert false;
    } else {
      assert own[p] == f;
    }
  }

  lemma OrderKept(s: seq<Task>, req: ClaimRequest)
    requires Sorted(s)
    ensures NoneSkipped(s, Selected(s, req))
  {
    hide Selected, Sooner, EntityServed, Sorted;
    forall c, o | c in s && o in Selected(s, req) && c.tenant == o.tenant && Sooner(c, o) ensures EntityServed(Selected(s, req), c) {
      Served(s, req, c, o);
    }
  }

  // ----- counts -----

  lemma {:induction false} CountIsQueue(out: seq<Task>, t: Text)
    ensures ClaimsOf(out, t) == |Queue(out, t)|
  {
    hide ClaimsOf;
    if out == [] {
      NoClaims(out, t);
    } else {
      CountIsQueue(out[..|out| - 1], t);
      CountSnoc(out, t);
    }
  }

  lemma NoClaims(out: seq<Task>, t: Text)
    requires out == []
    ensures ClaimsOf(out, t) == 0
  {
  }

  lemma CountSnoc(out: seq<Task>, t: Text)
    requires out != []
    ensures var n := |out| - 1;
      ClaimsOf(out, t) == ClaimsOf(out[..n], t) + (if out[n].tenant == t then 1 else 0)
  {
    var n := |out| - 1;
    var before := set i | 0 <= i < n && out[..n][i].tenant == t;
    var all := set i | 0 <= i < |out| && out[i].tenant == t;
    assert before == set i | 0 <= i < n && out[i].tenant == t;
    assert all == if out[n].tenant == t then before + {n} else before;
  }

  lemma Limits(s: seq<Task>, req: ClaimRequest)
    requires ValidRequest(req)
    ensures WithinLimits(req, Selected(s, req))
  {
    hide Selected, Queue, ClaimsOf;
    var out := Selected(s, req);
    forall t ensures ClaimsOf(out, t) == 0 || ClaimsOf(out, t) + InProgress(req, t) <= req.perTenantLimit {
      SelectedWithinBounds(s, req, t);
      CountIsQueue(out, t);
    }
    SelectedWithinBounds(s, req, []);
  }

  lemma Leaves(s: seq<Task>, req: ClaimRequest, c: Task)
    requires Sorted(s) && c in s
    requires |Selected(s, req)| < req.limit
    requires ClaimsOf(Selected(s, req), c.tenant) + InProgress(req, c.tenant) < req.perTenantLimit
    ensures EntityServed(Selected(s, req), c)
  {
    hide Before, Queue, Firsts, Selected, Sooner, ClaimsOf;
    var out, t := Selected(s, req), c.tenant;
    SelectedExhausts(s, req, t);
    CountIsQueue(out, t);
    QueueMembers(s, t);
    QueueMembers(out, t);
    Share(s, req, t);
    var f := FirstOfEntity(Queue(s, t), c);
    FirstsMembers(Queue(s, t));
    assert Queue(out, t) == Firsts(Queue(s, t));
    BeforeMeans(c, f);
  }

  lemma Exhausts(s: seq<Task>, req: ClaimRequest)
    requires Sorted(s)
    ensures NothingLeft(s, req, Selected(s, req))
  {
    hide Selected, EntityServed, Sorted, ClaimsOf;
    var out := Selected(s, req);
    forall c | c in s && |out| < req.limit && ClaimsOf(out, c.tenant) + InProgress(req, c.tenant) < req.perTenantLimit
      ensures EntityServed(out, c)
    {
      Leaves(s, req, c);
    }
  }

  // ----- whose turn is first -----

  /** Where a tenant's first candidate stands. */
  ghost predicate FirstAt(s: seq<Task>, t: Text, i: nat) {
    i < |s| && s[i].tenant == t && forall j :: 0 <= j < i ==> s[j].tenant != t
  }

  /** The tenants are in the order their first candidates stand. */
  lemma {:induction false} TenantsByFirst(s: seq<Task>, a: nat, b: nat) returns (i: nat, j: nat)
    requires a < b < |Tenants(s)|
    ensures i < j && FirstAt(s, Tenants(s)[a], i) && FirstAt(s, Tenants(s)[b], j)
  {
    var n := |s| - 1;
    var before := Tenants(s[..n]);
    if b < |before| {
      i, j := TenantsByFirst(s[..n], a, b);
    } else {
      i := FirstStands(s[..n], a);
      j := n;
      TenantsDistinct(s[..n]);
      forall k | 0 <= k < n ensures s[k].tenant != s[n].tenant {
        assert s[..n][k] in s[..n];
      }
    }
  }

  lemma {:induction false} FirstStands(s: seq<Task>, a: nat) returns (i: nat)
    requires a < |Tenants(s)|
    ensures FirstAt(s, Tenants(s)[a], i)
  {
    var n := |s| - 1;
    if a < |Tenants(s[..n])| {
      i := FirstStands(s[..n], a);
    } else {
      i := n;
      TenantsDistinct(s[..n]);
      forall k | 0 <= k < n ensures s[k].tenant != s[n].tenant {
        assert s[..n][k] in s[..n];
      }
    }
  }

  /** A tenant's first pick is its first candidate. */
  lemma {:induction false} FirstPick(s: seq<Task>, t: Text, i: nat)
    requires FirstAt(s, t, i)
    ensures Queue(s, t) != [] && Queue(s, t)[0] == s[i]
    decreases |s|
  {
    var n := |s| - 1;
    if i < n {
      FirstPick(s[..n], t, i);
    } else {
      TenantsDistinct(s[..n]);
      NoQueue(s[..n], t);
    }
  }

  lemma {:induction false} FirstOfFirsts(q: seq<Task>)
    requires q != []
    ensures Firsts(q) != [] && Firsts(q)[0] == q[0]
  {
    var n := |q| - 1;
    if n > 0 {
      FirstOfFirsts(q[..n]);
    } else {
      assert Firsts(q[..0]) == [] && Entities(q[..0]) == {};
    }
  }

  /** The first turn takes the first pick of the first list that has one. */
  lemma {:induction false} RoundHead(lists: seq<seq<Task>>, k: nat)
    requires k < |lists| && lists[k] != [] && forall i :: 0 <= i < k ==> lists[i] == []
    ensures Round(lists, 0) != [] && Round(lists, 0)[0] == lists[k][0]
  {
    var n := |lists| - 1;
    if k < n {
      RoundHead(lists[..n], k);
    } else {
      RoundEmpty(lists[..n], 0);
      assert forall l <- lists[..n] :: |l| <= 0;
    }
  }

  lemma FirstNonEmpty(lists: seq<seq<Task>>, m: nat) returns (k: nat)
    requires m < |lists| && lists[m] != []
    ensures k <= m && lists[k] != [] && forall i :: 0 <= i < k ==> lists[i] == []
  {
    k := 0;
    while lists[k] == []
      invariant k <= m && forall i :: 0 <= i < k ==> lists[i] == []
      decreases m - k
    {
      k := k + 1;
    }
  }

  lemma SelectedHead(s: seq<Task>, req: ClaimRequest, k: nat)
    requires req.limit >= 1 && k < |Tenants(s)|
    requires Picks(s, req, Tenants(s)[k]) != [] && forall i :: 0 <= i < k ==> Picks(s, req, Tenants(s)[i]) == []
    ensures Selected(s, req) != [] && Selected(s, req)[0] == Picks(s, req, Tenants(s)[k])[0]
  {
    hide Round, Rounds, Picks;
    var lists := AllPicks(s, req, Tenants(s));
    RoundHead(lists, k);
    RoundsStep(lists, 0);
    assert lists[..|lists|] == lists;
    PartOfRoundRobin(lists, 0, |lists|);
  }

  lemma EarliestClaimed(s: seq<Task>, req: ClaimRequest, c: Task)
    requires Sorted(s) && ValidRequest(req) && c in s && InProgress(req, c.tenant) < req.perTenantLimit
    ensures Selected(s, req) != [] && !SoonerTenant(c, Selected(s, req)[0])
  {
    hide Before, Queue, Firsts, Selected, Tenants;
    var tenants, lists := Tenants(s), AllPicks(s, req, Tenants(s));
    TenantsDistinct(s);
    assert c.tenant in tenants;
    var m :| 0 <= m < |tenants| && tenants[m] == c.tenant;
    var j := FirstStands(s, m);
    FirstPick(s, c.tenant, j);
    FirstOfFirsts(Queue(s, c.tenant));
    assert lists[m] != [];
    var k := FirstNonEmpty(lists, m);
    assert forall i :: 0 <= i < k ==> lists[i] == Picks(s, req, tenants[i]);
    SelectedHead(s, req, k);
    var i := FirstStands(s, k);
    FirstPick(s, tenants[k], i);
    FirstOfFirsts(Queue(s, tenants[k]));
    assert Selected(s, req)[0] == s[i];
    if k < m {
      var i', j' := TenantsByFirst(s, k, m);
      assert i' == i && j' == j;
    }
    var at :| 0 <= at < |s| && s[at] == c;
    assert at >= j;
    SortedInOrder(s);
    hide SoonerTenant;
    if at == i {
      NotSoonerItself(c);
    }
  }

  // ----- turns -----

  /** Of two tenants with claims to come, the one whose first candidate stands earlier is served first in a turn. */
  lemma EarlierIsServed(s: seq<Task>, req: ClaimRequest, n: nat, a: nat, b: nat)
    requires n <= |Selected(s, req)| && a < b < |Tenants(s)|
    ensures var out, t, u := Selected(s, req)[..n], Tenants(s)[a], Tenants(s)[b];
      Queue(out, t) == Picks(s, req, t) || |Queue(out, u)| <= |Queue(out, t)|
  {
    hide Round, Rounds, Queue, Firsts, Picks, OwnLists;
    var tenants, lists := Tenants(s), AllPicks(s, req, Tenants(s));
    PicksOwned(s, req);
    assert Selected(s, req)[..n] == RoundRobin(lists)[..n];
    var r, k := PrefixShape(lists, Longest(lists), n);
    RoundsShare(lists, tenants, r, a);
    RoundsShare(lists, tenants, r, b);
    RoundShare(lists, tenants, r, k, a);
    RoundShare(lists, tenants, r, k, b);
    QueueConcat(Rounds(lists, r), Round(lists[..k], r), tenants[a]);
    QueueConcat(Rounds(lists, r), Round(lists[..k], r), tenants[b]);
  }

  /** A tenant that leads another stands before it, where the other stands at all. */
  lemma LeaderStands(s: seq<Task>, t: Text, u: Text) returns (a: nat, b: nat)
    requires Sorted(s) && Leads(s, t, u) && u in Tenants(s)
    ensures a < b < |Tenants(s)| && Tenants(s)[a] == t && Tenants(s)[b] == u
  {
    hide Tenants, Sorted, Before, SoonerTenant;
    var c :| c in s && c.tenant == t && forall d :: d in s && d.tenant == u ==> SoonerTenant(c, d);
    TenantsDistinct(s);
    assert t in Tenants(s);
    a :| 0 <= a < |Tenants(s)| && Tenants(s)[a] == t;
    b :| 0 <= b < |Tenants(s)| && Tenants(s)[b] == u;
    if b < a {
      var j, i := TenantsByFirst(s, b, a);
      var p :| 0 <= p < |s| && s[p] == c;
      SortedInOrder(s);
      assert false;
    }
  }

  /** A tenant that waits has picks to come. */
  lemma WaitsForPicks(s: seq<Task>, req: ClaimRequest, n: nat, c: Task)
    requires Sorted(s) && n <= |Selected(s, req)| && Waits(s, req, Selected(s, req)[..n], c)
    ensures Queue(Selected(s, req)[..n], c.tenant) != Picks(s, req, c.tenant)
  {
    hide Before, Queue, Firsts, Selected, Sooner, ClaimsOf;
    var out, t := Selected(s, req)[..n], c.tenant;
    CountIsQueue(out, t);
    QueueMembers(s, t);
    QueueMembers(out, t);
    QueueSorted(s, t);
    var f := FirstOfEntity(Queue(s, t), c);
    FirstsMembers(Queue(s, t));
    BeforeMeans(c, f);
    if Queue(out, t) == Picks(s, req, t) {
      assert false;
    }
  }

  lemma Turns(s: seq<Task>, req: ClaimRequest)
    requires Sorted(s)
    ensures TakesTurns(s, req, Selected(s, req))
  {
    hide Selected, Sorted, Waits, Leads, ClaimsOf, Queue, Picks, Tenants;
    var all := Selected(s, req);
    forall n, c, u | 0 <= n <= |all| && Waits(s, req, all[..n], c)
      ensures ClaimsOf(all[..n], u) <= ClaimsOf(all[..n], c.tenant) + (if Leads(s, c.tenant, u) then 0 else 1)
    {
      var out := all[..n];
      WaitsForPicks(s, req, n, c);
      ShareAt(s, req, n, c.tenant, u);
      CountIsQueue(out, u);
      CountIsQueue(out, c.tenant);
      if Leads(s, c.tenant, u) {
        if u in Tenants(s) {
          var a, b := LeaderStands(s, c.tenant, u);
          EarlierIsServed(s, req, n, a, b);
        } else {
          NothingFor(s, req, n, u);
        }
      }
    }
  }

  lemma NothingFor(s: seq<Task>, req: ClaimRequest, n: nat, u: Text)
    requires n <= |Selected(s, req)| && u !in Tenants(s)
    ensures Queue(Selected(s, req)[..n], u) == []
  {
    hide Selected, Tenants;
    ShareAt(s, req, n, u, u);
    NoQueue(s, u);
  }

  lemma NotSoonerItself(c: Task)
    ensures !SoonerTenant(c, c)
  {
  }

  lemma Earliest(s: seq<Task>, req: ClaimRequest)
    requires Sorted(s) && ValidRequest(req)
    ensures EarliestFirst(s, req, Selected(s, req))
  {
    hide Selected, SoonerTenant, Sorted;
    forall c | c in s && InProgress(req, c.tenant) < req.perTenantLimit
      ensures Selected(s, req) != [] && !SoonerTenant(c, Selected(s, req)[0])
    {
      EarliestClaimed(s, req, c);
    }
  }

  /** The claims made of sorted candidates keep every promise. */
  lemma SelectedKeepsPromises(s: seq<Task>, req: ClaimRequest)
    requires Sorted(s) && ValidRequest(req)
    ensures KeepsPromises(s, req, Selected(s, req))
  {
    hide Selected, Sorted, TenantAscends, NoneSkipped, EarliestFirst, WithinLimits, NothingLeft, TakesTurns;
    forall o | o in Selected(s, req) ensures o in s {
      SelectedMembers(s, req, o);
    }
    Ascends(s, req);
    OrderKept(s, req);
    Earliest(s, req);
    Limits(s, req);
    Exhausts(s, req);
    Turns(s, req);
  }
}
