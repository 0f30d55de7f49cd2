/** The bounded candidate set the ClaimDue contract lets a backend read, and the theorem
    that SelectClaims chooses from it exactly what it would from the whole backlog. */
module ClaimPruning {
  import opened Bytes
  import opened ClaimSelection
  import opened ClaimLaws

  /** What the backend reads of one tenant: the first candidate of each of the
      min(quota, limit) entities whose first candidate comes earliest. */
  function Offered(s: seq<Task>, req: ClaimRequest, tenant: Text): seq<Task> {
    var quota := Quota(req, tenant);
    Take(Firsts(Queue(s, tenant)), if quota < req.limit then quota else req.limit)
  }

  function Keep(s: seq<Task>, kept: set<Task>): seq<Task> {
    if s == [] then []
    else
      var n := |s| - 1;
      Keep(s[..n], kept) + (if s[n] in kept then [s[n]] else [])
  }

  function OfferedSet(s: seq<Task>, req: ClaimRequest): set<Task> {
    set c <- s | c in Offered(s, req, c.tenant)
  }

  function Pruned(s: seq<Task>, req: ClaimRequest): seq<Task> {
    Keep(s, OfferedSet(s, req))
  }

  // ----- a tenant's queue after pruning -----

  lemma {:induction false} KeepMembers(s: seq<Task>, kept: set<Task>)
    ensures forall c :: c in Keep(s, kept) <==> c in s && c in kept
  {
    if s != [] {
      var n := |s| - 1;
      KeepMembers(s[..n], kept);
      assert s == s[..n] + [s[n]];
    }
  }

  lemma {:induction false} KeepAgrees(s: seq<Task>, k1: set<Task>, k2: set<Task>)
    requires forall c <- s :: c in k1 <==> c in k2
    ensures Keep(s, k1) == Keep(s, k2)
  {
    if s != [] {
      KeepAgrees(s[..|s| - 1], k1, k2);
    }
  }

  lemma Snocs(s: seq<Task>, c: Task, t: Text, kept: set<Task>)
    ensures Queue(s + [c], t) == Queue(s, t) + (if c.tenant == t then [c] else [])
    ensures Keep(s + [c], kept) == Keep(s, kept) + (if c in kept then [c] else [])
    ensures Firsts(s + [c]) == Firsts(s) + (if c.entity in Entities(s) then [] else [c])
    ensures Tenants(s + [c]) == Tenants(s) + (if c.tenant in Tenants(s) then [] else [c.tenant])
  {
    assert (s + [c])[..|s|] == s;
  }

  ghost predicate QueueKeepsKept(s: seq<Task>, kept: set<Task>, t: Text) {
    Queue(Keep(s, kept), t) == Keep(Queue(s, t), kept)
  }

  lemma {:induction false} QueueKeep(s: seq<Task>, kept: set<Task>, t: Text)
    ensures QueueKeepsKept(s, kept, t)
  {
    if s != [] {
      hide QueueKeepsKept;
      var n := |s| - 1;
      QueueKeep(s[..n], kept, t);
      QueueKeepSnoc(s[..n], s[n], kept, t);
      assert s == s[..n] + [s[n]];
    }
  }

  lemma QueueKeepSnoc(s: seq<Task>, c: Task, kept: set<Task>, t: Text)
    requires QueueKeepsKept(s, kept, t)
    ensures QueueKeepsKept(s + [c], kept, t)
  {
    hide Queue, Keep;
    Snocs(s, c, t, kept);
    Snocs(Keep(s, kept), c, t, kept);
    Snocs(Queue(s, t), c, t, kept);
    assert Keep(s, kept) + [] == Keep(s, kept) && Queue(s, t) + [] == Queue(s, t);
    assert Keep(Queue(s, t), kept) + [] == Keep(Queue(s, t), kept);
  }

  /** Keeping what is among the first n Firsts leaves exactly those. */
  ghost predicate KeptAreTaken(q: seq<Task>, n: int) {
    Keep(q, set c <- Take(Firsts(q), n)) == Take(Firsts(q), n)
  }

  lemma {:induction false} KeepTaken(q: seq<Task>, n: int)
    requires forall i, j :: 0 <= i < j < |q| ==> q[i] != q[j]
    ensures KeptAreTaken(q, n)
  {
    if q != [] {
      hide KeptAreTaken;
      var m := |q| - 1;
      KeepTaken(q[..m], n);
      KeepTakenSnoc(q[..m], q[m], n);
      assert q == q[..m] + [q[m]];
    }
  }

  lemma KeepTakenSnoc(q: seq<Task>, x: Task, n: int)
    requires KeptAreTaken(q, n) && x !in q
    ensures KeptAreTaken(q + [x], n)
  {
    hide Keep, Firsts, Take;
    var firsts, firsts' := Firsts(q), Firsts(q + [x]);
    var kept' := set c <- Take(firsts', n);
    FirstsMembers(q);
    TakeMembers(firsts, n);
    TakeSnoc(firsts, x, n);
    assert firsts + [] == firsts;
    Snocs(q, x, x.tenant, kept');
    KeepAgrees(q, kept', set c <- Take(firsts, n));
    assert Take(firsts, n) + [] == Take(firsts, n);
  }

  lemma TakeMembers<T>(s: seq<T>, n: int)
    ensures forall x <- Take(s, n) :: x in s
  {
  }

  lemma TakeSnoc<T>(s: seq<T>, x: T, n: int)
    ensures Take(s + [x], n) == Take(s, n) + (if |s| < n then [x] else [])
  {
  }

  lemma {:induction false} FirstsOfOnePerEntity(q: seq<Task>)
    requires OnePerEntity(q)
    ensures Firsts(q) == q
  {
    if q != [] {
      var n := |q| - 1;
      FirstsOfOnePerEntity(q[..n]);
      assert q == q[..n] + [q[n]];
    }
  }

  lemma {:induction false} QueueUnique(s: seq<Task>, t: Text)
    requires UniqueIds(s)
    ensures forall i, j :: 0 <= i < j < |Queue(s, t)| ==> Queue(s, t)[i] != Queue(s, t)[j]
  {
    if s != [] {
      var n := |s| - 1;
      QueueUnique(s[..n], t);
      QueueMembers(s[..n], t);
      assert forall c <- s[..n] :: c != s[n];
    }
  }

  /** Pruning leaves each tenant exactly its offered candidates, in order. */
  lemma PrunedQueue(s: seq<Task>, req: ClaimRequest, t: Text)
    requires UniqueIds(s)
    ensures Queue(Pruned(s, req), t) == Offered(s, req, t)
  {
    hide Keep, Queue, Firsts, UniqueIds;
    var q := Queue(s, t);
    QueueKeep(s, OfferedSet(s, req), t);
    QueueMembers(s, t);
    KeepAgrees(q, OfferedSet(s, req), set c <- Offered(s, req, t));
    QueueUnique(s, t);
    KeepTaken(q, if Quota(req, t) < req.limit then Quota(req, t) else req.limit);
  }

  lemma PrunedPicks(s: seq<Task>, req: ClaimRequest, t: Text)
    requires UniqueIds(s)
    ensures Picks(Pruned(s, req), req, t) == Take(Picks(s, req, t), req.limit)
  {
    hide Queue, Firsts, Pruned, UniqueIds;
    PrunedQueue(s, req, t);
    FirstsOnePerEntity(Queue(s, t));
    FirstsOfOnePerEntity(Offered(s, req, t));
  }

  // ----- the order of the tenants -----

  function Served(tenants: seq<Text>, req: ClaimRequest): seq<Text> {
    if tenants == [] then []
    else
      var n := |tenants| - 1;
      Served(tenants[..n], req) + (if Quota(req, tenants[n]) > 0 then [tenants[n]] else [])
  }

  lemma {:induction false} ServedMembers(tenants: seq<Text>, req: ClaimRequest)
    ensures forall t :: t in Served(tenants, req) <==> t in tenants && Quota(req, t) > 0
  {
    if tenants != [] {
      var n := |tenants| - 1;
      ServedMembers(tenants[..n], req);
      assert tenants == tenants[..n] + [tenants[n]];
    }
  }

  lemma {:induction false} FirstsGrow(a: seq<Task>, b: seq<Task>)
    ensures Firsts(a) <= Firsts(a + b)
    decreases |b|
  {
    if b == [] {
      assert a + b == a;
    } else {
      var n := |b| - 1;
      FirstsGrow(a, b[..n]);
      assert (a + b)[..|a + b| - 1] == a + b[..n];
    }
  }

  /** The first candidate of a tenant that may claim at all is offered. */
  lemma FirstIsOffered(before: seq<Task>, c: Task, after: seq<Task>, req: ClaimRequest)
    requires req.limit >= 1 && c.tenant !in Tenants(before)
    ensures c in OfferedSet(before + ([c] + after), req) <==> Quota(req, c.tenant) > 0
  {
    hide Queue, Tenants;
    var s := before + ([c] + after);
    NoQueue(before, c.tenant);
    QueueConcat(before, [c] + after, c.tenant);
    QueueConcat([c], after, c.tenant);
    QueueOne(c, c.tenant);
    assert Queue(s, c.tenant) == [c] + Queue(after, c.tenant);
    FirstsGrow([c], Queue(after, c.tenant));
    assert [c][..0] == [] && Firsts([]) == [] && Entities([]) == {};
    assert Firsts([c]) == [c];
    assert s[|before|] == c;
  }

  lemma NotOffered(s: seq<Task>, req: ClaimRequest, c: Task)
    ensures Quota(req, c.tenant) <= 0 ==> c !in OfferedSet(s, req)
  {
  }

  lemma ServedSnoc(tenants: seq<Text>, t: Text, req: ClaimRequest)
    ensures Served(tenants + [t], req) == Served(tenants, req) + (if Quota(req, t) > 0 then [t] else [])
  {
    assert (tenants + [t])[..|tenants|] == tenants;
  }

  /** The tenants served, in the order of their first candidates. */
  ghost predicate SameOrder(s: seq<Task>, kept: set<Task>, req: ClaimRequest) {
    Tenants(Keep(s, kept)) == Served(Tenants(s), req)
  }

  lemma SameOrderSnoc(s: seq<Task>, c: Task, kept: set<Task>, req: ClaimRequest)
    requires SameOrder(s, kept, req)
    requires Quota(req, c.tenant) <= 0 ==> c !in kept
    requires Quota(req, c.tenant) > 0 && c.tenant !in Tenants(s) ==> c in kept
    ensures SameOrder(s + [c], kept, req)
  {
    hide Tenants, Keep, Served;
    var tenants, keep := Tenants(s), Keep(s, kept);
    Snocs(s, c, c.tenant, kept);
    Snocs(keep, c, c.tenant, kept);
    ServedSnoc(tenants, c.tenant, req);
    ServedMembers(tenants, req);
    assert tenants + [] == tenants && keep + [] == keep && Tenants(keep) + [] == Tenants(keep);
  }

  lemma {:induction false} PrunedTenants(a: seq<Task>, b: seq<Task>, req: ClaimRequest)
    requires req.limit >= 1
    ensures SameOrder(a, OfferedSet(a + b, req), req)
  {
    if a != [] {
      hide OfferedSet, SameOrder, Tenants;
      var n := |a| - 1;
      var before, c := a[..n], a[n];
      assert a == before + [c] && a + b == before + ([c] + b);
      PrunedTenants(before, [c] + b, req);
      NotOffered(a + b, req, c);
      if c.tenant !in Tenants(before) {
        FirstIsOffered(before, c, b, req);
      }
      SameOrderSnoc(before, c, OfferedSet(a + b, req), req);
    }
  }

  // ----- the turns -----

  lemma RoundAdd(s: seq<Task>, req: ClaimRequest, tenants: seq<Text>, t: Text, r: nat)
    ensures var picks := Picks(s, req, t);
      Round(AllPicks(s, req, tenants + [t]), r) ==
        Round(AllPicks(s, req, tenants), r) + (if r < |picks| then [picks[r]] else [])
  {
    hide Picks;
    var lists := AllPicks(s, req, tenants);
    assert AllPicks(s, req, tenants + [t]) == lists + [Picks(s, req, t)];
    assert (lists + [Picks(s, req, t)])[..|lists|] == lists;
  }

  lemma {:induction false} PrunedRound(s: seq<Task>, p: seq<Task>, req: ClaimRequest, tenants: seq<Text>, r: nat)
    requires forall t :: Picks(p, req, t) == Take(Picks(s, req, t), req.limit)
    requires r < req.limit
    ensures Round(AllPicks(p, req, Served(tenants, req)), r) == Round(AllPicks(s, req, tenants), r)
    decreases |tenants|
  {
    hide Picks, AllPicks, Round;
    if tenants != [] {
      var n := |tenants| - 1;
      var t, served := tenants[n], Served(tenants[..n], req);
      PrunedRound(s, p, req, tenants[..n], r);
      assert tenants == tenants[..n] + [t];
      RoundAdd(s, req, tenants[..n], t, r);
      RoundAdd(p, req, served, t, r);
      NoPicks(s, req, t);
      assert served + [] == served;
      assert Served(tenants, req) == if Quota(req, t) > 0 then served + [t] else served;
      assert Round(AllPicks(s, req, tenants[..n]), r) + [] == Round(AllPicks(s, req, tenants[..n]), r);
    } else {
      NoTenants(s, p, req);
      assert Served(tenants, req) == [];
      assert AllPicks(p, req, Served(tenants, req)) == AllPicks(s, req, tenants);
    }
  }

  lemma NoTenants(s: seq<Task>, p: seq<Task>, req: ClaimRequest)
    ensures AllPicks(p, req, []) == AllPicks(s, req, [])
  {
  }

  lemma NoPicks(s: seq<Task>, req: ClaimRequest, t: Text)
    ensures Quota(req, t) <= 0 ==> Picks(s, req, t) == []
  {
  }

  lemma {:induction false} PrunedRounds(s: seq<Task>, p: seq<Task>, req: ClaimRequest, tenants: seq<Text>, r: nat)
    requires forall t :: Picks(p, req, t) == Take(Picks(s, req, t), req.limit)
    requires r <= req.limit
    ensures Rounds(AllPicks(p, req, Served(tenants, req)), r) == Rounds(AllPicks(s, req, tenants), r)
    decreases r
  {
    hide Picks, AllPicks, Served;
    if r > 0 {
      var a, b := AllPicks(p, req, Served(tenants, req)), AllPicks(s, req, tenants);
      PrunedRounds(s, p, req, tenants, r - 1);
      PrunedRound(s, p, req, tenants, r - 1);
      assert Rounds(a, r) == Rounds(a, r - 1) + Round(a, r - 1);
      assert Rounds(b, r) == Rounds(b, r - 1) + Round(b, r - 1);
    }
  }

  lemma TurnNotEmpty(lists: seq<seq<Task>>, r: nat)
    requires r < Longest(lists)
    ensures |Round(lists, r)| >= 1
  {
    RoundEmpty(lists, r);
    if forall l <- lists :: |l| <= r {
      LongestAtMost(lists, r);
    }
  }

  lemma {:induction false} RoundsLong(lists: seq<seq<Task>>, r: nat)
    requires r <= Longest(lists)
    ensures |Rounds(lists, r)| >= r
    decreases r
  {
    if r > 0 {
      hide Round, Longest;
      RoundsLong(lists, r - 1);
      TurnNotEmpty(lists, r - 1);
    }
  }

  /** The first n claims of the round robin fall in its first n turns. */
  lemma FirstTurnsSuffice(lists: seq<seq<Task>>, n: nat)
    ensures Take(RoundRobin(lists), n) == Take(Rounds(lists, n), n)
  {
    hide Rounds;
    if Longest(lists) <= n {
      NothingLater(lists, Longest(lists), n);
    } else {
      RoundsGrow(lists, n, Longest(lists));
      RoundsLong(lists, n);
    }
  }

  /** Reading only the offered candidates changes nothing: SelectClaims makes the same claims in
      the same order. */
  lemma PruningKeepsSelection(s: seq<Task>, req: ClaimRequest)
    requires ValidRequest(req) && UniqueIds(s)
    ensures Selected(Pruned(s, req), req) == Selected(s, req)
  {
    hide Rounds, Picks, AllPicks, Served, RoundRobin, UniqueIds, Pruned;
    var p, tenants := Pruned(s, req), Tenants(s);
    forall t ensures Picks(p, req, t) == Take(Picks(s, req, t), req.limit) {
      PrunedPicks(s, req, t);
    }
    PrunedOrder(s, req);
    PrunedRounds(s, p, req, tenants, req.limit);
    FirstTurnsSuffice(AllPicks(s, req, tenants), req.limit);
    FirstTurnsSuffice(AllPicks(p, req, Served(tenants, req)), req.limit);
  }

  lemma PrunedOrder(s: seq<Task>, req: ClaimRequest)
    requires req.limit >= 1
    ensures Tenants(Pruned(s, req)) == Served(Tenants(s), req)
  {
    PrunedTenants(s, [], req);
    assert s + [] == s;
  }

  // ----- whatever order the candidates are read in -----

  lemma {:induction false} KeepSorted(s: seq<Task>, kept: set<Task>)
    requires Sorted(s)
    ensures Sorted(Keep(s, kept))
  {
    if s != [] {
      var n := |s| - 1;
      var before := Keep(s[..n], kept);
      KeepSorted(s[..n], kept);
      KeepMembers(s[..n], kept);
      forall i | 0 <= i < |before| ensures !Before(s[n], before[i]) {
        assert before[i] in s[..n];
      }
    }
  }

  lemma {:induction false} KeepUnique(s: seq<Task>, kept: set<Task>)
    requires UniqueIds(s)
    ensures UniqueIds(Keep(s, kept))
  {
    if s != [] {
      var n := |s| - 1;
      var before := Keep(s[..n], kept);
      KeepUnique(s[..n], kept);
      KeepMembers(s[..n], kept);
      forall i | 0 <= i < |before| ensures (before[i].tenant, before[i].id) != (s[n].tenant, s[n].id) {
        assert before[i] in s[..n];
      }
    }
  }

  lemma LastIsLast(s: seq<Task>, p: seq<Task>)
    requires Sorted(s) && UniqueIds(s) && Sorted(p) && multiset(p) == multiset(s) && s != [] && p != []
    ensures s[|s| - 1] == p[|p| - 1]
    ensures Sorted(s[..|s| - 1]) && UniqueIds(s[..|s| - 1]) && Sorted(p[..|p| - 1])
  {
    var a, b := s[|s| - 1], p[|p| - 1];
    assert a in multiset(s) && b in multiset(p);
    var i :| 0 <= i < |s| && s[i] == b;
    var j :| 0 <= j < |p| && p[j] == a;
    BeforeTransitive(a, b, a);
    CompareIsOrder(a.tenant, b.tenant);
    CompareIsOrder(a.id, b.id);
  }

  /** With unique ids there is one sorted order. */
  lemma {:induction false} SortedOnce(s: seq<Task>, p: seq<Task>)
    requires Sorted(s) && UniqueIds(s) && Sorted(p) && multiset(p) == multiset(s)
    ensures p == s
    decreases |s|
  {
    hide Sorted, UniqueIds;
    assert |multiset(s)| == |s| && |multiset(p)| == |p|;
    if s != [] {
      var n := |s| - 1;
      LastIsLast(s, p);
      WithoutLast(s);
      WithoutLast(p);
      SortedOnce(s[..n], p[..n]);
    }
  }

  lemma WithoutLast<T>(s: seq<T>)
    requires s != []
    ensures s == s[..|s| - 1] + [s[|s| - 1]]
    ensures multiset(s[..|s| - 1]) == multiset(s) - multiset{s[|s| - 1]}
  {
    assert s == s[..|s| - 1] + [s[|s| - 1]];
  }

  /** A backend may hand over the pruned candidates in any order, p being that order once sorted. */
  lemma AnyReadingKeepsSelection(s: seq<Task>, p: seq<Task>, req: ClaimRequest)
    requires ValidRequest(req) && UniqueIds(s) && Sorted(s)
    requires Sorted(p) && multiset(p) == multiset(Pruned(s, req))
    ensures Selected(p, req) == Selected(s, req)
  {
    hide Sorted, UniqueIds, Selected;
    KeepSorted(s, OfferedSet(s, req));
    KeepUnique(s, OfferedSet(s, req));
    SortedOnce(Pruned(s, req), p);
    PruningKeepsSelection(s, req);
  }

  /** How many candidates the backend reads of a tenant, whatever its backlog. */
  lemma OfferedIsBounded(s: seq<Task>, req: ClaimRequest, t: Text)
    requires ValidRequest(req) && UniqueIds(s)
    ensures |Queue(Pruned(s, req), t)| <= req.limit
    ensures |Queue(Pruned(s, req), t)| <= req.perTenantLimit
  {
    PrunedQueue(s, req, t);
  }
}
