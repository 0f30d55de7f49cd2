/** SelectClaims of scheduled_task_helpers.go as it is written: the sort, the queues and the rounds. */
module ClaimLoops {
  import opened Bytes
  import opened ClaimLaws
  import opened ClaimOrder
  import opened ClaimSelection
  import opened Wrappers

  // ----- the queues -----

  /** sort.Slice over the candidates, in place. */
  method SortCandidates(a: array<Task>)
    modifies a
    ensures Sorted(a[..]) && InOrder(a[..]) && multiset(a[..]) == old(multiset(a[..]))
  {
    hide InOrder;
    for i := 0 to a.Length
      invariant Sorted(a[..i]) && multiset(a[..]) == old(multiset(a[..]))
    {
      Insert(a, i);
    }
    assert a[..a.Length] == a[..];
    SortedInOrder(a[..]);
  }

  /** Moves a[n] down into the sorted part before it. */
  method Insert(a: array<Task>, n: nat)
    requires n < a.Length && Sorted(a[..n])
    modifies a
    ensures Sorted(a[..n + 1]) && multiset(a[..]) == old(multiset(a[..]))
  {
    var j := n;
    while j > 0 && Before(a[j], a[j - 1])
      invariant 0 <= j <= n
      invariant forall k, m :: 0 <= k < m <= n && k != j && m != j ==> !Before(a[m], a[k])
      invariant forall m :: j < m <= n ==> !Before(a[m], a[j])
      invariant multiset(a[..]) == old(multiset(a[..]))
    {
      BeforeTransitive(a[j], a[j - 1], a[j]);
      a[j - 1], a[j] := a[j], a[j - 1];
      j := j - 1;
    }
    forall k | 0 <= k < j ensures !Before(a[j], a[k]) {
      BeforeTransitive(a[k], a[j - 1], a[j]);
    }
  }

  method GroupByTenant(cands: array<Task>) returns (tenants: seq<Text>, queues: map<Text, seq<Task>>)
    ensures tenants == Tenants(cands[..]) && queues.Keys == set t <- tenants
    ensures forall t <- tenants :: queues[t] == Queue(cands[..], t)
  {
    hide Sorted;
    tenants, queues := [], map[];
    for i := 0 to cands.Length
      invariant tenants == Tenants(cands[..i]) && queues.Keys == set t <- tenants
      invariant forall t <- tenants :: queues[t] == Queue(cands[..i], t)
    {
      var c := cands[i];
      assert cands[..i + 1][..i] == cands[..i];
      if c.tenant !in queues {
        NoQueue(cands[..i], c.tenant);
        tenants := tenants + [c.tenant];
        queues := queues[c.tenant := []];
      }
      queues := queues[c.tenant := queues[c.tenant] + [c]];
    }
    assert cands[..cands.Length] == cands[..];
  }

  // ----- the rounds -----

  /** The innermost loop: the tenant's next claim, past candidates of entities already seen. */
  method NextClaim(q0: seq<Task>, seen: set<(Text, Text)>, tenant: Text, quota: int)
    returns (claim: Option<Task>, q: seq<Task>)
    ensures var rest := Remaining(q0, SeenBy(seen, tenant), quota);
      match claim
      case None => rest == [] && Remaining(q, SeenBy(seen, tenant), quota) == []
      case Some(c) => rest == [c] + Remaining(q, SeenBy(seen, tenant) + {c.entity}, quota - 1)
  {
    q := q0;
    while quota > 0 && |q| > 0
      invariant Remaining(q0, SeenBy(seen, tenant), quota) == Remaining(q, SeenBy(seen, tenant), quota)
      decreases |q|
    {
      var c := q[0];
      q := q[1..];
      if (tenant, c.entity) in seen {
        assert c.entity in SeenBy(seen, tenant);
        continue;
      }
      assert c.entity !in SeenBy(seen, tenant);
      return Some(c), q;
    }
    return None, q;
  }

  /** One pass over the tenants, stopped early when the limit is met. */
  method TakeTurn(ghost lists: seq<seq<Task>>, ghost r: nat, limit: int, tenants: seq<Text>,
                  queues0: map<Text, seq<Task>>, seen0: set<(Text, Text)>, quota0: map<Text, int>, out0: seq<Task>)
    returns (queues: map<Text, seq<Task>>, seen: set<(Text, Text)>, quota: map<Text, int>, out: seq<Task>)
    requires Distinct(tenants) && InTurn(lists, tenants, queues0, seen0, quota0, r, 0)
    requires out0 == Rounds(lists, r) && |out0| < limit
    ensures |out0| <= |out| <= limit && out <= RoundRobin(lists)
    ensures |out| < limit ==>
      out == Rounds(lists, r + 1) && InTurn(lists, tenants, queues, seen, quota, r + 1, 0)
    ensures |out| == |out0| ==> out == RoundRobin(lists)
  {
    hide InTurn, Remaining, Round, Rounds, RoundRobin;
    queues, seen, quota, out := queues0, seen0, quota0, out0;
    var k := 0;
    RoundsStep(lists, r);
    InTurnKeys(lists, tenants, queues, seen, quota, r, 0);
    while k < |tenants|
      invariant 0 <= k <= |tenants| && |out| <= limit
      invariant out == Rounds(lists, r) + Round(lists[..k], r)
      invariant InTurn(lists, tenants, queues, seen, quota, r, k)
    {
      if |out| >= limit {
        break;
      }
      var tn := tenants[k];
      InTurnKeys(lists, tenants, queues, seen, quota, r, k);
      var claim, q := NextClaim(queues[tn], seen, tn, quota[tn]);
      RoundSnoc(lists, r, k);
      if claim.Some? {
        var c := claim.value;
        TakenInTurn(lists, tenants, queues, seen, quota, r, k, c, q);
        queues, seen := queues[tn := q], seen + {(tn, c.entity)};
        quota := quota[tn := quota[tn] - 1];
        out := out + [c];
      } else {
        SkippedInTurn(lists, tenants, queues, seen, quota, r, k, q);
        queues := queues[tn := q];
      }
      k := k + 1;
    }
    TurnEnds(lists, tenants, queues, seen, quota, r, k, limit, out0, out);
  }

  /** SelectClaims takes exactly the round robin of each tenant's first-per-entity
      candidates, within quotas and up to the limit, keeps what is promised of it, and leaves
      cands sorted. */
  method SelectClaims(cands: array<Task>, req: ClaimRequest) returns (out: seq<Task>)
    modifies cands
    ensures Sorted(cands[..]) && multiset(cands[..]) == old(multiset(cands[..]))
    ensures out == Selected(cands[..], req)
    ensures ValidRequest(req) ==> KeepsPromises(cands[..], req, out)
  {
    hide KeepsPromises, InOrder, Sorted, InTurn, Tenants, Remaining, Round, Rounds, Queue, Firsts, RoundRobin;
    SortCandidates(cands);
    ghost var s := cands[..];
    var tenants, queues := GroupByTenant(cands);
    TenantsDistinct(s);
    var quota: map<Text, int> := map t | t in tenants :: Quota(req, t);
    ghost var lists := AllPicks(s, req, tenants);
    FirstTurn(s, req, queues, quota);
    RoundsStep(lists, 0);
    var seen: set<(Text, Text)> := {};
    out := [];
    var progress := true;
    ghost var r := 0;
    while progress && |out| < req.limit
      invariant cands[..] == s
      invariant |out| <= (if req.limit > 0 then req.limit else 0) && out <= RoundRobin(lists)
      invariant progress && |out| < req.limit ==>
        out == Rounds(lists, r) && InTurn(lists, tenants, queues, seen, quota, r, 0)
      invariant !progress ==> out == RoundRobin(lists)
      decreases req.limit - |out|, progress
    {
      var before := |out|;
      queues, seen, quota, out := TakeTurn(lists, r, req.limit, tenants, queues, seen, quota, out);
      progress := |out| > before;
      r := r + 1;
    }
    assert out == Take(RoundRobin(lists), req.limit);
    if ValidRequest(req) {
      SelectedKeepsPromises(cands[..], req);
    }
  }
}
