/** Which claimable tasks one claim call takes (scheduled_task_helpers.go), as functions of the
    candidates in order. */
module ClaimSelection {
  import opened Bytes

  datatype Task = Task(id: Text, tenant: Text, entity: Text, nextAttemptTime: int)

  datatype ClaimRequest = ClaimRequest(limit: int, perTenantLimit: int, inProgress: map<Text, int>)

  /** ValidateClaimRequest, which every claim call passes first. */
  predicate ValidRequest(req: ClaimRequest) {
    req.limit >= 1 && req.perTenantLimit >= 1 && forall t <- req.inProgress :: req.inProgress[t] >= 0
  }

  function Quota(req: ClaimRequest, tenant: Text): int {
    req.perTenantLimit - (if tenant in req.inProgress then req.inProgress[tenant] else 0)
  }

  // ----- the order -----

  predicate Before(a: Task, b: Task) {
    if a.nextAttemptTime != b.nextAttemptTime then a.nextAttemptTime < b.nextAttemptTime
    else if a.tenant != b.tenant then Less(a.tenant, b.tenant)
    else Less(a.id, b.id)
  }

  predicate Sorted(s: seq<Task>) {
    forall i, j :: 0 <= i < j < |s| ==> !Before(s[j], s[i])
  }

  /** Task ids are unique within a tenant. */
  ghost predicate UniqueIds(s: seq<Task>) {
    forall i, j :: 0 <= i < j < |s| ==> (s[i].tenant, s[i].id) != (s[j].tenant, s[j].id)
  }

  lemma BeforeTransitive(a: Task, b: Task, c: Task)
    ensures Before(a, b) && Before(b, c) ==> Before(a, c)
    ensures !(Before(a, b) && Before(b, a))
    ensures !Before(b, a) && !Before(c, b) ==> !Before(c, a)
  {
    CompareIsOrder(a.tenant, b.tenant);
    CompareIsOrder(b.tenant, c.tenant);
    CompareIsOrder(a.tenant, c.tenant);
    CompareIsOrder(a.id, b.id);
    CompareIsOrder(b.id, c.id);
    CompareIsOrder(a.id, c.id);
    if Less(a.tenant, b.tenant) && Less(b.tenant, c.tenant) { LessTransitive(a.tenant, b.tenant, c.tenant); }
    if Less(a.id, b.id) && Less(b.id, c.id) { LessTransitive(a.id, b.id, c.id); }
  }

  // ----- what is selected -----

  /** One tenant's candidates, in order. */
  function Queue(s: seq<Task>, tenant: Text): seq<Task> {
    if s == [] then []
    else
      var n := |s| - 1;
      Queue(s[..n], tenant) + (if s[n].tenant == tenant then [s[n]] else [])
  }

  /** The tenants in the order their first candidates come. */
  function Tenants(s: seq<Task>): seq<Text> {
    if s == [] then []
    else
      var n := |s| - 1;
      var before := Tenants(s[..n]);
      if s[n].tenant in before then before else before + [s[n].tenant]
  }

  function Entities(s: seq<Task>): set<Text> {
    set c <- s :: c.entity
  }

  /** The candidates that are the first of their entity. */
  function Firsts(q: seq<Task>): seq<Task> {
    if q == [] then []
    else
      var n := |q| - 1;
      Firsts(q[..n]) + (if q[n].entity in Entities(q[..n]) then [] else [q[n]])
  }

  function Take<T>(s: seq<T>, n: int): seq<T> {
    if n <= 0 then [] else if n < |s| then s[..n] else s
  }

  function Drop<T>(s: seq<T>, n: nat): seq<T> {
    if n < |s| then s[n..] else []
  }

  /** What a tenant may be given: the first candidates of its entities, up to its quota. */
  function Picks(s: seq<Task>, req: ClaimRequest, tenant: Text): seq<Task> {
    Take(Firsts(Queue(s, tenant)), Quota(req, tenant))
  }

  function AllPicks(s: seq<Task>, req: ClaimRequest, tenants: seq<Text>): seq<seq<Task>> {
    seq(|tenants|, i requires 0 <= i < |tenants| => Picks(s, req, tenants[i]))
  }

  /** Turn r: the r-th pick of every list that has one, in list order. */
  function Round(lists: seq<seq<Task>>, r: nat): seq<Task> {
    if lists == [] then []
    else
      var n := |lists| - 1;
      Round(lists[..n], r) + (if r < |lists[n]| then [lists[n][r]] else [])
  }

  /** The turns before turn r. */
  function Rounds(lists: seq<seq<Task>>, r: nat): seq<Task> {
    if r == 0 then [] else Rounds(lists, r - 1) + Round(lists, r - 1)
  }

  function Longest(lists: seq<seq<Task>>): (n: nat)
    ensures forall l <- lists :: |l| <= n
  {
    if lists == [] then 0
    else
      var n := Longest(lists[1..]);
      assert forall l <- lists :: l == lists[0] || l in lists[1..];
      if |lists[0]| > n then |lists[0]| else n
  }

  /** Every pick, tenants taking turns. */
  function RoundRobin(lists: seq<seq<Task>>): seq<Task> {
    Rounds(lists, Longest(lists))
  }

  /** The claims made from candidates already in order. */
  function Selected(s: seq<Task>, req: ClaimRequest): seq<Task> {
    Take(RoundRobin(AllPicks(s, req, Tenants(s))), req.limit)
  }

  // ----- the loops -----

  /** What the inner loops still take from a queue, entities in seen skipped. */
  function Remaining(q: seq<Task>, seen: set<Text>, quota: int): seq<Task>
    decreases |q|
  {
    if quota <= 0 || q == [] then []
    else if q[0].entity in seen then Remaining(q[1..], seen, quota)
    else [q[0]] + Remaining(q[1..], seen + {q[0].entity}, quota - 1)
  }

  /** Firsts(q), with entities in seen counted as met before. */
  function FirstsAfter(q: seq<Task>, seen: set<Text>): seq<Task> {
    if q == [] then []
    else if q[0].entity in seen then FirstsAfter(q[1..], seen)
    else [q[0]] + FirstsAfter(q[1..], seen + {q[0].entity})
  }

  lemma {:induction false} RemainingIsTake(q: seq<Task>, seen: set<Text>, quota: int)
    ensures Remaining(q, seen, quota) == Take(FirstsAfter(q, seen), quota)
    decreases |q|
  {
    if quota > 0 && q != [] {
      if q[0].entity in seen {
        RemainingIsTake(q[1..], seen, quota);
      } else {
        RemainingIsTake(q[1..], seen + {q[0].entity}, quota - 1);
        TakeCons(q[0], FirstsAfter(q[1..], seen + {q[0].entity}), quota);
      }
    }
  }

  lemma TakeCons<T>(x: T, s: seq<T>, n: int)
    requires n > 0
    ensures Take([x] + s, n) == [x] + Take(s, n - 1)
  {
  }

  lemma {:induction false} FirstsAfterSnoc(q: seq<Task>, c: Task, seen: set<Text>)
    ensures FirstsAfter(q + [c], seen) ==
      FirstsAfter(q, seen) + (if c.entity in seen + Entities(q) then [] else [c])
    decreases |q|
  {
    if q == [] {
      assert [] + [c] == [c] && [c][1..] == [] && Entities([]) == {};
    } else {
      assert (q + [c])[1..] == q[1..] + [c];
      assert Entities(q) == Entities(q[1..]) + {q[0].entity} by { assert q == [q[0]] + q[1..]; }
      var seen' := if q[0].entity in seen then seen else seen + {q[0].entity};
      FirstsAfterSnoc(q[1..], c, seen');
      assert seen' + Entities(q[1..]) == seen + Entities(q);
    }
  }

  lemma {:induction false} FirstsFromFront(q: seq<Task>)
    ensures FirstsAfter(q, {}) == Firsts(q)
  {
    if q != [] {
      var n := |q| - 1;
      FirstsFromFront(q[..n]);
      FirstsAfterSnoc(q[..n], q[n], {});
      assert q == q[..n] + [q[n]] && {} + Entities(q[..n]) == Entities(q[..n]);
    }
  }

  function SeenBy(seen: set<(Text, Text)>, tenant: Text): set<Text> {
    set k <- seen | k.0 == tenant :: k.1
  }

  predicate Distinct(s: seq<Text>) {
    forall i, j :: 0 <= i < j < |s| ==> s[i] != s[j]
  }

  lemma {:induction false} TenantsDistinct(s: seq<Task>)
    ensures Distinct(Tenants(s))
    ensures forall t :: t in Tenants(s) <==> exists c <- s :: c.tenant == t
  {
    if s != [] {
      var n := |s| - 1;
      TenantsDistinct(s[..n]);
      assert s == s[..n] + [s[n]];
    }
  }

  lemma {:induction false} NoQueue(s: seq<Task>, tenant: Text)
    ensures Queue(s, tenant) == [] <==> tenant !in Tenants(s)
  {
    if s != [] {
      NoQueue(s[..|s| - 1], tenant);
    }
  }

  // ----- rounds -----

  lemma {:induction false} RoundsGrow(lists: seq<seq<Task>>, r: nat, n: nat)
    requires r <= n
    ensures Rounds(lists, r) <= Rounds(lists, n)
    decreases n
  {
    if r < n {
      RoundsGrow(lists, r, n - 1);
    }
  }

  lemma {:induction false} RoundEmpty(lists: seq<seq<Task>>, r: nat)
    ensures Round(lists, r) == [] <==> forall l <- lists :: |l| <= r
  {
    if lists != [] {
      var n := |lists| - 1;
      RoundEmpty(lists[..n], r);
      assert lists == lists[..n] + [lists[n]];
    }
  }

  lemma {:induction false} NothingLater(lists: seq<seq<Task>>, r: nat, n: nat)
    requires r <= n && forall l <- lists :: |l| <= r
    ensures Rounds(lists, n) == Rounds(lists, r)
    decreases n
  {
    if r < n {
      NothingLater(lists, r, n - 1);
      RoundEmpty(lists, n - 1);
    }
  }

  lemma {:induction false} LongestAtMost(lists: seq<seq<Task>>, r: nat)
    requires forall l <- lists :: |l| <= r
    ensures Longest(lists) <= r
  {
    if lists != [] {
      assert lists[0] in lists;
      LongestAtMost(lists[1..], r);
    }
  }

  /** Once a turn finds nothing, every pick has been made. */
  lemma AllPicked(lists: seq<seq<Task>>, r: nat)
    requires Round(lists, r) == []
    ensures Rounds(lists, r) == RoundRobin(lists)
  {
    RoundEmpty(lists, r);
    LongestAtMost(lists, r);
    NothingLater(lists, Longest(lists), r);
  }

  lemma {:induction false} RoundOfFirst(lists: seq<seq<Task>>, r: nat, k: nat)
    requires k <= |lists|
    ensures Round(lists[..k], r) <= Round(lists, r)
    decreases |lists|
  {
    if k < |lists| {
      var n := |lists| - 1;
      RoundOfFirst(lists[..n], r, k);
      assert lists[..n][..k] == lists[..k];
    } else {
      assert lists[..k] == lists;
    }
  }

  /** A turn in progress has made the first picks of the round robin and no other. */
  lemma PartOfRoundRobin(lists: seq<seq<Task>>, r: nat, k: nat)
    requires k <= |lists|
    ensures Rounds(lists, r) + Round(lists[..k], r) <= RoundRobin(lists)
  {
    hide Round, Rounds;
    var n := Longest(lists);
    RoundOfFirst(lists, r, k);
    RoundsStep(lists, r);
    if r < n {
      RoundsGrow(lists, r + 1, n);
    } else {
      NothingLater(lists, n, r);
      RoundEmpty(lists, r);
    }
  }

  lemma RoundsStep(lists: seq<seq<Task>>, r: nat)
    ensures Rounds(lists, 0) == [] && Round(lists[..0], r) == []
    ensures Rounds(lists, r + 1) == Rounds(lists, r) + Round(lists, r)
  {
  }

  /** Between turns: tenants before k have had turn r, the others have not. */
  ghost predicate InTurn(lists: seq<seq<Task>>, tenants: seq<Text>, queues: map<Text, seq<Task>>,
                         seen: set<(Text, Text)>, quota: map<Text, int>, r: nat, k: nat)
  {
    && |lists| == |tenants| && queues.Keys == quota.Keys == (set t <- tenants)
    && forall i :: 0 <= i < |tenants| ==>
      Remaining(queues[tenants[i]], SeenBy(seen, tenants[i]), quota[tenants[i]]) ==
        Drop(lists[i], if i < k then r + 1 else r)
  }

  lemma FirstTurn(s: seq<Task>, req: ClaimRequest, queues: map<Text, seq<Task>>, quota: map<Text, int>)
    requires queues.Keys == quota.Keys == (set t <- Tenants(s))
    requires forall t <- Tenants(s) :: queues[t] == Queue(s, t) && quota[t] == Quota(req, t)
    ensures InTurn(AllPicks(s, req, Tenants(s)), Tenants(s), queues, {}, quota, 0, 0)
  {
    hide Remaining, Firsts, FirstsAfter, Queue, Tenants;
    forall t <- Tenants(s) ensures Remaining(queues[t], SeenBy({}, t), quota[t]) == Picks(s, req, t) {
      assert SeenBy({}, t) == {};
      RemainingIsTake(Queue(s, t), {}, Quota(req, t));
      FirstsFromFront(Queue(s, t));
    }
  }

  lemma NextTurn(lists: seq<seq<Task>>, tenants: seq<Text>, queues: map<Text, seq<Task>>,
                 seen: set<(Text, Text)>, quota: map<Text, int>, r: nat)
    requires InTurn(lists, tenants, queues, seen, quota, r, |tenants|)
    ensures InTurn(lists, tenants, queues, seen, quota, r + 1, 0)
  {
  }

  lemma RoundSnoc(lists: seq<seq<Task>>, r: nat, k: nat)
    requires k < |lists|
    ensures Round(lists[..k + 1], r) == Round(lists[..k], r) + (if r < |lists[k]| then [lists[k][r]] else [])
  {
    assert lists[..k + 1][..k] == lists[..k];
  }

  lemma DropNone<T>(s: seq<T>, r: nat)
    requires Drop(s, r) == []
    ensures r >= |s| && Drop(s, r + 1) == []
  {
  }

  lemma DropOne<T>(s: seq<T>, r: nat, x: T, rest: seq<T>)
    requires Drop(s, r) == [x] + rest
    ensures r < |s| && x == s[r] && rest == Drop(s, r + 1)
  {
    assert rest == ([x] + rest)[1..];
  }

  lemma TakenInTurn(lists: seq<seq<Task>>, tenants: seq<Text>, queues: map<Text, seq<Task>>,
                    seen: set<(Text, Text)>, quota: map<Text, int>, r: nat, k: nat, c: Task, q: seq<Task>)
    requires InTurn(lists, tenants, queues, seen, quota, r, k) && k < |tenants| && Distinct(tenants)
    requires var t := tenants[k];
      Remaining(queues[t], SeenBy(seen, t), quota[t]) ==
        [c] + Remaining(q, SeenBy(seen, t) + {c.entity}, quota[t] - 1)
    ensures r < |lists[k]| && c == lists[k][r]
    ensures var t := tenants[k];
      InTurn(lists, tenants, queues[t := q], seen + {(t, c.entity)}, quota[t := quota[t] - 1], r, k + 1)
  {
    hide Remaining, Drop;
    var t := tenants[k];
    var seen' := seen + {(t, c.entity)};
    DropOne(lists[k], r, c, Remaining(q, SeenBy(seen, t) + {c.entity}, quota[t] - 1));
    assert SeenBy(seen', t) == SeenBy(seen, t) + {c.entity};
    forall i | 0 <= i < |tenants| && i != k ensures tenants[i] != t && SeenBy(seen', tenants[i]) == SeenBy(seen, tenants[i]) {
    }
  }

  lemma SkippedInTurn(lists: seq<seq<Task>>, tenants: seq<Text>, queues: map<Text, seq<Task>>,
                      seen: set<(Text, Text)>, quota: map<Text, int>, r: nat, k: nat, q: seq<Task>)
    requires InTurn(lists, tenants, queues, seen, quota, r, k) && k < |tenants| && Distinct(tenants)
    requires var t := tenants[k];
      Remaining(queues[t], SeenBy(seen, t), quota[t]) == [] == Remaining(q, SeenBy(seen, t), quota[t])
    ensures r >= |lists[k]|
    ensures InTurn(lists, tenants, queues[tenants[k] := q], seen, quota, r, k + 1)
  {
    hide Remaining, Drop;
    DropNone(lists[k], r);
    forall i | 0 <= i < |tenants| && i != k ensures tenants[i] != tenants[k] {
    }
  }

  lemma InTurnKeys(lists: seq<seq<Task>>, tenants: seq<Text>, queues: map<Text, seq<Task>>,
                   seen: set<(Text, Text)>, quota: map<Text, int>, r: nat, k: nat)
    requires InTurn(lists, tenants, queues, seen, quota, r, k)
    ensures |lists| == |tenants| && forall t <- tenants :: t in queues && t in quota
  {
    forall t <- tenants ensures t in queues && t in quota {
      assert t in queues.Keys && t in quota.Keys;
    }
  }

  lemma TurnEnds(lists: seq<seq<Task>>, tenants: seq<Text>, queues: map<Text, seq<Task>>,
                 seen: set<(Text, Text)>, quota: map<Text, int>, r: nat, k: nat, limit: int, out0: seq<Task>, out: seq<Task>)
    requires k <= |tenants| && InTurn(lists, tenants, queues, seen, quota, r, k)
    requires k == |tenants| || |out| >= limit
    requires out0 == Rounds(lists, r) && out == out0 + Round(lists[..k], r) && |out0| < limit
    ensures out <= RoundRobin(lists)
    ensures |out| < limit ==>
      out == Rounds(lists, r + 1) && InTurn(lists, tenants, queues, seen, quota, r + 1, 0)
    ensures |out| == |out0| ==> out == RoundRobin(lists)
  {
    hide Remaining, Round, Rounds, RoundRobin;
    PartOfRoundRobin(lists, r, k);
    if k == |tenants| {
      assert lists[..k] == lists;
      assert out == Rounds(lists, r) + Round(lists, r);
      RoundsStep(lists, r);
      NextTurn(lists, tenants, queues, seen, quota, r);
      if |out| == |out0| {
        AllPicked(lists, r);
      }
    }
  }
}
