/** What SelectClaims promises of its choice, and the pruning that leaves it unchanged. */
module ClaimLaws {
  import opened Bytes
  import opened ClaimSelection

  // ----- one tenant's share -----

  lemma {:induction false} QueueConcat(a: seq<Task>, b: seq<Task>, t: Text)
    ensures Queue(a + b, t) == Queue(a, t) + Queue(b, t)
    decreases |b|
  {
    if b == [] {
      assert a + b == a;
    } else {
      var n := |b| - 1;
      assert (a + b)[..|a + b| - 1] == a + b[..n] && b == b[..n] + [b[n]];
      QueueConcat(a, b[..n], t);
    }
  }

  lemma {:induction false} QueueMembers(s: seq<Task>, t: Text)
    ensures forall c :: c in Queue(s, t) <==> c in s && c.tenant == t
  {
    if s != [] {
      var n := |s| - 1;
      QueueMembers(s[..n], t);
      assert s == s[..n] + [s[n]];
    }
  }

  /** Each list holds one tenant's picks, and no two lists the same tenant's. */
  ghost predicate OwnLists(lists: seq<seq<Task>>, tenants: seq<Text>) {
    |lists| == |tenants| && Distinct(tenants) &&
    forall i :: 0 <= i < |lists| ==> forall c <- lists[i] :: c.tenant == tenants[i]
  }

  lemma QueueOne(c: Task, t: Text)
    ensures Queue([c], t) == if c.tenant == t then [c] else []
  {
    assert [c][..0] == [] && Queue([], t) == [];
  }

  lemma NoTurns(lists: seq<seq<Task>>, t: Text)
    ensures forall r :: Queue(Round(lists[..0], r), t) == []
    ensures Queue([], t) == []
  {
    forall r ensures Queue(Round(lists[..0], r), t) == [] {
      assert Round(lists[..0], r) == [];
    }
  }

  lemma {:induction false} RoundShare(lists: seq<seq<Task>>, tenants: seq<Text>, r: nat, k: nat, i: nat)
    requires OwnLists(lists, tenants) && k <= |lists| && i < |lists|
    ensures Queue(Round(lists[..k], r), tenants[i]) == if i < k && r < |lists[i]| then [lists[i][r]] else []
    decreases k
  {
    hide Queue, Round;
    NoTurns(lists, tenants[i]);
    if k > 0 {
      var before := Round(lists[..k - 1], r);
      RoundShare(lists, tenants, r, k - 1, i);
      RoundSnoc(lists, r, k - 1);
      if r < |lists[k - 1]| {
        var c := lists[k - 1][r];
        assert c in lists[k - 1];
        QueueOne(c, tenants[i]);
        QueueConcat(before, [c], tenants[i]);
      } else {
        assert before + [] == before;
      }
    }
  }

  lemma {:induction false} RoundsShare(lists: seq<seq<Task>>, tenants: seq<Text>, r: nat, i: nat)
    requires OwnLists(lists, tenants) && i < |lists|
    ensures Queue(Rounds(lists, r), tenants[i]) == Take(lists[i], r)
    decreases r
  {
    hide Queue, Round;
    NoTurns(lists, tenants[i]);
    if r > 0 {
      RoundsShare(lists, tenants, r - 1, i);
      assert lists[..|lists|] == lists;
      RoundShare(lists, tenants, r - 1, |lists|, i);
      QueueConcat(Rounds(lists, r - 1), Round(lists, r - 1), tenants[i]);
    }
  }

  lemma {:induction false} FirstsMembers(q: seq<Task>)
    ensures forall c :: c in Firsts(q) ==> c in q
    ensures Entities(Firsts(q)) == Entities(q)
  {
    if q != [] {
      var n := |q| - 1;
      FirstsMembers(q[..n]);
      assert q == q[..n] + [q[n]];
      assert q[n] in q && q[n].entity in Entities(q);
      assert Entities(q) == Entities(q[..n]) + {q[n].entity};
    }
  }

  lemma PicksOwned(s: seq<Task>, req: ClaimRequest)
    ensures OwnLists(AllPicks(s, req, Tenants(s)), Tenants(s))
  {
    var tenants := Tenants(s);
    TenantsDistinct(s);
    forall i | 0 <= i < |tenants| ensures forall c <- Picks(s, req, tenants[i]) :: c.tenant == tenants[i] {
      QueueMembers(s, tenants[i]);
      FirstsMembers(Queue(s, tenants[i]));
    }
  }

  /** Any prefix of the round robin is whole turns and part of one. */
  lemma {:induction false} PrefixShape(lists: seq<seq<Task>>, m: nat, n: nat) returns (r: nat, k: nat)
    requires n <= |Rounds(lists, m)|
    ensures k <= |lists| && Rounds(lists, m)[..n] == Rounds(lists, r) + Round(lists[..k], r)
    decreases m
  {
    if m == 0 {
      r, k := 0, 0;
      assert Round(lists[..0], 0) == [];
    } else if n <= |Rounds(lists, m - 1)| {
      r, k := PrefixShape(lists, m - 1, n);
    } else {
      r := m - 1;
      k := PartOfRound(lists, r, n - |Rounds(lists, r)|);
      assert Rounds(lists, m)[..n] == Rounds(lists, r) + Round(lists, r)[..n - |Rounds(lists, r)|];
    }
  }

  lemma {:induction false} PartOfRound(lists: seq<seq<Task>>, r: nat, n: nat) returns (k: nat)
    requires n <= |Round(lists, r)|
    ensures k <= |lists| && Round(lists, r)[..n] == Round(lists[..k], r)
    decreases |lists|
  {
    if n == |Round(lists, r)| {
      k := |lists|;
      assert lists[..k] == lists;
    } else {
      var m := |lists| - 1;
      k := PartOfRound(lists[..m], r, n);
      assert lists[..m][..k] == lists[..k];
    }
  }

  /** At every point of the selection, what a tenant t has is the beginning of its picks,
      and no tenant u is more than one claim ahead of t unless t has all of its own. */
  lemma ShareAt(s: seq<Task>, req: ClaimRequest, n: nat, t: Text, u: Text)
    requires n <= |Selected(s, req)|
    ensures var out := Selected(s, req)[..n];
      && Queue(out, t) <= Picks(s, req, t)
      && (Queue(out, t) == Picks(s, req, t) || |Queue(out, u)| <= |Queue(out, t)| + 1)
  {
    hide Round, Rounds, Queue, Firsts, Picks, AllPicks, OwnLists;
    var tenants, lists := Tenants(s), AllPicks(s, req, Tenants(s));
    assert Selected(s, req)[..n] == RoundRobin(lists)[..n];
    var r, k := PrefixShape(lists, Longest(lists), n);
    var out := Selected(s, req)[..n];
    ShareInPrefix(s, req, r, k, out, t);
    ShareInPrefix(s, req, r, k, out, u);
  }

  lemma ShareInPrefix(s: seq<Task>, req: ClaimRequest, r: nat, k: nat, out: seq<Task>, t: Text)
    requires var lists := AllPicks(s, req, Tenants(s));
      k <= |lists| && out == Rounds(lists, r) + Round(lists[..k], r)
    ensures Queue(out, t) == Take(Picks(s, req, t), r) || Queue(out, t) == Take(Picks(s, req, t), r + 1)
  {
    hide Round, Rounds, Firsts;
    var tenants, lists := Tenants(s), AllPicks(s, req, Tenants(s));
    PicksOwned(s, req);
    if i :| 0 <= i < |tenants| && tenants[i] == t {
      RoundsShare(lists, tenants, r, i);
      RoundShare(lists, tenants, r, k, i);
      QueueConcat(Rounds(lists, r), Round(lists[..k], r), t);
    } else {
      NoShare(s, req, r, k, out, t);
    }
  }

  lemma NoShare(s: seq<Task>, req: ClaimRequest, r: nat, k: nat, out: seq<Task>, t: Text)
    requires t !in Tenants(s)
    requires var lists := AllPicks(s, req, Tenants(s));
      k <= |lists| && out == Rounds(lists, r) + Round(lists[..k], r)
    ensures Queue(out, t) == [] == Picks(s, req, t)
  {
    NoQueue(s, t);
    var lists := AllPicks(s, req, Tenants(s));
    hide Round, Rounds, AllPicks, Queue;
    PicksOwned(s, req);
    RoundsMembers(lists, r);
    RoundMembers(lists[..k], r);
    QueueMembers(out, t);
    forall c <- out ensures c.tenant != t {
      var l :| l in lists && c in l;
      var i :| 0 <= i < |lists| && lists[i] == l;
    }
    HeadIsMember(Queue(out, t));
  }

  lemma HeadIsMember<T>(s: seq<T>)
    ensures s == [] || s[0] in s
  {
  }

  lemma {:induction false} RoundMembers(lists: seq<seq<Task>>, r: nat)
    ensures forall c <- Round(lists, r) :: exists l <- lists :: c in l
  {
    if lists != [] {
      var n := |lists| - 1;
      RoundMembers(lists[..n], r);
      forall c <- Round(lists, r) ensures exists l <- lists :: c in l {
        if c in Round(lists[..n], r) {
          var l :| l in lists[..n] && c in l;
          assert l in lists;
        } else {
          assert c in lists[n] && lists[n] in lists;
        }
      }
    }
  }

  lemma {:induction false} RoundsMembers(lists: seq<seq<Task>>, r: nat)
    ensures forall c <- Rounds(lists, r) :: exists l <- lists :: c in l
  {
    if r > 0 {
      RoundsMembers(lists, r - 1);
      RoundMembers(lists, r - 1);
    }
  }

  /** Only candidates are claimed. */
  lemma SelectedMembers(s: seq<Task>, req: ClaimRequest, c: Task)
    requires c in Selected(s, req)
    ensures c in s
  {
    hide Queue, Firsts, Selected;
    var out := Selected(s, req);
    assert out[..|out|] == out;
    ShareAt(s, req, |out|, c.tenant, c.tenant);
    QueueMembers(out, c.tenant);
    FirstsMembers(Queue(s, c.tenant));
    QueueMembers(s, c.tenant);
  }

  // ----- one claim per entity -----

  predicate OnePerEntity(q: seq<Task>) {
    forall i, j :: 0 <= i < j < |q| ==> q[i].entity != q[j].entity
  }

  /** Firsts keeps, in order, the first candidate of every entity and nothing else. */
  lemma {:induction false} FirstsOnePerEntity(q: seq<Task>)
    ensures OnePerEntity(Firsts(q)) && Entities(Firsts(q)) == Entities(q)
    ensures forall c <- Firsts(q) :: exists i :: 0 <= i < |q| && q[i] == c && c.entity !in Entities(q[..i])
  {
    if q != [] {
      var n := |q| - 1;
      var before := Firsts(q[..n]);
      FirstsOnePerEntity(q[..n]);
      FirstsMembers(q);
      if q[n].entity !in Entities(q[..n]) {
        forall i | 0 <= i < |before| ensures before[i].entity != q[n].entity {
          assert before[i].entity in Entities(before);
        }
      }
      forall c <- Firsts(q) ensures exists i :: 0 <= i < |q| && q[i] == c && c.entity !in Entities(q[..i]) {
        if c in before {
          var i :| 0 <= i < n && q[..n][i] == c && c.entity !in Entities(q[..n][..i]);
          assert q[..n][..i] == q[..i] && q[i] == c;
        } else {
          assert q[n] == c;
        }
      }
    }
  }

  lemma {:induction false} QueueKeepsOrder(s: seq<Task>, i: nat, j: nat) returns (a: nat, b: nat)
    requires i < j < |s| && s[i].tenant == s[j].tenant
    ensures var q := Queue(s, s[i].tenant); a < b < |q| && q[a] == s[i] && q[b] == s[j]
    decreases |s|
  {
    var n := |s| - 1;
    if j < n {
      a, b := QueueKeepsOrder(s[..n], i, j);
    } else {
      var q := Queue(s[..n], s[i].tenant);
      QueueMembers(s[..n], s[i].tenant);
      assert s[..n][i] in q;
      a :| 0 <= a < |q| && q[a] == s[i];
      b := |q|;
    }
  }

  /** A claim call takes no two tasks of one entity, no tenant more than its quota, and no more
      than the limit in all; each claim is the first candidate of its entity. */
  lemma SelectedWithinBounds(s: seq<Task>, req: ClaimRequest, t: Text)
    requires ValidRequest(req)
    ensures var out := Selected(s, req);
      && |out| <= req.limit
      && |Queue(out, t)| <= (if Quota(req, t) > 0 then Quota(req, t) else 0)
      && forall i, j :: 0 <= i < j < |out| ==> (out[i].tenant, out[i].entity) != (out[j].tenant, out[j].entity)
  {
    hide Queue, Firsts, RoundRobin, AllPicks;
    var out := Selected(s, req);
    assert out[..|out|] == out;
    ShareAt(s, req, |out|, t, t);
    forall i, j | 0 <= i < j < |out| && out[i].tenant == out[j].tenant ensures out[i].entity != out[j].entity {
      var u := out[i].tenant;
      var a, b := QueueKeepsOrder(out, i, j);
      ShareAt(s, req, |out|, u, u);
      FirstsOnePerEntity(Queue(s, u));
    }
  }

  /** Fewer claims than the limit means every tenant has all its picks: its quota or its entities ran out. */
  lemma SelectedExhausts(s: seq<Task>, req: ClaimRequest, t: Text)
    requires |Selected(s, req)| < req.limit
    ensures Queue(Selected(s, req), t) == Picks(s, req, t)
  {
    hide Queue, Firsts, Rounds, Round;
    var tenants, lists := Tenants(s), AllPicks(s, req, Tenants(s));
    var n := Longest(lists);
    PicksOwned(s, req);
    if i :| 0 <= i < |tenants| && tenants[i] == t {
      assert lists[i] in lists;
      RoundsShare(lists, tenants, n, i);
    } else {
      RoundsStep(lists, n);
      assert Selected(s, req) == Rounds(lists, n) + Round(lists[..0], n);
      NoShare(s, req, n, 0, Selected(s, req), t);
    }
  }
}
