/** MergeOrdered and MergeBounded (merge_ordered.go, merge_bounded.go): a transaction's buffered
    entities merged into the committed rows, which come one at a time and may end in an error. */
module Merges {
  import opened Bytes
  import opened Wrappers
  import opened OrderCompare

  datatype Failure = SourceError(code: int) | LimitExceeded | BadLimit

  type Order = (Entity, Entity) -> int

  // ----- what is merged -----

  function Survivors(rows: seq<Entity>, deleted: set<Text>): seq<Entity> {
    if rows == [] then []
    else if rows[0].id in deleted then Survivors(rows[1..], deleted)
    else [rows[0]] + Survivors(rows[1..], deleted)
  }

  /** The merged order; an add takes the place of the row it equals. */
  function Merged(adds: seq<Entity>, rows: seq<Entity>, cmp: Order): seq<Entity>
    decreases |adds| + |rows|
  {
    if rows == [] then adds
    else if adds == [] then rows
    else
      var c := cmp(adds[0], rows[0]);
      if c < 0 then [adds[0]] + Merged(adds[1..], rows, cmp)
      else if c == 0 then [adds[0]] + Merged(adds[1..], rows[1..], cmp)
      else [rows[0]] + Merged(adds, rows[1..], cmp)
  }

  /** What is certain of the merge when rows are followed by ones that cannot be read. */
  function Certain(adds: seq<Entity>, rows: seq<Entity>, cmp: Order): seq<Entity>
    decreases |adds| + |rows|
  {
    if rows == [] then []
    else if adds == [] then rows
    else
      var c := cmp(adds[0], rows[0]);
      if c < 0 then [adds[0]] + Certain(adds[1..], rows, cmp)
      else if c == 0 then [adds[0]] + Certain(adds[1..], rows[1..], cmp)
      else [rows[0]] + Certain(adds, rows[1..], cmp)
  }

  function Yield(adds: seq<Entity>, rows: seq<Entity>, failure: Option<Failure>, cmp: Order): seq<Entity> {
    if failure.None? then Merged(adds, rows, cmp) else Certain(adds, rows, cmp)
  }

  lemma YieldStep(adds: seq<Entity>, rows: seq<Entity>, failure: Option<Failure>, cmp: Order)
    ensures rows == [] ==> Yield(adds, rows, failure, cmp) == if failure.None? then adds else []
    ensures adds == [] ==> Yield(adds, rows, failure, cmp) == rows
    ensures adds != [] && rows != [] ==>
      Yield(adds, rows, failure, cmp) ==
        var c := cmp(adds[0], rows[0]);
        if c < 0 then [adds[0]] + Yield(adds[1..], rows, failure, cmp)
        else if c == 0 then [adds[0]] + Yield(adds[1..], rows[1..], failure, cmp)
        else [rows[0]] + Yield(adds, rows[1..], failure, cmp)
  {
  }

  lemma AddYielded(adds: seq<Entity>, rows: seq<Entity>, failure: Option<Failure>, cmp: Order, take: Entity, left: seq<Entity>)
    requires adds == [take] + left && (if rows == [] then failure.None? else cmp(take, rows[0]) < 0)
    ensures Yield(adds, rows, failure, cmp) == [take] + Yield(left, rows, failure, cmp)
  {
    hide Yield;
    YieldStep(adds, rows, failure, cmp);
    YieldStep(left, rows, failure, cmp);
    assert adds[1..] == left;
  }

  lemma RowYielded(adds: seq<Entity>, rows: seq<Entity>, failure: Option<Failure>, cmp: Order, take: Entity, left: seq<Entity>)
    requires rows == [take] + left && (adds == [] || cmp(adds[0], take) > 0)
    ensures Yield(adds, rows, failure, cmp) == [take] + Yield(adds, left, failure, cmp)
  {
    hide Yield;
    YieldStep(adds, rows, failure, cmp);
    YieldStep(adds, left, failure, cmp);
    assert rows[1..] == left;
  }

  lemma BothYielded(adds: seq<Entity>, rows: seq<Entity>, failure: Option<Failure>, cmp: Order, take: Entity,
                    adds': seq<Entity>, rows': seq<Entity>)
    requires adds == [take] + adds' && rows != [] && rows == [rows[0]] + rows' && cmp(take, rows[0]) == 0
    ensures Yield(adds, rows, failure, cmp) == [take] + Yield(adds', rows', failure, cmp)
  {
    hide Yield;
    YieldStep(adds, rows, failure, cmp);
    assert adds[1..] == adds' && rows[1..] == rows';
  }

  // ----- MergeOrdered -----

  datatype Pulled = Entity(e: Entity) | End | Error(failure: Failure)

  /** The closure MergeOrdered returns: the committed stream, one row ahead, and the adds. */
  class OrderedMerge {
    const committed: seq<Entity>
    const failure: Option<Failure>  // how the committed stream ends
    const adds: seq<Entity>
    const deleted: set<Text>
    const cmp: Order
    var pos: nat
    var ai: nat
    var cur: Option<Entity>
    var pendingErr: Option<Failure>
    var started: bool

    ghost predicate Valid()
      reads this
    {
      && pos <= |committed| && ai <= |adds|
      && (!started ==> cur.None? && pendingErr.None? && pos == 0 && ai == 0)
      && (pendingErr.Some? ==> cur.None? && pendingErr == failure)
      && (started && cur.None? ==> pos == |committed| && pendingErr == failure)
    }

    /** The surviving rows still to come. */
    function Rows(): seq<Entity>
      requires pos <= |committed|
      reads this
    {
      (if cur.Some? then [cur.value] else []) + Survivors(committed[pos..], deleted)
    }

    /** What is still to be yielded. */
    function Left(): seq<Entity>
      requires pos <= |committed| && ai <= |adds|
      reads this
    {
      Yield(adds[ai..], Rows(), failure, cmp)
    }

    constructor (committed: seq<Entity>, failure: Option<Failure>, adds: seq<Entity>, deleted: set<Text>, cmp: Order)
      ensures Valid() && !started && this.failure == failure
      ensures Left() == Yield(adds, Survivors(committed, deleted), failure, cmp)
    {
      this.committed, this.failure, this.adds, this.deleted, this.cmp := committed, failure, adds, deleted, cmp;
      pos, ai, cur, pendingErr, started := 0, 0, None, None, false;
      new;
      assert this.committed[0..] == committed && this.adds[0..] == adds;
      assert [] + Survivors(committed, deleted) == Survivors(committed, deleted);
    }

    /** advance: the next row that is not deleted, or the end of the stream. */
    method Advance()
      requires pos <= |committed| && ai <= |adds| && pendingErr.None?
      modifies this`pos, this`cur, this`pendingErr
      ensures pos <= |committed| && Rows() == Survivors(old(committed[pos..]), deleted)
      ensures cur.None? ==> pos == |committed| && pendingErr == failure
      ensures cur.Some? ==> pendingErr.None?
    {
      cur := None;
      while pos < |committed|
        invariant pos <= |committed| && cur.None? && pendingErr.None?
        invariant Survivors(committed[pos..], deleted) == Survivors(old(committed[pos..]), deleted)
      {
        var e := committed[pos];
        assert committed[pos..][0] == e && committed[pos..][1..] == committed[pos + 1..];
        pos := pos + 1;
        if e.id in deleted {
          continue;
        }
        cur := Some(e);
        return;
      }
      pendingErr := failure;
    }

    method Start()
      requires Valid() && !started
      modifies this
      ensures Valid() && started && Left() == old(Left())
    {
      hide Yield, Survivors;
      assert [] + Survivors(committed[pos..], deleted) == Survivors(committed[pos..], deleted);
      started := true;
      Advance();
    }

    /** Takes the row held ahead and advances past it. */
    method TakeRow() returns (row: Entity)
      requires Valid() && started && cur.Some?
      modifies this`pos, this`cur, this`pendingErr
      ensures Valid() && row == old(cur.value) && old(Rows()) == [row] + Rows()
    {
      row := cur.value;
      Advance();
    }

    /** One pull: the first of what is left, or how the stream ends, again and again. */
    method Next() returns (r: Pulled)
      requires Valid()
      modifies this
      ensures Valid() && started
      ensures old(Left()) == [] ==>
        Left() == [] && r == (if failure.None? then End else Error(failure.value))
      ensures old(Left()) != [] ==> r == Pulled.Entity(old(Left())[0]) && Left() == old(Left())[1..]
    {
      hide Yield, Survivors;
      if !started {
        Start();
      }
      ghost var left, rows := adds[ai..], Rows();
      NoneAfter(committed, pos, deleted);
      if pendingErr.Some? {
        YieldStep(left, [], failure, cmp);
        return Error(pendingErr.value);
      }
      if cur.Some? && ai < |adds| {
        var c := cmp(adds[ai], cur.value);
        if c <= 0 {
          var take := adds[ai];
          ai := ai + 1;
          if c == 0 {
            var shadowed := TakeRow();
            BothYielded(left, rows, failure, cmp, take, adds[ai..], Rows());
          } else {
            AddYielded(left, rows, failure, cmp, take, adds[ai..]);
          }
          return Pulled.Entity(take);
        }
        var take := TakeRow();
        RowYielded(left, rows, failure, cmp, take, Rows());
        return Pulled.Entity(take);
      } else if ai < |adds| {
        ai := ai + 1;
        AddYielded(left, rows, failure, cmp, adds[ai - 1], adds[ai..]);
        return Pulled.Entity(adds[ai - 1]);
      } else if cur.Some? {
        var take := TakeRow();
        RowYielded(left, rows, failure, cmp, take, Rows());
        return Pulled.Entity(take);
      }
      YieldStep(left, rows, failure, cmp);
      return End;
    }
  }

  lemma NoneAfter(committed: seq<Entity>, pos: nat, deleted: set<Text>)
    requires pos <= |committed|
    ensures pos == |committed| ==> Survivors(committed[pos..], deleted) == []
  {
  }

  /** Pulled to its end, MergeOrdered yields the whole merge, or what is certain of it and then the
      source's error. */
  method Drain(committed: seq<Entity>, failure: Option<Failure>, adds: seq<Entity>, deleted: set<Text>, cmp: Order)
    returns (out: seq<Entity>, err: Option<Failure>)
    ensures err == failure && out == Yield(adds, Survivors(committed, deleted), failure, cmp)
  {
    hide Yield, Survivors;
    var m := new OrderedMerge(committed, failure, adds, deleted, cmp);
    out := [];
    ghost var all := m.Left();
    while true
      invariant m.Valid() && fresh(m) && m.failure == failure && out + m.Left() == all
      decreases |m.Left()|
    {
      ghost var left := m.Left();
      var r := m.Next();
      assert left != [] ==> left == [left[0]] + left[1..];
      match r
      case Entity(e) => out := out + [e];
      case End => return out, None;
      case Error(f) => return out, Some(f);
    }
  }

  // ----- what MergeOrdered's order is -----

  /** A comparison that orders: signs agree both ways round, and it chains. */
  ghost predicate TotalOrder(cmp: Order) {
    && (forall a, b :: (cmp(a, b) < 0 <==> cmp(b, a) > 0) && (cmp(a, b) == 0 <==> cmp(b, a) == 0))
    && forall a, b, c :: cmp(a, b) <= 0 && cmp(b, c) <= 0 ==>
         cmp(a, c) <= 0 && (cmp(a, b) < 0 || cmp(b, c) < 0 ==> cmp(a, c) < 0)
  }

  predicate Ascending(s: seq<Entity>, cmp: Order) {
    forall i, j :: 0 <= i < j < |s| ==> cmp(s[i], s[j]) < 0
  }

  predicate Above(e: Entity, s: seq<Entity>, cmp: Order) {
    forall i :: 0 <= i < |s| ==> cmp(e, s[i]) < 0
  }

  lemma AscendingCons(e: Entity, s: seq<Entity>, cmp: Order)
    requires Ascending(s, cmp) && Above(e, s, cmp)
    ensures Ascending([e] + s, cmp)
  {
  }

  lemma AscendingTail(s: seq<Entity>, cmp: Order)
    requires s != [] && Ascending(s, cmp)
    ensures Ascending(s[1..], cmp) && Above(s[0], s[1..], cmp)
  {
  }

  lemma AboveAll(e: Entity, s: seq<Entity>, cmp: Order)
    requires TotalOrder(cmp) && Ascending(s, cmp) && (s != [] ==> cmp(e, s[0]) < 0)
    ensures Above(e, s, cmp)
  {
    forall i | 0 <= i < |s| ensures cmp(e, s[i]) < 0 {
      assert i > 0 ==> cmp(s[0], s[i]) < 0;
    }
  }

  lemma {:induction false} AboveMerged(e: Entity, adds: seq<Entity>, rows: seq<Entity>, cmp: Order)
    requires Above(e, adds, cmp) && Above(e, rows, cmp)
    ensures Above(e, Merged(adds, rows, cmp), cmp)
    decreases |adds| + |rows|
  {
    if adds != [] && rows != [] {
      var c := cmp(adds[0], rows[0]);
      if c < 0 {
        AboveMerged(e, adds[1..], rows, cmp);
      } else if c == 0 {
        AboveMerged(e, adds[1..], rows[1..], cmp);
      } else {
        AboveMerged(e, adds, rows[1..], cmp);
      }
    }
  }

  /** The merge of two ascending inputs ascends strictly: nothing twice. */
  lemma {:induction false} MergedAscends(adds: seq<Entity>, rows: seq<Entity>, cmp: Order)
    requires TotalOrder(cmp) && Ascending(adds, cmp) && Ascending(rows, cmp)
    ensures Ascending(Merged(adds, rows, cmp), cmp)
    decreases |adds| + |rows|
  {
    if adds != [] && rows != [] {
      var a, r := adds[0], rows[0];
      AscendingTail(adds, cmp);
      AscendingTail(rows, cmp);
      hide TotalOrder, Ascending, Above;
      if cmp(a, r) < 0 {
        AboveAll(a, rows, cmp);
        AboveMerged(a, adds[1..], rows, cmp);
        MergedAscends(adds[1..], rows, cmp);
        AscendingCons(a, Merged(adds[1..], rows, cmp), cmp);
      } else if cmp(a, r) == 0 {
        AboveEqual(a, r, rows[1..], cmp);
        AboveMerged(a, adds[1..], rows[1..], cmp);
        MergedAscends(adds[1..], rows[1..], cmp);
        AscendingCons(a, Merged(adds[1..], rows[1..], cmp), cmp);
      } else {
        Turned(a, r, cmp);
        AboveAll(r, adds, cmp);
        AboveMerged(r, adds, rows[1..], cmp);
        MergedAscends(adds, rows[1..], cmp);
        AscendingCons(r, Merged(adds, rows[1..], cmp), cmp);
      }
    }
  }

  lemma AboveEqual(a: Entity, r: Entity, s: seq<Entity>, cmp: Order)
    requires TotalOrder(cmp) && cmp(a, r) == 0 && Above(r, s, cmp)
    ensures Above(a, s, cmp)
  {
  }

  lemma Turned(a: Entity, r: Entity, cmp: Order)
    requires TotalOrder(cmp) && cmp(a, r) > 0
    ensures cmp(r, a) < 0
  {
  }

  predicate Shadowed(e: Entity, adds: seq<Entity>, cmp: Order) {
    exists i :: 0 <= i < |adds| && cmp(adds[i], e) == 0
  }

  /** Every add, and exactly the surviving rows that no add equals. */
  lemma {:induction false} MergedMembers(adds: seq<Entity>, rows: seq<Entity>, cmp: Order, e: Entity)
    requires TotalOrder(cmp) && Ascending(adds, cmp) && Ascending(rows, cmp)
    ensures e in Merged(adds, rows, cmp) <==> e in adds || (e in rows && !Shadowed(e, adds, cmp))
    decreases |adds| + |rows|
  {
    if rows != [] && adds != [] {
      var a, r := adds[0], rows[0];
      AscendingTail(adds, cmp);
      AscendingTail(rows, cmp);
      assert adds == [a] + adds[1..] && rows == [r] + rows[1..];
      ShadowedCons(e, a, adds[1..], cmp);
      if cmp(a, r) < 0 {
        AboveAll(a, rows, cmp);
        MergedMembers(adds[1..], rows, cmp, e);
      } else if cmp(a, r) == 0 {
        AboveEqual(a, r, rows[1..], cmp);
        MergedMembers(adds[1..], rows[1..], cmp, e);
      } else {
        Turned(a, r, cmp);
        AboveAll(r, adds, cmp);
        MergedMembers(adds, rows[1..], cmp, e);
        NotShadowed(r, adds, cmp);
      }
    }
  }

  lemma ShadowedCons(e: Entity, a: Entity, adds: seq<Entity>, cmp: Order)
    ensures Shadowed(e, [a] + adds, cmp) <==> cmp(a, e) == 0 || Shadowed(e, adds, cmp)
  {
    var all := [a] + adds;
    if i :| 0 <= i < |adds| && cmp(adds[i], e) == 0 {
      assert all[i + 1] == adds[i];
    }
    if i :| 0 <= i < |all| && cmp(all[i], e) == 0 {
      assert i > 0 ==> adds[i - 1] == all[i];
    }
    assert all[0] == a;
  }

  lemma NotShadowed(r: Entity, adds: seq<Entity>, cmp: Order)
    requires TotalOrder(cmp) && Above(r, adds, cmp)
    ensures !Shadowed(r, adds, cmp)
  {
    forall i | 0 <= i < |adds| ensures cmp(adds[i], r) != 0 {
      assert cmp(r, adds[i]) < 0;
    }
  }

  lemma {:induction false} SurvivorsConcat(a: seq<Entity>, b: seq<Entity>, deleted: set<Text>)
    ensures Survivors(a + b, deleted) == Survivors(a, deleted) + Survivors(b, deleted)
  {
    if a == [] {
      assert a + b == b;
    } else {
      assert (a + b)[1..] == a[1..] + b;
      SurvivorsConcat(a[1..], b, deleted);
    }
  }

  lemma {:induction false} CertainIsPrefix(adds: seq<Entity>, rows: seq<Entity>, more: seq<Entity>, cmp: Order)
    ensures Certain(adds, rows, cmp) <= Merged(adds, rows + more, cmp)
    decreases |adds| + |rows|
  {
    if rows != [] {
      assert (rows + more)[0] == rows[0] && (rows + more)[1..] == rows[1..] + more;
      if adds != [] {
        var c := cmp(adds[0], rows[0]);
        if c < 0 {
          CertainIsPrefix(adds[1..], rows, more, cmp);
        } else if c == 0 {
          CertainIsPrefix(adds[1..], rows[1..], more, cmp);
        } else {
          CertainIsPrefix(adds, rows[1..], more, cmp);
        }
      }
    }
  }

  /** A run that ends in the source's error has yielded the beginning of the merge, however the
      unread rows would have gone on. */
  lemma ErrorYieldsPrefix(adds: seq<Entity>, committed: seq<Entity>, more: seq<Entity>, deleted: set<Text>, cmp: Order)
    ensures Certain(adds, Survivors(committed, deleted), cmp) <= Merged(adds, Survivors(committed + more, deleted), cmp)
  {
    SurvivorsConcat(committed, more, deleted);
    CertainIsPrefix(adds, Survivors(committed, deleted), Survivors(more, deleted), cmp);
  }

  // ----- MergeBounded -----

  /** The merge by the sort keys, both inputs kept whole, rows first where neither is less. */
  function MergedBy(adds: seq<Entity>, rows: seq<Entity>, specs: seq<OrderSpec>): seq<Entity>
    decreases |adds| + |rows|
  {
    if rows == [] then adds
    else if adds == [] then rows
    else if LessByOrder(adds[0], rows[0], specs) then [adds[0]] + MergedBy(adds[1..], rows, specs)
    else [rows[0]] + MergedBy(adds, rows[1..], specs)
  }

  /** The merge up to its last row. */
  function CertainBy(adds: seq<Entity>, rows: seq<Entity>, specs: seq<OrderSpec>): seq<Entity>
    decreases |adds| + |rows|
  {
    if rows == [] then []
    else if adds == [] then rows
    else if LessByOrder(adds[0], rows[0], specs) then [adds[0]] + CertainBy(adds[1..], rows, specs)
    else [rows[0]] + CertainBy(adds, rows[1..], specs)
  }

  function YieldBy(adds: seq<Entity>, rows: seq<Entity>, failure: Option<Failure>, specs: seq<OrderSpec>): seq<Entity> {
    if failure.None? then MergedBy(adds, rows, specs) else CertainBy(adds, rows, specs)
  }

  /** The next surviving row and where the stream stands after it; failed when the stream ends in an error first. */
  method AdvanceFrom(committed: seq<Entity>, failure: Option<Failure>, deleted: set<Text>, pos0: nat)
    returns (cur: Option<Entity>, pos: nat, failed: bool)
    requires pos0 <= |committed|
    ensures pos <= |committed|
    ensures Survivors(committed[pos0..], deleted) == Ahead(cur, committed, pos, deleted)
    ensures cur.None? ==> pos == |committed| && failed == failure.Some?
    ensures cur.Some? ==> !failed
  {
    pos := pos0;
    assert [] + Survivors(committed[pos..], deleted) == Survivors(committed[pos..], deleted);
    while pos < |committed|
      invariant pos <= |committed|
      invariant Survivors(committed[pos..], deleted) == Survivors(committed[pos0..], deleted)
    {
      var e := committed[pos];
      assert committed[pos..][0] == e && committed[pos..][1..] == committed[pos + 1..];
      pos := pos + 1;
      if e.id in deleted {
        continue;
      }
      return Some(e), pos, false;
    }
    return None, pos, failure.Some?;
  }

  /** The row held one ahead, and the surviving rows after it. */
  function Ahead(cur: Option<Entity>, committed: seq<Entity>, pos: nat, deleted: set<Text>): seq<Entity>
    requires pos <= |committed|
  {
    (if cur.Some? then [cur.value] else []) + Survivors(committed[pos..], deleted)
  }

  lemma YieldByStep(adds: seq<Entity>, rows: seq<Entity>, failure: Option<Failure>, specs: seq<OrderSpec>)
    ensures rows == [] ==> YieldBy(adds, rows, failure, specs) == if failure.None? then adds else []
    ensures adds == [] ==> YieldBy(adds, rows, failure, specs) == rows
    ensures adds != [] && rows != [] ==>
      YieldBy(adds, rows, failure, specs) ==
        if LessByOrder(adds[0], rows[0], specs) then [adds[0]] + YieldBy(adds[1..], rows, failure, specs)
        else [rows[0]] + YieldBy(adds, rows[1..], failure, specs)
  {
  }

  lemma AddTaken(adds: seq<Entity>, rows: seq<Entity>, failure: Option<Failure>, specs: seq<OrderSpec>, take: Entity,
                 left: seq<Entity>)
    requires adds == [take] + left && (if rows == [] then failure.None? else LessByOrder(take, rows[0], specs))
    ensures YieldBy(adds, rows, failure, specs) == [take] + YieldBy(left, rows, failure, specs)
  {
    hide YieldBy, LessByOrder;
    YieldByStep(adds, rows, failure, specs);
    YieldByStep(left, rows, failure, specs);
    assert adds[1..] == left;
  }

  lemma RowTaken(adds: seq<Entity>, rows: seq<Entity>, failure: Option<Failure>, specs: seq<OrderSpec>, take: Entity,
                 left: seq<Entity>)
    requires rows == [take] + left && (adds == [] || !LessByOrder(adds[0], take, specs))
    ensures YieldBy(adds, rows, failure, specs) == [take] + YieldBy(adds, left, failure, specs)
  {
    hide YieldBy, LessByOrder;
    YieldByStep(adds, rows, failure, specs);
    YieldByStep(adds, left, failure, specs);
    assert rows[1..] == left;
  }

  /** What MergeBounded answers, all being the merge up to where it is certain: the whole merge within
      the limit, the limit error past it, the source's error where its last row is taken by then. */
  function Bounded(all: seq<Entity>, failure: Option<Failure>, limit: int): Result<seq<Entity>, Failure> {
    if failure.None? then
      if |all| <= limit then Success(all) else Failure(LimitExceeded)
    else if |all| <= limit + 1 then Failure(failure.value)
    else Failure(LimitExceeded)
  }

  lemma PastLimit(all: seq<Entity>, out: seq<Entity>, left: seq<Entity>, rows: seq<Entity>, failure: Option<Failure>,
                  specs: seq<OrderSpec>, limit: int)
    requires all == out + YieldBy(left, rows, failure, specs) && |out| == limit + 1
    requires failure.Some? ==> rows != []
    ensures Bounded(all, failure, limit) == Result.Failure(LimitExceeded)
  {
    hide YieldBy, LessByOrder;
    YieldByStep(left, rows, failure, specs);
  }

  method MergeBounded(committed: seq<Entity>, failure: Option<Failure>, adds: seq<Entity>, deleted: set<Text>,
                      specs: seq<OrderSpec>, limit: int)
    returns (r: Result<seq<Entity>, Failure>)
    ensures r == if limit <= 0 then Result.Failure(BadLimit)
                 else Bounded(YieldBy(adds, Survivors(committed, deleted), failure, specs), failure, limit)
  {
    hide YieldBy, Survivors, LessByOrder;
    if limit <= 0 {
      return Result.Failure(BadLimit);
    }
    ghost var all := YieldBy(adds, Survivors(committed, deleted), failure, specs);
    var need := limit + 1;
    var out, ai := [], 0;
    assert committed[0..] == committed && adds[0..] == adds;
    var cur, pos, failed := AdvanceFrom(committed, failure, deleted, 0);
    NoneAfter(committed, pos, deleted);
    if failed {
      YieldByStep(adds, [], failure, specs);
      return Result.Failure(failure.value);
    }
    while cur.Some? || ai < |adds|
      invariant 0 <= ai <= |adds| && 0 <= pos <= |committed| && |out| < need
      invariant cur.None? ==> pos == |committed| && failure.None?
      invariant out + YieldBy(adds[ai..], Ahead(cur, committed, pos, deleted), failure, specs) == all
      decreases need - |out|
    {
      ghost var left, rows := adds[ai..], Ahead(cur, committed, pos, deleted);
      NoneAfter(committed, pos, deleted);
      var take: Entity;
      if ai < |adds| && (cur.None? || LessByOrder(adds[ai], cur.value, specs)) {
        take := adds[ai];
        ai := ai + 1;
        AddTaken(left, rows, failure, specs, take, adds[ai..]);
      } else {
        take := cur.value;
        cur, pos, failed := AdvanceFrom(committed, failure, deleted, pos);
        RowTaken(left, rows, failure, specs, take, Ahead(cur, committed, pos, deleted));
        if failed {
          NoneAfter(committed, pos, deleted);
          YieldByStep(left, [], failure, specs);
          return Result.Failure(failure.value);
        }
      }
      out := out + [take];
      assert out + YieldBy(adds[ai..], Ahead(cur, committed, pos, deleted), failure, specs) == all;
      if |out| >= need {
        PastLimit(all, out, adds[ai..], Ahead(cur, committed, pos, deleted), failure, specs, limit);
        break;
      }
    }
    if |out| > limit {
      return Result.Failure(LimitExceeded);
    }
    NoneAfter(committed, pos, deleted);
    assert adds[ai..] == [] && Ahead(cur, committed, pos, deleted) == [];
    YieldByStep([], [], failure, specs);
    assert out + [] == out;
    return Success(out);
  }

  // ----- what MergeBounded's order is -----

  predicate AscendingBy(s: seq<Entity>, specs: seq<OrderSpec>) {
    forall i, j :: 0 <= i < j < |s| ==> LessByOrder(s[i], s[j], specs)
  }

  predicate AboveBy(e: Entity, s: seq<Entity>, specs: seq<OrderSpec>) {
    forall i :: 0 <= i < |s| ==> LessByOrder(e, s[i], specs)
  }

  predicate DistinctIds(a: seq<Entity>, b: seq<Entity>) {
    forall i, j :: 0 <= i < |a| && 0 <= j < |b| ==> a[i].id != b[j].id
  }

  lemma AboveByAll(e: Entity, s: seq<Entity>, specs: seq<OrderSpec>)
    requires AscendingBy(s, specs) && (s != [] ==> LessByOrder(e, s[0], specs))
    ensures AboveBy(e, s, specs)
  {
    hide LessByOrder;
    forall i | 0 <= i < |s| ensures LessByOrder(e, s[i], specs) {
      if i > 0 {
        OrderTransitive(e, s[0], s[i], specs);
      }
    }
  }

  lemma {:induction false} AboveMergedBy(e: Entity, adds: seq<Entity>, rows: seq<Entity>, specs: seq<OrderSpec>)
    requires AboveBy(e, adds, specs) && AboveBy(e, rows, specs)
    ensures AboveBy(e, MergedBy(adds, rows, specs), specs)
    decreases |adds| + |rows|
  {
    hide LessByOrder;
    if adds != [] && rows != [] {
      if LessByOrder(adds[0], rows[0], specs) {
        AboveMergedBy(e, adds[1..], rows, specs);
      } else {
        AboveMergedBy(e, adds, rows[1..], specs);
      }
    }
  }

  lemma AscendingByCons(e: Entity, s: seq<Entity>, specs: seq<OrderSpec>)
    requires AscendingBy(s, specs) && AboveBy(e, s, specs)
    ensures AscendingBy([e] + s, specs)
  {
    hide LessByOrder;
  }

  lemma AscendingByTail(s: seq<Entity>, specs: seq<OrderSpec>)
    requires s != [] && AscendingBy(s, specs)
    ensures AscendingBy(s[1..], specs) && AboveBy(s[0], s[1..], specs)
  {
    hide LessByOrder;
  }

  /** What MergeBounded returns is in the order of the keys. */
  lemma {:induction false} MergedByAscends(adds: seq<Entity>, rows: seq<Entity>, specs: seq<OrderSpec>)
    requires AscendingBy(adds, specs) && AscendingBy(rows, specs) && DistinctIds(adds, rows)
    ensures AscendingBy(MergedBy(adds, rows, specs), specs)
    decreases |adds| + |rows|
  {
    if adds != [] && rows != [] {
      AscendingByTail(adds, specs);
      AscendingByTail(rows, specs);
      hide LessByOrder, AscendingBy, AboveBy;
      if LessByOrder(adds[0], rows[0], specs) {
        AboveByAll(adds[0], rows, specs);
        AboveMergedBy(adds[0], adds[1..], rows, specs);
        MergedByAscends(adds[1..], rows, specs);
        AscendingByCons(adds[0], MergedBy(adds[1..], rows, specs), specs);
      } else {
        OrderTotal(adds[0], rows[0], specs);
        AboveByAll(rows[0], adds, specs);
        AboveMergedBy(rows[0], adds, rows[1..], specs);
        MergedByAscends(adds, rows[1..], specs);
        AscendingByCons(rows[0], MergedBy(adds, rows[1..], specs), specs);
      }
    }
  }

  /** And it is every add and every survivor, each as often as given. */
  lemma {:induction false} MergedByKeepsAll(adds: seq<Entity>, rows: seq<Entity>, specs: seq<OrderSpec>)
    ensures multiset(MergedBy(adds, rows, specs)) == multiset(adds) + multiset(rows)
    ensures |MergedBy(adds, rows, specs)| == |adds| + |rows|
    decreases |adds| + |rows|
  {
    hide LessByOrder;
    if adds != [] && rows != [] {
      assert adds == [adds[0]] + adds[1..] && rows == [rows[0]] + rows[1..];
      if LessByOrder(adds[0], rows[0], specs) {
        MergedByKeepsAll(adds[1..], rows, specs);
      } else {
        MergedByKeepsAll(adds, rows[1..], specs);
      }
    }
  }
}
