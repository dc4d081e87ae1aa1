/**
  Sums over a ledger's entries, and the algebra of the expiry sweep: its closed form, its
  independence of the iteration order, and what two sweeps in a row amount to.
*/
module RiskSweep {
  import opened RiskLedger

  // ------------------------------------------------------------------ sums over entries

  const ALL: set<Status> := {Reserved, Released, Settled, Expired}

  function Weight(r: Reservation, statuses: set<Status>): Totals {
    if r.status in statuses then Totals(r.notional, r.margin, 1) else ZERO
  }

  ghost function AnyKey(m: Reservations): (k: string)
    requires m != map[]
    ensures k in m
  {
    var k :| k in m; k
  }

  /** Notional, margin and number of the entries whose status is one of `statuses`. */
  ghost function Sum(m: Reservations, statuses: set<Status>): Totals
    decreases |m|
  {
    if m == map[] then ZERO else
    var k := AnyKey(m);
    Plus(Weight(m[k], statuses), Sum((m - {k}), statuses))
  }

  ghost function Reserves(m: Reservations): Totals {
    Sum(m, {Reserved})
  }

  lemma PlusAlgebra(a: Totals, b: Totals, c: Totals)
    ensures Plus(a, Plus(b, c)) == Plus(b, Plus(a, c))
    ensures Plus(Plus(a, b), c) == Plus(a, Plus(b, c))
    ensures Plus(ZERO, a) == a
  {
  }

  lemma SumEmpty(statuses: set<Status>)
    ensures Sum(map[], statuses) == ZERO
  {
  }

  lemma {:induction false} SumRemove(m: Reservations, k: string, statuses: set<Status>)
    requires k in m
    ensures Sum(m, statuses) == Plus(Weight(m[k], statuses), Sum(m - {k}, statuses))
    decreases |m|
  {
    var j := AnyKey(m);
    if j != k {
      var mj, mk := m - {j}, m - {k};
      assert mj - {k} == mk - {j};
      assert |mj| < |m| && |mk| < |m|;
      SumRemove(mj, k, statuses);
      SumRemove(mk, j, statuses);
      PlusAlgebra(Weight(m[j], statuses), Weight(m[k], statuses), Sum(mj - {k}, statuses));
    }
  }

  lemma SumPut(m: Reservations, k: string, r: Reservation, statuses: set<Status>)
    ensures Sum(m[k := r], statuses) == Plus(Weight(r, statuses), Sum(m - {k}, statuses))
  {
    assert m[k := r] - {k} == m - {k};
    SumRemove(m[k := r], k, statuses);
  }

  lemma SumAdd(m: Reservations, k: string, r: Reservation, statuses: set<Status>)
    requires k !in m
    ensures Sum(m[k := r], statuses) == Plus(Weight(r, statuses), Sum(m, statuses))
  {
    assert m - {k} == m;
    SumPut(m, k, r, statuses);
  }

  /** Sums see only which entries are selected and their amounts. */
  lemma {:induction false} SumCongruent(m: Reservations, n: Reservations, statuses: set<Status>)
    requires m.Keys == n.Keys
    requires forall k :: k in m ==> Weight(m[k], statuses) == Weight(n[k], statuses)
    ensures Sum(m, statuses) == Sum(n, statuses)
    decreases |m|
  {
    if m == map[] {
      assert n == map[];
    } else {
      var k :| k in m;
      var mk, nk := m - {k}, n - {k};
      SumRemove(m, k, statuses);
      SumRemove(n, k, statuses);
      assert |mk| < |m|;
      SumCongruent(mk, nk, statuses);
    }
  }

  predicate NonNegative(m: Reservations) {
    forall k :: k in m ==> m[k].notional >= 0.0 && m[k].margin >= 0.0
  }

  predicate AtMost(s: Totals, t: Totals) {
    s.notional <= t.notional && s.margin <= t.margin && s.orders <= t.orders
  }

  lemma PlusNonNegative(a: Totals, b: Totals)
    requires AtMost(ZERO, a) && AtMost(ZERO, b)
    ensures AtMost(ZERO, Plus(a, b))
  {
  }

  lemma {:induction false} SumNonNegative(m: Reservations, statuses: set<Status>)
    requires NonNegative(m)
    ensures AtMost(ZERO, Sum(m, statuses))
    decreases |m|
  {
    if m == map[] {
      SumEmpty(statuses);
    } else {
      var k :| k in m;
      var rest := m - {k};
      SumRemove(m, k, statuses);
      assert |rest| < |m| && AtMost(ZERO, Weight(m[k], statuses));
      SumNonNegative(rest, statuses);
      PlusNonNegative(Weight(m[k], statuses), Sum(rest, statuses));
    }
  }

  // ------------------------------------------------------------------ what a sweep does

  function ExpireEntry(r: Reservation, now: int): Reservation {
    if Due(r, now) then r.(status := Expired) else r
  }

  /** Every due entry marked expired, all others as they were. */
  function Swept(m: Reservations, now: int): Reservations {
    map k | k in m :: ExpireEntry(m[k], now)
  }

  function DueIn(m: Reservations, todo: set<string>, now: int): Reservations {
    map k | k in m && k in todo && Due(m[k], now) :: m[k]
  }

  function Subtract(t: Totals, s: Totals): Totals {
    Totals(Max0(t.notional - s.notional), Max0(t.margin - s.margin),
           if t.orders >= s.orders then t.orders - s.orders else 0)
  }

  /** The totals after entries `d` have been subtracted: clamped once, and only if there are any. */
  ghost function Drained(t: Totals, d: Reservations): Totals {
    if d == map[] then t else Subtract(t, Reserves(d))
  }

  lemma {:induction false} SweepFromEntries(l: Ledger, todo: set<string>, visit: seq<string>, now: int)
    requires todo <= l.reservations.Keys
    ensures var s := SweepFrom(l, todo, visit, now);
            s.policy == l.policy &&
            s.reservations ==
            map k | k in l.reservations :: if k in todo then ExpireEntry(l.reservations[k], now) else l.reservations[k]
    decreases |todo|
  {
    if todo != {} {
      var k := NextKey(todo, visit);
      SweepFromEntries(ExpireOne(l, k, now), todo - {k}, Rest(visit), now);
    }
  }

  /** Which entries a sweep expires does not depend on the iteration order, whatever the amounts. */
  lemma SweepEntries(l: Ledger, visit: seq<string>, now: int)
    ensures Sweep(l, visit, now).policy == l.policy
    ensures Sweep(l, visit, now).reservations == Swept(l.reservations, now)
  {
    SweepFromEntries(l, l.reservations.Keys, visit, now);
  }

  lemma SubtractNext(t: Totals, r: Reservation, rest: Totals)
    requires r.status == Reserved && AtMost(ZERO, rest)
    ensures Subtract(ClampMinus(t, r), rest) == Subtract(t, Plus(Weight(r, {Reserved}), rest))
    ensures ClampMinus(t, r) == Subtract(t, Plus(Weight(r, {Reserved}), ZERO))
  {
  }

  lemma {:induction false} SweepFromTotals(l: Ledger, todo: set<string>, visit: seq<string>, now: int)
    requires todo <= l.reservations.Keys && NonNegative(l.reservations)
    ensures SweepFrom(l, todo, visit, now).totals == Drained(l.totals, DueIn(l.reservations, todo, now))
    decreases |todo|
  {
    var d := DueIn(l.reservations, todo, now);
    if todo == {} {
      assert d == map[];
    } else {
      var k := NextKey(todo, visit);
      var l' := ExpireOne(l, k, now);
      SweepFromTotals(l', todo - {k}, Rest(visit), now);
      var d' := DueIn(l'.reservations, todo - {k}, now);
      if Due(l.reservations[k], now) {
        assert k in d && d[k] == l.reservations[k] && d' == d - {k};
        SumRemove(d, k, {Reserved});
        SumNonNegative(d', {Reserved});
        SubtractNext(l.totals, d[k], Reserves(d'));
        SumEmpty({Reserved});
      } else {
        assert d' == d;
      }
    }
  }

  /** With non-negative amounts the clamped, entry-by-entry loop subtracts the due sum once. */
  lemma SweepTotals(l: Ledger, visit: seq<string>, now: int)
    requires NonNegative(l.reservations)
    ensures Sweep(l, visit, now).totals == Drained(l.totals, DueIn(l.reservations, l.reservations.Keys, now))
  {
    SweepFromTotals(l, l.reservations.Keys, visit, now);
  }

  lemma SweepOrderIrrelevant(l: Ledger, visit0: seq<string>, visit1: seq<string>, now: int)
    requires NonNegative(l.reservations)
    ensures Sweep(l, visit0, now) == Sweep(l, visit1, now)
  {
    SweepEntries(l, visit0, now);
    SweepEntries(l, visit1, now);
    SweepTotals(l, visit0, now);
    SweepTotals(l, visit1, now);
  }

  /** Where nothing is due a sweep changes nothing, whatever the amounts. */
  lemma {:induction false} SweepFromNothing(l: Ledger, todo: set<string>, visit: seq<string>, now: int)
    requires todo <= l.reservations.Keys && forall k :: k in l.reservations ==> !Due(l.reservations[k], now)
    ensures SweepFrom(l, todo, visit, now) == l
    decreases |todo|
  {
    if todo != {} {
      SweepFromNothing(l, todo - {NextKey(todo, visit)}, Rest(visit), now);
    }
  }

  lemma SweepLeavesOnlyLive(l: Ledger, visit: seq<string>, now: int)
    ensures forall k :: k in Sweep(l, visit, now).reservations &&
                        Sweep(l, visit, now).reservations[k].status == Reserved ==>
                          Sweep(l, visit, now).reservations[k].expiresAt > now
  {
    SweepEntries(l, visit, now);
  }

  lemma UnionSplit(a: Reservations, b: Reservations, k: string)
    requires a.Keys !! b.Keys
    ensures a == map[] ==> a + b == b
    ensures k in a ==> (a + b) - {k} == (a - {k}) + b && k in a + b && (a + b)[k] == a[k]
  {
  }

  lemma {:induction false} SumDisjoint(a: Reservations, b: Reservations, statuses: set<Status>)
    requires a.Keys !! b.Keys
    ensures Sum(a + b, statuses) == Plus(Sum(a, statuses), Sum(b, statuses))
    decreases |a|
  {
    if a == map[] {
      UnionSplit(a, b, "");
      PlusAlgebra(Sum(b, statuses), ZERO, ZERO);
    } else {
      var k := AnyKey(a);
      UnionSplit(a, b, k);
      SumRemove(a + b, k, statuses);
      assert |a - {k}| < |a|;
      SumDisjoint(a - {k}, b, statuses);
      PlusAlgebra(Weight(a[k], statuses), Sum(a - {k}, statuses), Sum(b, statuses));
    }
  }

  lemma SubtractTwice(t: Totals, a: Totals, b: Totals)
    requires AtMost(ZERO, a) && AtMost(ZERO, b)
    ensures Subtract(Subtract(t, a), b) == Subtract(t, Plus(a, b))
  {
  }

  lemma DrainTwice(t: Totals, d1: Reservations, d2: Reservations)
    requires d1.Keys !! d2.Keys && NonNegative(d1) && NonNegative(d2)
    ensures Drained(Drained(t, d1), d2) == Drained(t, d1 + d2)
  {
    if d1 == map[] {
      UnionSplit(d1, d2, "");
    } else if d2 == map[] {
      assert d1 + d2 == d1;
    } else {
      var k := AnyKey(d1);
      assert k in d1 + d2;
      SumDisjoint(d1, d2, {Reserved});
      SumNonNegative(d1, {Reserved});
      SumNonNegative(d2, {Reserved});
      SubtractTwice(t, Reserves(d1), Reserves(d2));
    }
  }

  /** What is due at the later of two times is due at `t1`, or still reserved then and due at `t2`. */
  lemma DueInTwo(m: Reservations, t1: int, t2: int)
    ensures DueIn(m, m.Keys, if t1 <= t2 then t2 else t1) ==
            DueIn(m, m.Keys, t1) + DueIn(Swept(m, t1), Swept(m, t1).Keys, t2)
    ensures DueIn(m, m.Keys, t1).Keys !! DueIn(Swept(m, t1), Swept(m, t1).Keys, t2).Keys
  {
  }

  /** Sweeping at `t1` and then at `t2` is one sweep at the later of the two. */
  lemma SweepTwice(l: Ledger, visit1: seq<string>, t1: int, visit2: seq<string>, t2: int, visit: seq<string>)
    requires NonNegative(l.reservations)
    ensures Sweep(Sweep(l, visit1, t1), visit2, t2) == Sweep(l, visit, if t1 <= t2 then t2 else t1)
  {
    var s1 := Sweep(l, visit1, t1);
    var t := if t1 <= t2 then t2 else t1;
    SweepEntries(l, visit1, t1);
    SweepTotals(l, visit1, t1);
    SweepEntries(s1, visit2, t2);
    SweepTotals(s1, visit2, t2);
    SweepEntries(l, visit, t);
    SweepTotals(l, visit, t);
    var d1 := DueIn(l.reservations, l.reservations.Keys, t1);
    var d2 := DueIn(s1.reservations, s1.reservations.Keys, t2);
    DueInTwo(l.reservations, t1, t2);
    DrainTwice(l.totals, d1, d2);
  }
}
