// common/revocation/jti_denylist.py: the bounded, swept set of revoked token ids.
//
// Added and Swept are what one operation does to the contents; the class in DenylistStore is proved
// against them. What the denylist promises over a whole history of adds and sweeps is proved here.

module Denylist {
  import opened Common

  type Jti = string

  // One revoked token id with the expiry it was last recorded with.
  datatype Entry = Entry(jti: Jti, exp: Time)

  predicate Has(items: seq<Entry>, j: Jti) {
    exists e :: e in items && e.jti == j
  }

  ghost predicate Distinct(items: seq<Entry>) {
    forall i, k :: 0 <= i < k < |items| ==> items[i].jti != items[k].jti
  }

  ghost function JtiSet(items: seq<Entry>): set<Jti> {
    set e | e in items :: e.jti
  }

  // The entries other than the one for j, in order.
  function Without(items: seq<Entry>, j: Jti): seq<Entry> {
    if items == [] then []
    else (if items[0].jti == j then [] else [items[0]]) + Without(items[1..], j)
  }

  // The contents after add(j, exp): re-adding moves to the recent end, a full list drops its oldest entry.
  function Added(items: seq<Entry>, cap: nat, j: Jti, exp: Time): seq<Entry> {
    if Has(items, j) then Without(items, j) + [Entry(j, exp)]
    else if |items| >= cap && |items| > 0 then items[1..] + [Entry(j, exp)]
    else items + [Entry(j, exp)]
  }

  // The contents after a sweep with this cutoff.
  function Swept(items: seq<Entry>, cutoff: Time): seq<Entry> {
    if items == [] then []
    else (if items[0].exp < cutoff then [] else [items[0]]) + Swept(items[1..], cutoff)
  }

  // ---------------------------------------------------------------------------------------------
  // Facts about one operation
  // ---------------------------------------------------------------------------------------------

  lemma {:induction false} WithoutFacts(items: seq<Entry>, j: Jti)
    ensures forall e :: e in Without(items, j) <==> e in items && e.jti != j
    ensures |Without(items, j)| <= |items|
    ensures Has(items, j) ==> |Without(items, j)| < |items|
    ensures !Has(items, j) ==> Without(items, j) == items
  {
    if items != [] {
      WithoutFacts(items[1..], j);
      assert items == [items[0]] + items[1..];
    }
  }

  // sub is what is left of items after some of its entries are deleted.
  ghost predicate Subsequence(sub: seq<Entry>, items: seq<Entry>) {
    if sub == [] then true
    else if items == [] then false
    else if sub[0] == items[0] && Subsequence(sub[1..], items[1..]) then true
    else Subsequence(sub, items[1..])
  }

  lemma {:induction false} SubsequenceOfItself(items: seq<Entry>)
    ensures Subsequence(items, items)
  {
    if items != [] { SubsequenceOfItself(items[1..]); }
  }

  lemma {:induction false} WithoutKeepsOrder(items: seq<Entry>, j: Jti)
    ensures Subsequence(Without(items, j), items)
  {
    if items != [] {
      WithoutKeepsOrder(items[1..], j);
      assert if items[0].jti == j then Without(items, j) == Without(items[1..], j)
             else Without(items, j)[1..] == Without(items[1..], j);
    }
  }

  lemma {:induction false} SweptFacts(items: seq<Entry>, cutoff: Time)
    ensures forall e :: e in Swept(items, cutoff) <==> e in items && e.exp >= cutoff
    ensures |Swept(items, cutoff)| <= |items|
  {
    if items != [] {
      SweptFacts(items[1..], cutoff);
      assert items == [items[0]] + items[1..];
    }
  }

  // A sweep deletes exactly the entries that expired before the cutoff and keeps the others in order.
  lemma {:induction false} SweepIsExact(items: seq<Entry>, cutoff: Time)
    ensures forall e :: e in Swept(items, cutoff) <==> e in items && !(e.exp < cutoff)
    ensures Subsequence(Swept(items, cutoff), items)
  {
    SweptFacts(items, cutoff);
    if items != [] {
      SweepIsExact(items[1..], cutoff);
      assert if items[0].exp < cutoff then Swept(items, cutoff) == Swept(items[1..], cutoff)
             else Swept(items, cutoff)[1..] == Swept(items[1..], cutoff);
    }
  }

  // ---------------------------------------------------------------------------------------------
  // Histories
  // ---------------------------------------------------------------------------------------------

  datatype Op = Add(jti: Jti, exp: Time) | Sweep(cutoff: Time)

  // The contents after a history of operations on an empty denylist.
  function Replay(h: seq<Op>, cap: nat): seq<Entry> {
    if h == [] then []
    else
      var before := Replay(h[..|h| - 1], cap);
      match h[|h| - 1]
      case Add(j, e) => Added(before, cap, j, e)
      case Sweep(c) => Swept(before, c)
  }

  lemma ReplayOneMore(h: seq<Op>, op: Op, cap: nat)
    ensures op.Add? ==> Replay(h + [op], cap) == Added(Replay(h, cap), cap, op.jti, op.exp)
    ensures op.Sweep? ==> Replay(h + [op], cap) == Swept(Replay(h, cap), op.cutoff)
  {
    assert (h + [op])[..|h|] == h;
  }

  // Index of the last add of j in h, or -1.
  function LastAdd(h: seq<Op>, j: Jti): (r: int)
    ensures -1 <= r < |h|
    ensures r >= 0 ==> h[r].Add? && h[r].jti == j
    ensures forall i :: r < i < |h| ==> !(h[i].Add? && h[i].jti == j)
  {
    if h == [] then -1
    else if h[|h| - 1].Add? && h[|h| - 1].jti == j then |h| - 1
    else LastAdd(h[..|h| - 1], j)
  }

  // The distinct token ids added strictly after position i.
  ghost function AddedAfter(h: seq<Op>, i: int): set<Jti> {
    set k | 0 <= k < |h| && i < k && h[k].Add? :: h[k].jti
  }

  // A sweep that runs after position i with a cutoff beyond exp.
  ghost predicate SweptAfter(h: seq<Op>, i: int, exp: Time) {
    exists k :: i < k < |h| && 0 <= k && h[k].Sweep? && h[k].cutoff > exp
  }

  // The denylist lists its token ids in order of last add, each with its latest expiry.
  ghost predicate OrderedByLastAdd(h: seq<Op>, items: seq<Entry>) {
    && (forall e :: e in items ==> LastAdd(h, e.jti) >= 0 && h[LastAdd(h, e.jti)].exp == e.exp)
    && (forall i, k :: 0 <= i < k < |items| ==> LastAdd(h, items[i].jti) < LastAdd(h, items[k].jti))
  }

  lemma {:induction false} SubsequenceMembers(sub: seq<Entry>, items: seq<Entry>)
    requires Subsequence(sub, items)
    ensures forall e :: e in sub ==> e in items
  {
    if sub != [] {
      assert items == [items[0]] + items[1..];
      assert sub == [sub[0]] + sub[1..];
      if sub[0] == items[0] && Subsequence(sub[1..], items[1..]) {
        SubsequenceMembers(sub[1..], items[1..]);
      } else {
        SubsequenceMembers(sub, items[1..]);
      }
    }
  }

  lemma OrderedTail(h: seq<Op>, items: seq<Entry>)
    requires OrderedByLastAdd(h, items) && items != []
    ensures OrderedByLastAdd(h, items[1..])
    ensures forall e :: e in items[1..] ==> LastAdd(h, items[0].jti) < LastAdd(h, e.jti)
  {
  }

  lemma PairInOrder(h: seq<Op>, x: Entry, rest: seq<Entry>, i: nat, k: nat)
    requires OrderedByLastAdd(h, rest)
    requires forall e :: e in rest ==> LastAdd(h, x.jti) < LastAdd(h, e.jti)
    requires i < k <= |rest|
    ensures LastAdd(h, ([x] + rest)[i].jti) < LastAdd(h, ([x] + rest)[k].jti)
  {
    assert ([x] + rest)[k] == rest[k - 1] && rest[k - 1] in rest;
    if i == 0 {
      assert ([x] + rest)[i] == x;
    } else {
      assert ([x] + rest)[i] == rest[i - 1];
    }
  }

  lemma OrderedCons(h: seq<Op>, x: Entry, rest: seq<Entry>)
    requires OrderedByLastAdd(h, rest)
    requires LastAdd(h, x.jti) >= 0 && h[LastAdd(h, x.jti)].exp == x.exp
    requires forall e :: e in rest ==> LastAdd(h, x.jti) < LastAdd(h, e.jti)
    ensures OrderedByLastAdd(h, [x] + rest)
  {
    forall i, k | 0 <= i < k < |[x] + rest|
      ensures LastAdd(h, ([x] + rest)[i].jti) < LastAdd(h, ([x] + rest)[k].jti)
    {
      PairInOrder(h, x, rest, i, k);
    }
  }

  lemma {:induction false} SubsequenceStaysOrdered(h: seq<Op>, sub: seq<Entry>, items: seq<Entry>)
    requires OrderedByLastAdd(h, items)
    requires Subsequence(sub, items)
    ensures OrderedByLastAdd(h, sub)
  {
    if sub != [] {
      OrderedTail(h, items);
      if sub[0] == items[0] && Subsequence(sub[1..], items[1..]) {
        SubsequenceStaysOrdered(h, sub[1..], items[1..]);
        SubsequenceMembers(sub[1..], items[1..]);
        OrderedCons(h, sub[0], sub[1..]);
        assert sub == [sub[0]] + sub[1..];
      } else {
        SubsequenceStaysOrdered(h, sub, items[1..]);
      }
    }
  }

  // An operation that does not add any listed token id leaves the order as it was.
  lemma ExtendOrder(h: seq<Op>, op: Op, items: seq<Entry>)
    requires OrderedByLastAdd(h, items)
    requires op.Add? ==> !Has(items, op.jti)
    ensures OrderedByLastAdd(h + [op], items)
  {
    assert (h + [op])[..|h|] == h;
    forall e | e in items
      ensures LastAdd(h + [op], e.jti) == LastAdd(h, e.jti) >= 0 && (h + [op])[LastAdd(h, e.jti)].exp == e.exp
    {
      var i :| 0 <= i < |items| && items[i] == e;
      assert op.Add? ==> e.jti != op.jti;
    }
  }

  // What an add keeps of the old entries: a subsequence without j.
  function Kept(items: seq<Entry>, cap: nat, j: Jti): seq<Entry> {
    if Has(items, j) then Without(items, j)
    else if |items| >= cap && |items| > 0 then items[1..]
    else items
  }

  lemma KeptFacts(items: seq<Entry>, cap: nat, j: Jti, exp: Time)
    ensures Added(items, cap, j, exp) == Kept(items, cap, j) + [Entry(j, exp)]
    ensures forall e :: e in Kept(items, cap, j) ==> e in items && e.jti != j
    ensures cap >= 1 && |items| <= cap ==> |Kept(items, cap, j)| < cap
  {
    WithoutFacts(items, j);
  }

  lemma KeptKeepsOrder(items: seq<Entry>, cap: nat, j: Jti)
    ensures Subsequence(Kept(items, cap, j), items)
  {
    WithoutKeepsOrder(items, j);
    SubsequenceOfItself(items);
    if items != [] { SubsequenceOfItself(items[1..]); }
  }

  // The newest entry goes last.
  lemma OrderedSnoc(h: seq<Op>, kept: seq<Entry>, x: Entry)
    requires OrderedByLastAdd(h, kept) && !Has(kept, x.jti)
    requires h != [] && h[|h| - 1] == Op.Add(x.jti, x.exp)
    ensures OrderedByLastAdd(h, kept + [x])
  {
    var now := kept + [x];
    assert LastAdd(h, x.jti) == |h| - 1;
    forall i, k | 0 <= i < k < |now| ensures LastAdd(h, now[i].jti) < LastAdd(h, now[k].jti) {
      assert now[i] == kept[i] && kept[i] in kept;
      if k < |kept| { assert now[k] == kept[k]; }
    }
  }

  // In every reachable state the denylist is ordered by last add with the latest expiries, and is
  // never longer than its cap.
  lemma {:induction false} ReplayOrdered(h: seq<Op>, cap: nat)
    requires cap >= 1
    ensures OrderedByLastAdd(h, Replay(h, cap))
    ensures |Replay(h, cap)| <= cap
  {
    if h != [] {
      var h0, op := h[..|h| - 1], h[|h| - 1];
      assert h == h0 + [op];
      var items := Replay(h0, cap);
      ReplayOrdered(h0, cap);
      match op
      case Add(j, e) =>
        KeptFacts(items, cap, j, e);
        var kept := Kept(items, cap, j);
        KeptKeepsOrder(items, cap, j);
        SubsequenceStaysOrdered(h0, kept, items);
        ExtendOrder(h0, op, kept);
        OrderedSnoc(h, kept, Entry(j, e));
      case Sweep(c) =>
        SweepIsExact(items, c);
        SweptFacts(items, c);
        SubsequenceStaysOrdered(h0, Swept(items, c), items);
        ExtendOrder(h0, op, Swept(items, c));
    }
  }

  // ---------------------------------------------------------------------------------------------
  // Survival
  // ---------------------------------------------------------------------------------------------

  lemma {:induction false} DistinctCount(items: seq<Entry>)
    requires Distinct(items)
    ensures |JtiSet(items)| == |items|
  {
    if items == [] {
      assert JtiSet(items) == {};
    } else {
      var rest := items[1..];
      DistinctCount(rest);
      assert items == [items[0]] + rest;
      assert JtiSet(items) == {items[0].jti} + JtiSet(rest);
      assert items[0].jti !in JtiSet(rest);
    }
  }

  lemma SubsetCount(a: set<Jti>, b: set<Jti>)
    requires a <= b
    ensures |a| <= |b|
  {
    assert b == a + (b - a);
  }

  lemma AddedAfterStep(h: seq<Op>, op: Op, i: int)
    requires i < |h|
    ensures AddedAfter(h + [op], i) == AddedAfter(h, i) + (if op.Add? then {op.jti} else {})
  {
    var g := h + [op];
    forall x | x in AddedAfter(h, i) ensures x in AddedAfter(g, i) {
      var k :| 0 <= k < |h| && i < k && h[k].Add? && h[k].jti == x;
      assert g[k].Add? && g[k].jti == x;
    }
    if op.Add? { assert g[|h|].Add? && g[|h|].jti == op.jti; }
    forall x | x in AddedAfter(g, i) && !(op.Add? && x == op.jti) ensures x in AddedAfter(h, i) {
      var k :| 0 <= k < |g| && i < k && g[k].Add? && g[k].jti == x;
      assert k < |h| && h[k] == g[k];
    }
  }

  // Everything listed behind position p was added after items[p] was last added.
  lemma NewerWereAddedAfter(h: seq<Op>, items: seq<Entry>, p: nat)
    requires OrderedByLastAdd(h, items) && p < |items|
    ensures JtiSet(items[p + 1..]) <= AddedAfter(h, LastAdd(h, items[p].jti))
  {
    forall x | x in JtiSet(items[p + 1..]) ensures x in AddedAfter(h, LastAdd(h, items[p].jti)) {
      var e :| e in items[p + 1..] && e.jti == x;
      var q :| 0 <= q < |items[p + 1..]| && items[p + 1..][q] == e;
      assert items[p + 1 + q] == e;
      AddedLater(h, LastAdd(h, items[p].jti), x);
    }
  }

  lemma AddedLater(h: seq<Op>, i: int, x: Jti)
    requires -1 <= i < LastAdd(h, x)
    ensures x in AddedAfter(h, i)
  {
    assert h[LastAdd(h, x)].Add? && h[LastAdd(h, x)].jti == x;
  }

  // A token id leaves the denylist only because a sweep ran with a cutoff beyond its last expiry, or
  // because at least cap distinct other token ids were added since its last add.
  lemma {:induction false} Survival(h: seq<Op>, cap: nat, j: Jti)
    requires cap >= 1
    requires LastAdd(h, j) >= 0
    requires !SweptAfter(h, LastAdd(h, j), h[LastAdd(h, j)].exp)
    requires |AddedAfter(h, LastAdd(h, j))| < cap
    ensures Has(Replay(h, cap), j)
  {
    var h0, op := h[..|h| - 1], h[|h| - 1];
    assert h == h0 + [op];
    var i := LastAdd(h, j);
    var items := Replay(h0, cap);
    if op.Add? && op.jti == j {
      KeptFacts(items, cap, j, op.exp);
      assert Entry(j, op.exp) in Replay(h, cap);
    } else {
      assert i == LastAdd(h0, j);
      AddedAfterStep(h0, op, i);
      SubsetCount(AddedAfter(h0, i), AddedAfter(h, i));
      forall k | i < k < |h0| && h0[k].Sweep? ensures !(h0[k].cutoff > h0[i].exp) {
        assert h[k] == h0[k];
      }
      Survival(h0, cap, j);
      ReplayOrdered(h0, cap);
      var x :| x in items && x.jti == j;
      match op
      case Sweep(c) =>
        assert h[|h0|].Sweep? && x.exp == h[i].exp;
        SweptFacts(items, c);
        assert x in Swept(items, c);
      case Add(j', e) =>
        AddKeepsRecent(h0, items, cap, x, j', e);
    }
  }

  // One add drops an entry only when cap distinct token ids are by then newer than it.
  lemma AddKeepsRecent(h: seq<Op>, items: seq<Entry>, cap: nat, x: Entry, j: Jti, exp: Time)
    requires OrderedByLastAdd(h, items)
    requires x in items && x.jti != j
    requires |AddedAfter(h, LastAdd(h, x.jti)) + {j}| < cap
    ensures x in Added(items, cap, j, exp)
  {
    WithoutFacts(items, j);
    if !Has(items, j) && |items| >= cap {
      assert items == [items[0]] + items[1..];
      if x == items[0] { OldestHasNewer(h, items, j); }
    }
  }

  // Dropping the oldest of a full list to add j: at least as many distinct ids as the list is long are newer.
  lemma OldestHasNewer(h: seq<Op>, items: seq<Entry>, j: Jti)
    requires OrderedByLastAdd(h, items)
    requires items != [] && !Has(items, j)
    ensures |AddedAfter(h, LastAdd(h, items[0].jti)) + {j}| >= |items|
  {
    var newer := JtiSet(items[1..]);
    NewerWereAddedAfter(h, items, 0);
    assert |newer| == |items| - 1 by {
      DistinctCount(items[1..]);
    }
    assert j !in newer by {
      assert forall e :: e in items[1..] ==> e in items;
    }
    SubsetCount(newer + {j}, AddedAfter(h, LastAdd(h, items[0].jti)) + {j});
  }

  // The other half for sweeps: once swept beyond its last expiry, a token id is gone until re-added.
  lemma {:induction false} SweptMeansGone(h: seq<Op>, cap: nat, j: Jti)
    requires cap >= 1
    requires LastAdd(h, j) >= 0
    requires SweptAfter(h, LastAdd(h, j), h[LastAdd(h, j)].exp)
    ensures !Has(Replay(h, cap), j)
  {
    var h0, op := h[..|h| - 1], h[|h| - 1];
    assert h == h0 + [op];
    var i := LastAdd(h, j);
    var k :| i < k < |h| && 0 <= k && h[k].Sweep? && h[k].cutoff > h[i].exp;
    var items := Replay(h0, cap);
    assert i == LastAdd(h0, j);
    ReplayOrdered(h0, cap);
    if k < |h0| {
      assert h0[k].Sweep? && h0[k].cutoff > h0[i].exp;
      SweptMeansGone(h0, cap, j);
    }
    match op
    case Sweep(c) =>
      SweptFacts(items, c);
    case Add(j', e) =>
      KeptFacts(items, cap, j', e);
  }

  // ---------------------------------------------------------------------------------------------
  // Exact contents when nothing is swept
  // ---------------------------------------------------------------------------------------------

  ghost predicate NoSweeps(h: seq<Op>) {
    forall i :: 0 <= i < |h| ==> h[i].Add?
  }

  // Without sweeps, what was added after the last add of a listed token id is exactly what is listed behind it.
  ghost predicate NewerExactlyBehind(h: seq<Op>, items: seq<Entry>) {
    forall p :: 0 <= p < |items| ==> AddedAfter(h, LastAdd(h, items[p].jti)) == JtiSet(items[p + 1..])
  }

  lemma ConsTail(x: Entry, rest: seq<Entry>, p: nat)
    requires p <= |rest|
    ensures ([x] + rest)[p + 1..] == rest[p..]
    ensures p < |rest| ==> ([x] + rest)[p + 1] == rest[p]
  {
  }

  // Behind position p of the kept entries stands what is kept of what stood behind that entry before.
  lemma {:induction false} WithoutTail(items: seq<Entry>, j: Jti, p: nat) returns (q: nat)
    requires p < |Without(items, j)|
    ensures q < |items| && items[q] == Without(items, j)[p]
    ensures Without(items, j)[p + 1..] == Without(items[q + 1..], j)
  {
    var rest := Without(items[1..], j);
    if items[0].jti == j {
      assert Without(items, j) == rest;
      var r := WithoutTail(items[1..], j, p);
      DropAgain(items, r + 1);
      q := r + 1;
    } else {
      assert Without(items, j) == [items[0]] + rest;
      ConsTail(items[0], rest, p);
      if p == 0 {
        q := 0;
      } else {
        ConsTail(items[0], rest, p - 1);
        var r := WithoutTail(items[1..], j, p - 1);
        DropAgain(items, r + 1);
        q := r + 1;
      }
    }
  }

  lemma WithoutIds(items: seq<Entry>, j: Jti)
    ensures JtiSet(Without(items, j)) == JtiSet(items) - {j}
  {
    WithoutFacts(items, j);
  }

  lemma NoneBehind(items: seq<Entry>, j: Jti, q: nat)
    requires !Has(items, j) && q < |items|
    ensures JtiSet(items[q + 1..]) - {j} == JtiSet(items[q + 1..])
  {
    forall e | e in items[q + 1..] ensures e.jti != j {
      assert e in items;
    }
  }

  lemma KeptTail(items: seq<Entry>, cap: nat, j: Jti, p: nat) returns (q: nat)
    requires p < |Kept(items, cap, j)|
    ensures q < |items| && items[q] == Kept(items, cap, j)[p]
    ensures JtiSet(Kept(items, cap, j)[p + 1..]) == JtiSet(items[q + 1..]) - {j}
  {
    var kept := Kept(items, cap, j);
    if Has(items, j) {
      q := WithoutTail(items, j, p);
      WithoutIds(items[q + 1..], j);
    } else {
      q := if kept == items then p else p + 1;
      assert kept[p + 1..] == items[q + 1..] by { if p + 1 < |items| { DropAgain(items, p + 1); } }
      NoneBehind(items, j, q);
    }
  }

  lemma DropAgain(items: seq<Entry>, p: nat)
    requires p < |items|
    ensures items[1..][p..] == items[p + 1..]
  {
  }

  lemma NewerExactStep(h: seq<Op>, items: seq<Entry>, cap: nat, j: Jti, exp: Time, p: nat)
    requires OrderedByLastAdd(h, items) && NewerExactlyBehind(h, items)
    requires p < |Kept(items, cap, j)|
    ensures var g := h + [Add(j, exp)];
            var now := Added(items, cap, j, exp);
            p < |now| && AddedAfter(g, LastAdd(g, now[p].jti)) == JtiSet(now[p + 1..])
  {
    var kept := Kept(items, cap, j);
    var g, now := h + [Add(j, exp)], Added(items, cap, j, exp);
    KeptFacts(items, cap, j, exp);
    var q := KeptTail(items, cap, j, p);
    assert now[p] == kept[p] && kept[p] in kept;
    LastAddSkips(h, Add(j, exp), kept[p].jti);
    AddedAfterStep(h, Add(j, exp), LastAdd(h, items[q].jti));
    TailAppend(kept, Entry(j, exp), p);
  }

  lemma LastAddSkips(h: seq<Op>, op: Op, x: Jti)
    requires !(op.Add? && op.jti == x)
    ensures LastAdd(h + [op], x) == LastAdd(h, x)
  {
    assert (h + [op])[..|h|] == h;
  }

  lemma TailAppend(kept: seq<Entry>, e: Entry, p: nat)
    requires p < |kept|
    ensures JtiSet((kept + [e])[p + 1..]) == JtiSet(kept[p + 1..]) + {e.jti}
  {
    assert (kept + [e])[p + 1..] == kept[p + 1..] + [e];
  }

  lemma {:induction false} NewerExact(h: seq<Op>, cap: nat)
    requires cap >= 1
    requires NoSweeps(h)
    ensures NewerExactlyBehind(h, Replay(h, cap))
  {
    if h != [] {
      var h0, op := h[..|h| - 1], h[|h| - 1];
      assert h == h0 + [op];
      var items, now := Replay(h0, cap), Replay(h, cap);
      NewerExact(h0, cap);
      ReplayOrdered(h0, cap);
      KeptFacts(items, cap, op.jti, op.exp);
      forall p | 0 <= p < |now|
        ensures AddedAfter(h, LastAdd(h, now[p].jti)) == JtiSet(now[p + 1..])
      {
        if p == |now| - 1 {
          assert LastAdd(h, now[p].jti) == |h0|;
          assert now[p + 1..] == [];
        } else {
          NewerExactStep(h0, items, cap, op.jti, op.exp, p);
        }
      }
    }
  }

  lemma ListedHasFewNewer(h: seq<Op>, cap: nat, x: Entry)
    requires cap >= 1
    requires NoSweeps(h)
    requires x in Replay(h, cap)
    ensures |AddedAfter(h, LastAdd(h, x.jti))| < cap
  {
    var items := Replay(h, cap);
    ReplayOrdered(h, cap);
    NewerExact(h, cap);
    var p :| 0 <= p < |items| && items[p] == x;
    DistinctCount(items[p + 1..]);
  }

  // With no sweeps the contents are exactly the last cap distinct token ids of the history: a token id
  // is listed if and only if it was added and fewer than cap distinct others were added since.
  lemma LastDistinctJtis(h: seq<Op>, cap: nat, j: Jti)
    requires cap >= 1
    requires NoSweeps(h)
    ensures Has(Replay(h, cap), j) <==> LastAdd(h, j) >= 0 && |AddedAfter(h, LastAdd(h, j))| < cap
  {
    if Has(Replay(h, cap), j) {
      var x :| x in Replay(h, cap) && x.jti == j;
      ReplayOrdered(h, cap);
      ListedHasFewNewer(h, cap, x);
    } else if LastAdd(h, j) >= 0 && |AddedAfter(h, LastAdd(h, j))| < cap {
      Survival(h, cap, j);
    }
  }
}
