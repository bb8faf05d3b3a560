// common/revocation/jti_denylist.py, the class itself: an ordered dict updated in place, proved against
// the functions of module Denylist.

module DenylistStore {
  import opened Common
  import opened Denylist

  function EntriesOf(order: seq<Jti>, exps: map<Jti, Time>): seq<Entry>
    requires forall j :: j in order ==> j in exps
  {
    if order == [] then [] else [Entry(order[0], exps[order[0]])] + EntriesOf(order[1..], exps)
  }

  lemma {:induction false} EntriesFacts(order: seq<Jti>, exps: map<Jti, Time>)
    requires forall j :: j in order ==> j in exps
    ensures |EntriesOf(order, exps)| == |order|
    ensures forall i :: 0 <= i < |order| ==> EntriesOf(order, exps)[i] == Entry(order[i], exps[order[i]])
    ensures forall j :: Has(EntriesOf(order, exps), j) <==> j in order
  {
    if order != [] {
      EntriesFacts(order[1..], exps);
      assert order == [order[0]] + order[1..];
      assert Entry(order[0], exps[order[0]]) in EntriesOf(order, exps);
      forall j | j in order ensures Has(EntriesOf(order, exps), j) {
        if j != order[0] {
          var e :| e in EntriesOf(order[1..], exps) && e.jti == j;
          assert e in EntriesOf(order, exps);
        }
      }
    }
  }

  ghost predicate NoRepeats(order: seq<Jti>) {
    forall i, k :: 0 <= i < k < |order| ==> order[i] != order[k]
  }

  ghost predicate Consistent(order: seq<Jti>, exps: map<Jti, Time>) {
    (forall j :: j in order <==> j in exps) && NoRepeats(order)
  }

  // Dropping one key from an order.
  function Dropped(order: seq<Jti>, j: Jti): seq<Jti> {
    if order == [] then []
    else (if order[0] == j then [] else [order[0]]) + Dropped(order[1..], j)
  }

  lemma {:induction false} DroppedFacts(order: seq<Jti>, j: Jti)
    requires NoRepeats(order)
    ensures forall x :: x in Dropped(order, j) <==> x in order && x != j
    ensures NoRepeats(Dropped(order, j))
    ensures |Dropped(order, j)| == |order| - (if j in order then 1 else 0)
  {
    if order != [] {
      DroppedFacts(order[1..], j);
      assert order == [order[0]] + order[1..];
      assert order[0] !in order[1..];
      NoRepeatsCons(order[0], Dropped(order[1..], j));
      assert [] + Dropped(order[1..], j) == Dropped(order[1..], j);
    }
  }

  lemma NoRepeatsCons(x: Jti, order: seq<Jti>)
    requires NoRepeats(order) && x !in order
    ensures NoRepeats([x] + order)
  {
  }

  lemma {:induction false} DroppedEntries(order: seq<Jti>, exps: map<Jti, Time>, exps': map<Jti, Time>, j: Jti)
    requires forall x :: x in order ==> x in exps
    requires forall x :: x in order && x != j ==> x in exps' && exps'[x] == exps[x]
    requires NoRepeats(order)
    ensures forall x :: x in Dropped(order, j) ==> x in exps'
    ensures EntriesOf(Dropped(order, j), exps') == Without(EntriesOf(order, exps), j)
  {
    DroppedFacts(order, j);
    if order != [] {
      DroppedEntries(order[1..], exps, exps', j);
      var rest := Dropped(order[1..], j);
      assert EntriesOf(order, exps)[1..] == EntriesOf(order[1..], exps);
      if order[0] == j {
        assert Dropped(order, j) == rest;
      } else {
        assert Dropped(order, j)[1..] == rest;
      }
    }
  }

  lemma {:induction false} EntriesAppend(order: seq<Jti>, exps: map<Jti, Time>, exps': map<Jti, Time>, j: Jti)
    requires forall x :: x in order ==> x in exps && x in exps' && exps'[x] == exps[x]
    requires j in exps'
    ensures EntriesOf(order + [j], exps') == EntriesOf(order, exps) + [Entry(j, exps'[j])]
  {
    if order == [] {
      assert EntriesOf([], exps) == [];
      assert [] + [j] == [j];
    } else {
      assert (order + [j])[1..] == order[1..] + [j];
      EntriesAppend(order[1..], exps, exps', j);
    }
  }

  lemma {:induction false} EntriesAgree(order: seq<Jti>, exps: map<Jti, Time>, exps': map<Jti, Time>)
    requires forall x :: x in order ==> x in exps && x in exps' && exps'[x] == exps[x]
    ensures EntriesOf(order, exps) == EntriesOf(order, exps')
  {
    if order != [] { EntriesAgree(order[1..], exps, exps'); }
  }

  // The keys of an order that expired before the cutoff, in order.
  function Expired(order: seq<Jti>, exps: map<Jti, Time>, cutoff: Time): seq<Jti>
    requires forall j :: j in order ==> j in exps
  {
    if order == [] then []
    else
      var n := |order| - 1;
      assert order[n] in order;
      Expired(order[..n], exps, cutoff) + (if exps[order[n]] < cutoff then [order[n]] else [])
  }

  lemma {:induction false} ExpiredFacts(order: seq<Jti>, exps: map<Jti, Time>, cutoff: Time)
    requires forall j :: j in order ==> j in exps
    requires NoRepeats(order)
    ensures forall j :: j in Expired(order, exps, cutoff) <==> j in order && exps[j] < cutoff
    ensures NoRepeats(Expired(order, exps, cutoff))
  {
    if order != [] {
      var n := |order| - 1;
      ExpiredFacts(order[..n], exps, cutoff);
      assert order == order[..n] + [order[n]];
    }
  }

  // The keys of an order that are not in gone.
  function Filtered(order: seq<Jti>, gone: seq<Jti>): seq<Jti> {
    if order == [] then []
    else (if order[0] in gone then [] else [order[0]]) + Filtered(order[1..], gone)
  }

  lemma {:induction false} FilteredStep(order: seq<Jti>, gone: seq<Jti>, j: Jti)
    ensures Dropped(Filtered(order, gone), j) == Filtered(order, gone + [j])
  {
    if order != [] {
      FilteredStep(order[1..], gone, j);
      if order[0] in gone {
        assert Filtered(order, gone) == Filtered(order[1..], gone);
      } else {
        assert Filtered(order, gone)[1..] == Filtered(order[1..], gone);
      }
    }
  }

  lemma {:induction false} FilteredIsSwept(order: seq<Jti>, exps: map<Jti, Time>, cutoff: Time, gone: seq<Jti>)
    requires forall j :: j in order ==> j in exps && (j in gone <==> exps[j] < cutoff)
    ensures forall j :: j in Filtered(order, gone) ==> j in order
    ensures EntriesOf(Filtered(order, gone), exps) == Swept(EntriesOf(order, exps), cutoff)
  {
    if order != [] {
      FilteredIsSwept(order[1..], exps, cutoff, gone);
      assert order == [order[0]] + order[1..];
      assert EntriesOf(order, exps)[1..] == EntriesOf(order[1..], exps);
      if order[0] in gone {
        assert Filtered(order, gone) == Filtered(order[1..], gone);
      } else {
        assert Filtered(order, gone)[1..] == Filtered(order[1..], gone);
      }
    }
  }

  // move_to_end and the new expiry.
  lemma MovedToEnd(order: seq<Jti>, exps: map<Jti, Time>, cap: nat, j: Jti, exp: Time)
    requires Consistent(order, exps) && j in exps
    ensures Consistent(Dropped(order, j) + [j], exps[j := exp])
    ensures EntriesOf(Dropped(order, j) + [j], exps[j := exp]) == Added(EntriesOf(order, exps), cap, j, exp)
  {
    DroppedFacts(order, j);
    NoRepeatsSnoc(Dropped(order, j), j);
    assert EntriesOf(Dropped(order, j) + [j], exps[j := exp])
        == Without(EntriesOf(order, exps), j) + [Entry(j, exp)] by {
      DroppedEntries(order, exps, exps[j := exp], j);
      EntriesAppend(Dropped(order, j), exps[j := exp], exps[j := exp], j);
    }
    assert Has(EntriesOf(order, exps), j) by {
      EntriesFacts(order, exps);
    }
  }

  lemma NoRepeatsSnoc(order: seq<Jti>, x: Jti)
    requires NoRepeats(order) && x !in order
    ensures NoRepeats(order + [x])
  {
  }

  // popitem(last=False).
  lemma PoppedOldest(order: seq<Jti>, exps: map<Jti, Time>)
    requires Consistent(order, exps) && order != []
    ensures order[0] in exps && Consistent(order[1..], exps - {order[0]})
    ensures EntriesOf(order[1..], exps - {order[0]}) == EntriesOf(order, exps)[1..]
  {
    assert order == [order[0]] + order[1..];
    assert order[0] !in order[1..];
    EntriesAgree(order[1..], exps, exps - {order[0]});
  }

  lemma AppendedNew(order: seq<Jti>, exps: map<Jti, Time>, j: Jti, exp: Time)
    requires Consistent(order, exps) && j !in exps
    ensures Consistent(order + [j], exps[j := exp])
    ensures EntriesOf(order + [j], exps[j := exp]) == EntriesOf(order, exps) + [Entry(j, exp)]
  {
    NoRepeatsSnoc(order, j);
    EntriesAppend(order, exps, exps[j := exp], j);
  }

  // The mapping after deleting the listed keys one by one.
  function Deleted(exps: map<Jti, Time>, gone: seq<Jti>): map<Jti, Time> {
    if gone == [] then exps
    else Deleted(exps, gone[..|gone| - 1]) - {gone[|gone| - 1]}
  }

  lemma {:induction false} DeletedFacts(exps: map<Jti, Time>, gone: seq<Jti>)
    ensures forall x :: x in Deleted(exps, gone) <==> x in exps && x !in gone
    ensures forall x :: x in Deleted(exps, gone) ==> Deleted(exps, gone)[x] == exps[x]
  {
    if gone != [] {
      DeletedFacts(exps, gone[..|gone| - 1]);
      assert gone == gone[..|gone| - 1] + [gone[|gone| - 1]];
    }
  }

  // One step of the delete loop.
  lemma DeletedOne(order: seq<Jti>, exps: map<Jti, Time>, gone: seq<Jti>, j: Jti, order': seq<Jti>)
    requires Consistent(order', Deleted(exps, gone)) && order' == Filtered(order, gone)
    requires j in exps && j !in gone
    ensures Deleted(exps, gone + [j]) == Deleted(exps, gone) - {j}
    ensures Consistent(Dropped(order', j), Deleted(exps, gone + [j]))
    ensures Dropped(order', j) == Filtered(order, gone + [j])
    ensures |Dropped(order', j)| == |order'| - 1
  {
    assert (gone + [j])[..|gone|] == gone;
    DeletedFacts(exps, gone);
    DroppedFacts(order', j);
    FilteredStep(order, gone, j);
  }

  lemma DeletedNext(order: seq<Jti>, exps: map<Jti, Time>, expired: seq<Jti>, i: nat, order': seq<Jti>)
    requires i < |expired| && NoRepeats(expired) && expired[i] in exps
    requires Consistent(order', Deleted(exps, expired[..i])) && order' == Filtered(order, expired[..i])
    ensures Deleted(exps, expired[..i + 1]) == Deleted(exps, expired[..i]) - {expired[i]}
    ensures Consistent(Dropped(order', expired[i]), Deleted(exps, expired[..i + 1]))
    ensures Dropped(order', expired[i]) == Filtered(order, expired[..i + 1])
    ensures |Dropped(order', expired[i])| == |order'| - 1
  {
    assert expired[..i + 1] == expired[..i] + [expired[i]];
    DeletedOne(order, exps, expired[..i], expired[i], order');
  }

  lemma SweepDone(order: seq<Jti>, exps: map<Jti, Time>, cutoff: Time, order': seq<Jti>, exps': map<Jti, Time>)
    requires Consistent(order, exps)
    requires order' == Filtered(order, Expired(order, exps, cutoff))
    requires exps' == Deleted(exps, Expired(order, exps, cutoff))
    requires Consistent(order', exps')
    ensures EntriesOf(order', exps') == Swept(EntriesOf(order, exps), cutoff)
    ensures |EntriesOf(order', exps')| == |order'| && |EntriesOf(order, exps)| == |order|
  {
    ExpiredFacts(order, exps, cutoff);
    DeletedFacts(exps, Expired(order, exps, cutoff));
    FilteredIsSwept(order, exps, cutoff, Expired(order, exps, cutoff));
    EntriesAgree(order', exps, exps');
    EntriesFacts(order', exps');
    EntriesFacts(order, exps);
  }

  lemma NothingDeleted(order: seq<Jti>)
    ensures Filtered(order, []) == order
  {
    if order != [] { NothingDeleted(order[1..]); }
  }

  // An OrderedDict is its key order plus its mapping.
  class JtiDenylist {
    const hardCap: nat
    var order: seq<Jti>
    var exps: map<Jti, Time>

    ghost predicate Valid()
      reads this
    {
      hardCap >= 1 && Consistent(order, exps)
    }

    ghost function Contents(): (items: seq<Entry>)
      requires Valid()
      reads this
    {
      EntriesOf(order, exps)
    }

    constructor (cap: nat)
      requires cap >= 1
      ensures Valid() && hardCap == cap && Contents() == []
    {
      hardCap := cap;
      order := [];
      exps := map[];
    }

    method Contains(j: Jti) returns (r: bool)
      requires Valid()
      ensures r <==> Has(Contents(), j)
    {
      EntriesFacts(order, exps);
      r := j in exps;
    }

    method Add(j: Jti, exp: Time)
      requires Valid()
      modifies this
      ensures Valid()
      ensures Contents() == Added(old(Contents()), hardCap, j, exp)
    {
      EntriesFacts(order, exps);
      if j in exps {
        MovedToEnd(order, exps, hardCap, j, exp);
        order := Dropped(order, j) + [j];
        exps := exps[j := exp];
        return;
      }
      if |order| >= hardCap {
        PoppedOldest(order, exps);
        var evicted := order[0];
        order := order[1..];
        exps := exps - {evicted};
      }
      AppendedNew(order, exps, j, exp);
      order := order + [j];
      exps := exps[j := exp];
    }

    method SweepOnce(cutoff: Time) returns (removed: nat)
      requires Valid()
      modifies this
      ensures Valid()
      ensures Contents() == Swept(old(Contents()), cutoff)
      ensures removed == |old(Contents())| - |Contents()|
    {
      ghost var order0, exps0 := order, exps;
      var expired := Expired(order, exps, cutoff);
      ExpiredFacts(order, exps, cutoff);
      NothingDeleted(order);
      for i := 0 to |expired|
        invariant Consistent(order, exps)
        invariant order == Filtered(order0, expired[..i])
        invariant exps == Deleted(exps0, expired[..i])
        invariant |order| == |order0| - i
      {
        DeletedNext(order0, exps0, expired, i, order);
        order := Dropped(order, expired[i]);
        exps := exps - {expired[i]};
      }
      assert expired[..|expired|] == expired;
      SweepDone(order0, exps0, cutoff, order, exps);
      removed := |expired|;
    }
  }
}
