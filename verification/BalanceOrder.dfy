/** When the order of the addresses decides whether the checked balance sum is accepted. */
module BalanceOrder {
  import opened Machine
  import opened Permutations
  import opened Electrum

  predicate Wires(bs: seq<Balance>) {
    forall x :: x in bs ==> Wire(x)
  }

  function Gain(b: Balance): int {
    if b.unconfirmed > 0 then b.unconfirmed else 0
  }

  function Loss(b: Balance): int {
    if b.unconfirmed < 0 then b.unconfirmed else 0
  }

  /** The positive and the negative deltas, each summed alone. */
  function Gains(bs: seq<Balance>): int {
    Sum(Gain, bs)
  }

  function Losses(bs: seq<Balance>): int {
    Sum(Loss, bs)
  }

  ghost predicate SomeOrderAccepted(bs: seq<Balance>) {
    exists p :: multiset(p) == multiset(bs) && PrefixesFit(p)
  }

  ghost predicate EveryOrderAccepted(bs: seq<Balance>) {
    forall p :: multiset(p) == multiset(bs) ==> PrefixesFit(p)
  }

  /** Some order is accepted and some order of the same balances is refused. */
  ghost predicate OrderDecides(bs: seq<Balance>) {
    SomeOrderAccepted(bs) && !EveryOrderAccepted(bs)
  }

  lemma PermutedWires(a: seq<Balance>, b: seq<Balance>)
    requires multiset(a) == multiset(b) && Wires(a)
    ensures Wires(b)
  {
    forall x | x in b
      ensures Wire(x)
    {
      assert x in multiset(b);
    }
  }

  // ---------------------------------------------------------------- some order

  /** The next delta, chosen against the sign of the running sum, keeps the sum in range. */
  lemma NextFits(running: Balance, rest: seq<Balance>) returns (i: nat)
    requires Wire(running) && Wires(rest) && rest != []
    requires Wire(Balance(running.confirmed + Total(rest).confirmed, running.unconfirmed + Total(rest).unconfirmed))
    ensures i < |rest|
    ensures Wire(Balance(running.confirmed + rest[i].confirmed, running.unconfirmed + rest[i].unconfirmed))
  {
    i := 0;
    assert rest[0] in rest;
    if k :|
      && 0 <= k < |rest|
      && (if running.unconfirmed > 0 then rest[k].unconfirmed <= 0 else rest[k].unconfirmed >= 0)
    {
      i := k;
    } else {
      assert forall x :: x in rest ==> if running.unconfirmed > 0 then x.unconfirmed > 0 else x.unconfirmed < 0;
    }
    assert Wire(rest[i]);
    OneOfMany(rest, i);
  }

  /** A part is at most the whole when all parts have one sign. */
  lemma OneOfMany(bs: seq<Balance>, i: nat)
    requires i < |bs| && Wires(bs)
    ensures bs[i].confirmed <= Total(bs).confirmed
    ensures (forall x :: x in bs ==> x.unconfirmed >= 0) ==> bs[i].unconfirmed <= Total(bs).unconfirmed
    ensures (forall x :: x in bs ==> x.unconfirmed <= 0) ==> bs[i].unconfirmed >= Total(bs).unconfirmed
  {
    var n := |bs| - 1;
    assert bs == bs[..n] + [bs[n]] && Wire(bs[n]);
    SignsAdd(bs[..n]);
    if i < n {
      OneOfMany(bs[..n], i);
    }
  }

  lemma SignsAdd(bs: seq<Balance>)
    requires Wires(bs)
    ensures Total(bs).confirmed >= 0
    ensures (forall x :: x in bs ==> x.unconfirmed >= 0) ==> Total(bs).unconfirmed >= 0
    ensures (forall x :: x in bs ==> x.unconfirmed <= 0) ==> Total(bs).unconfirmed <= 0
  {
    if bs != [] {
      assert bs == bs[..|bs| - 1] + [bs[|bs| - 1]] && Wire(bs[|bs| - 1]);
      SignsAdd(bs[..|bs| - 1]);
    }
  }

  /** Appending a balance that fits keeps every running sum in range. */
  lemma ExtendFits(done: seq<Balance>, x: Balance)
    requires PrefixesFit(done)
    requires Wire(Balance(Total(done).confirmed + x.confirmed, Total(done).unconfirmed + x.unconfirmed))
    ensures PrefixesFit(done + [x])
  {
    var more := done + [x];
    assert more[..|done|] == done;
    forall k | 0 <= k <= |more|
      ensures Wire(Total(more[..k]))
    {
      if k <= |done| {
        assert more[..k] == done[..k];
      } else {
        assert more[..k] == more;
      }
    }
  }

  /** Taking one element of `rest` over to `done`. */
  lemma MoveOver(done: seq<Balance>, rest: seq<Balance>, i: nat)
    requires i < |rest|
    ensures var others := rest[..i] + rest[i + 1..];
      && multiset(done + [rest[i]] + others) == multiset(done + rest)
      && (Wires(rest) ==> Wires(others))
  {
    assert rest == rest[..i] + [rest[i]] + rest[i + 1..];
  }

  lemma {:induction false} Schedule(done: seq<Balance>, rest: seq<Balance>) returns (p: seq<Balance>)
    requires PrefixesFit(done) && Wires(rest) && Wire(Total(done + rest))
    ensures multiset(p) == multiset(done + rest) && PrefixesFit(p)
    decreases |rest|
  {
    if rest == [] {
      assert done + rest == done;
      p := done;
    } else {
      TotalAppend(done, rest);
      assert done[..|done|] == done;
      var i := NextFits(Total(done), rest);
      ExtendFits(done, rest[i]);
      MoveOver(done, rest, i);
      TotalPermutes(done + rest, done + [rest[i]] + (rest[..i] + rest[i + 1..]));
      p := Schedule(done + [rest[i]], rest[..i] + rest[i + 1..]);
    }
  }

  /** Some order of the balances is accepted exactly when the total itself fits. */
  lemma SomeOrderExactly(bs: seq<Balance>)
    requires Wires(bs)
    ensures SomeOrderAccepted(bs) <==> Wire(Total(bs))
  {
    if SomeOrderAccepted(bs) {
      var p :| multiset(p) == multiset(bs) && PrefixesFit(p);
      assert p[..|p|] == p;
      TotalPermutes(p, bs);
    }
    if Wire(Total(bs)) {
      var none: seq<Balance> := [];
      assert none + bs == bs;
      var p := Schedule(none, bs);
    }
  }

  // ---------------------------------------------------------------- every order

  /** A prefix holds at most all the gains and all the losses. */
  lemma PrefixBounds(p: seq<Balance>, k: nat)
    requires k <= |p| && Wires(p)
    ensures 0 <= Total(p[..k]).confirmed <= Total(p).confirmed
    ensures Losses(p) <= Total(p[..k]).unconfirmed <= Gains(p)
  {
    assert p == p[..k] + p[k..];
    TotalAppend(p[..k], p[k..]);
    SumAppend(Gain, p[..k], p[k..]);
    SumAppend(Loss, p[..k], p[k..]);
    GainsAndLosses(p[..k]);
    GainsAndLosses(p[k..]);
    SignsAdd(p[..k]);
    SignsAdd(p[k..]);
  }

  lemma GainsAndLosses(bs: seq<Balance>)
    ensures Total(bs).unconfirmed == Gains(bs) + Losses(bs)
    ensures Losses(bs) <= 0 <= Gains(bs)
  {
    if bs != [] {
      GainsAndLosses(bs[..|bs| - 1]);
    }
  }

  /** The balances with a positive (or a negative) delta can be put first. */
  lemma {:induction false} PutFirst(bs: seq<Balance>, positive: bool) returns (first: seq<Balance>, last: seq<Balance>)
    ensures multiset(first + last) == multiset(bs)
    ensures forall x :: x in first ==> if positive then x.unconfirmed > 0 else x.unconfirmed < 0
    ensures forall x :: x in last ==> if positive then x.unconfirmed <= 0 else x.unconfirmed >= 0
  {
    if bs == [] {
      first, last := [], [];
    } else {
      var x := bs[|bs| - 1];
      assert bs == bs[..|bs| - 1] + [x];
      first, last := PutFirst(bs[..|bs| - 1], positive);
      if if positive then x.unconfirmed > 0 else x.unconfirmed < 0 {
        first := first + [x];
      } else {
        last := last + [x];
      }
    }
  }

  /** Deltas of one sign are all gain or all loss. */
  lemma OneSided(bs: seq<Balance>)
    ensures (forall x :: x in bs ==> x.unconfirmed >= 0) ==> Losses(bs) == 0
    ensures (forall x :: x in bs ==> x.unconfirmed <= 0) ==> Gains(bs) == 0
  {
    if bs != [] {
      OneSided(bs[..|bs| - 1]);
    }
  }

  /** An accepted order that puts one sign first shows that side's sum fits. */
  lemma SideFits(bs: seq<Balance>, positive: bool)
    requires EveryOrderAccepted(bs)
    ensures if positive then Gains(bs) <= I64_MAX else Losses(bs) >= I64_MIN
  {
    var first, last := PutFirst(bs, positive);
    assert PrefixesFit(first + last);
    assert (first + last)[..|first|] == first;
    assert Wire(Total(first));
    SumPermutes(Gain, first + last, bs);
    SumPermutes(Loss, first + last, bs);
    SumAppend(Gain, first, last);
    SumAppend(Loss, first, last);
    OneSided(first);
    OneSided(last);
    GainsAndLosses(first);
  }

  /** Every order is accepted exactly when the confirmed total and each side of the unconfirmed deltas
      fit on their own. */
  lemma EveryOrderExactly(bs: seq<Balance>)
    requires Wires(bs)
    ensures EveryOrderAccepted(bs) <==> Total(bs).confirmed <= U64_MAX && Gains(bs) <= I64_MAX && Losses(bs) >= I64_MIN
  {
    if EveryOrderAccepted(bs) {
      assert PrefixesFit(bs) && bs[..|bs|] == bs;
      SideFits(bs, true);
      SideFits(bs, false);
    } else {
      var p :| multiset(p) == multiset(bs) && !PrefixesFit(p);
      var k :| 0 <= k <= |p| && !Wire(Total(p[..k]));
      PermutedWires(bs, p);
      TotalPermutes(p, bs);
      SumPermutes(Gain, p, bs);
      SumPermutes(Loss, p, bs);
      PrefixBounds(p, k);
    }
  }

  /** The order of the addresses decides exactly when the total fits but the positive or the negative
      deltas alone do not. */
  lemma OrderDecidesExactly(bs: seq<Balance>)
    requires Wires(bs)
    ensures OrderDecides(bs) <==> Wire(Total(bs)) && (Gains(bs) > I64_MAX || Losses(bs) < I64_MIN)
  {
    SomeOrderExactly(bs);
    EveryOrderExactly(bs);
  }

  lemma FitsAnyOrder(a: seq<Balance>, b: seq<Balance>)
    requires multiset(a) == multiset(b) && Wires(a) && PrefixesFit(a)
    requires forall x :: x in a ==> x.unconfirmed >= 0
    ensures PrefixesFit(b)
  {
    assert a[..|a|] == a;
    OneSided(a);
    GainsAndLosses(a);
    EveryOrderExactly(a);
  }

  /** Two accepted orders agree on the amount, and without negative deltas both are accepted or neither. */
  lemma SumIgnoresOrder(a: seq<Balance>, b: seq<Balance>)
    requires multiset(a) == multiset(b)
    ensures PrefixesFit(a) && PrefixesFit(b) ==> Total(a) == Total(b)
    ensures (forall x :: x in a ==> Wire(x) && x.unconfirmed >= 0) ==> (PrefixesFit(a) <==> PrefixesFit(b))
  {
    TotalPermutes(a, b);
    if forall x :: x in a ==> Wire(x) && x.unconfirmed >= 0 {
      forall x | x in b
        ensures Wire(x) && x.unconfirmed >= 0
      {
        assert x in multiset(b);
      }
      if PrefixesFit(a) {
        FitsAnyOrder(a, b);
      } else if PrefixesFit(b) {
        FitsAnyOrder(b, a);
      }
    }
  }

  /** The smallest case where it decides. */
  lemma SignedSumDependsOnOrder()
    ensures OrderDecides([Balance(0, I64_MAX), Balance(0, 1), Balance(0, -1)])
  {
    var top, one, less := Balance(0, I64_MAX), Balance(0, 1), Balance(0, -1);
    var bs, gains := [top, one, less], [top, one];
    assert bs[..|bs| - 1] == gains && gains[..|gains| - 1] == [top] && [top][..0] == [];
    assert Total([top]) == top;
    assert Total(gains) == Balance(0, I64_MAX + 1);
    OneSided(gains);
    GainsAndLosses(gains);
    assert Gains(bs) == Gains(gains) + Gain(less);
    OrderDecidesExactly(bs);
  }
}
