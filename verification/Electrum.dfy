/** The Electrum client: failover with a circuit breaker on the primary, the checked balance sum, and
    the address tags on batch results. */
module Electrum {
  import opened Machine
  import opened Permutations

  const FAIL_THRESHOLD: nat := 2
  const COOLDOWN_MS: nat := 30_000

  // ---------------------------------------------------------------- the breaker

  datatype Breaker = Breaker(fails: nat, until: nat)

  /** The counters are a `u32` and a `u64`. */
  predicate BreakerOk(b: Breaker) {
    b.fails <= U32_MAX && b.until <= U64_MAX
  }

  /** The primary is tried outside its cooldown, and always when nothing else is configured. */
  predicate PrimaryTried(b: Breaker, now: nat, hasFallback: bool) {
    b.until <= now || !hasFallback
  }

  /** Counting a failure overflows: the stored counter wraps and the checked `+ 1` traps. */
  predicate Traps(b: Breaker) {
    b.fails == U32_MAX
  }

  function AfterFailure(b: Breaker, now: nat): Breaker {
    if Traps(b) then Breaker(0, b.until)
    else Breaker(b.fails + 1, if b.fails + 1 >= FAIL_THRESHOLD then AddU64Saturating(now, COOLDOWN_MS) else b.until)
  }

  const RESET := Breaker(0, 0)

  /** What one more failure of the primary means for a later call: it is passed over exactly when this was at
      least the second failure in a row, some fallback is configured, and less than half a minute has gone
      by. A success clears the count, so the next failure is again a first one. */
  lemma CooldownExactly(b: Breaker, now: nat, later: nat, hasFallback: bool)
    requires BreakerOk(b) && b.fails < 0xffff_ffff && PrimaryTried(b, now, true)
    requires now <= later <= 0xffff_ffff_ffff_ffff
    ensures AfterFailure(b, now).fails == b.fails + 1
    ensures PrimaryTried(AfterFailure(b, now), later, hasFallback)
       <==> b.fails == 0 || !hasFallback || later >= now + 30_000 || later == 0xffff_ffff_ffff_ffff
    ensures PrimaryTried(RESET, later, hasFallback) && RESET.fails == 0
  {
  }

  /** A counter at its last value wraps to zero and traps, and leaves the cooldown as it was. */
  lemma WrapExactly(b: Breaker, now: nat)
    requires BreakerOk(b)
    ensures Traps(b) <==> b.fails == 0xffff_ffff
    ensures Traps(b) ==> AfterFailure(b, now) == Breaker(0, b.until)
  {
  }

  // ---------------------------------------------------------------- one call

  type Server = string

  datatype CallResult<T> = Answered(value: T) | AllFailed | NotConfigured | Trapped

  class ElectrumClient<T> {
    const primary: Option<Server>
    const fallbacks: seq<Server>
    var failCount: nat
    var cooldownUntil: nat

    constructor (primary: Option<Server>, fallbacks: seq<Server>)
      ensures this.primary == primary && this.fallbacks == fallbacks && State() == RESET
    {
      this.primary, this.fallbacks, failCount, cooldownUntil := primary, fallbacks, 0, 0;
    }

    function State(): Breaker
      reads this
    {
      Breaker(failCount, cooldownUntil)
    }

    method RecordPrimaryFailure(now: nat) returns (trapped: bool)
      requires BreakerOk(State()) && now <= U64_MAX
      modifies this
      ensures BreakerOk(State()) && State() == AfterFailure(old(State()), now)
      ensures trapped == Traps(old(State()))
    {
      var was := failCount;
      failCount := if was == U32_MAX then 0 else was + 1;
      if was == U32_MAX {
        return true;
      }
      if was + 1 >= FAIL_THRESHOLD {
        cooldownUntil := AddU64Saturating(now, COOLDOWN_MS);
      }
      return false;
    }

    method RecordPrimarySuccess()
      modifies this
      ensures State() == RESET
    {
      failCount, cooldownUntil := 0, 0;
    }

    /** One JSON-RPC call at clock `now`: the primary if the breaker allows it, then the fallbacks in
        the shuffled order. The network is what each dial would get back. Reports whether the primary
        was dialled and how many fallbacks were. */
    method Call(now: nat, primaryReply: Option<T>, shuffled: seq<Server>, replies: seq<Option<T>>)
      returns (result: CallResult<T>, triedPrimary: bool, tried: nat)
      requires BreakerOk(State()) && now <= U64_MAX
      requires multiset(shuffled) == multiset(fallbacks) && |replies| == |shuffled|
      modifies this
      ensures BreakerOk(State())
      ensures triedPrimary <==> primary.Some? && PrimaryTried(old(State()), now, fallbacks != [])
      ensures State() == if !triedPrimary then old(State()) else if primaryReply.Some? then RESET
        else AfterFailure(old(State()), now)
      ensures result.Trapped? <==> triedPrimary && primaryReply.None? && Traps(old(State()))
      // some server is dialled whenever one is configured
      ensures triedPrimary || tried > 0 <==> primary.Some? || fallbacks != []
      ensures result.NotConfigured? <==> primary.None? && fallbacks == []
      // answered iff a dialled server answered, with the first answer, and nothing is dialled after it
      ensures tried <= |replies|
      ensures result.Answered?
         <==> (triedPrimary && primaryReply.Some?) || exists i :: 0 <= i < tried && replies[i].Some?
      ensures triedPrimary && primaryReply.Some? ==> tried == 0 && primaryReply == Some(result.value)
      ensures forall i :: 0 <= i < tried && replies[i].Some? ==> i == tried - 1 && replies[i] == Some(result.value)
      ensures result.AllFailed? ==> tried == |fallbacks|
    {
      SameLength(shuffled, fallbacks);
      triedPrimary, tried := false, 0;
      if primary.None? && fallbacks == [] {
        return NotConfigured, triedPrimary, tried;
      }
      var coolingDown := cooldownUntil > now;
      if primary.Some? && (!coolingDown || fallbacks == []) {
        triedPrimary := true;
        if primaryReply.Some? {
          RecordPrimarySuccess();
          return Answered(primaryReply.value), triedPrimary, tried;
        }
        var trapped := RecordPrimaryFailure(now);
        if trapped {
          return Trapped, triedPrimary, tried;
        }
      }
      while tried < |shuffled|
        invariant tried <= |shuffled|
        invariant forall i :: 0 <= i < tried ==> replies[i].None?
      {
        tried := tried + 1;
        if replies[tried - 1].Some? {
          return Answered(replies[tried - 1].value), triedPrimary, tried;
        }
      }
      return AllFailed, triedPrimary, tried;
    }
  }

  lemma SameLength(a: seq<Server>, b: seq<Server>)
    requires multiset(a) == multiset(b)
    ensures |a| == |b|
  {
    assert |a| == |multiset(a)| && |b| == |multiset(b)|;
  }

  // ---------------------------------------------------------------- how often a dead primary is dialled

  predicate Clock(times: seq<nat>, from: nat, last: nat) {
    && (forall i :: 0 <= i < |times| ==> from <= times[i] <= last)
    && (forall i, j :: 0 <= i < j < |times| ==> times[i] <= times[j])
  }

  function AfterCall(b: Breaker, now: nat): Breaker {
    if PrimaryTried(b, now, true) then AfterFailure(b, now) else b
  }

  function BreakerAfter(b: Breaker, times: seq<nat>): Breaker
    decreases |times|
  {
    if times == [] then b else BreakerAfter(AfterCall(b, times[0]), times[1..])
  }

  /** Dials of a primary that always fails, over calls at these times, with a fallback configured. */
  function PrimaryDials(b: Breaker, times: seq<nat>): nat
    decreases |times|
  {
    if times == [] then 0
    else (if PrimaryTried(b, times[0], true) then 1 else 0) + PrimaryDials(AfterCall(b, times[0]), times[1..])
  }

  /** How many of those dials trap on the counter. */
  function CounterTraps(b: Breaker, times: seq<nat>): nat
    decreases |times|
  {
    if times == [] then 0
    else
      var here := if PrimaryTried(b, times[0], true) && Traps(b) then 1 else 0;
      here + CounterTraps(AfterCall(b, times[0]), times[1..])
  }

  function Max(a: nat, b: nat): nat {
    if a < b then b else a
  }

  /** Calls at the last instant the clock can show, where no cooldown can lie ahead. */
  function CallsAtEnd(times: seq<nat>): nat
    decreases |times|
  {
    if times == [] then 0 else (if times[0] == U64_MAX then 1 else 0) + CallsAtEnd(times[1..])
  }

  /** Dials still possible by `last`, besides those at the last instant: one free dial below the
      threshold, two more after each counter trap, and one per full cooldown from the moment the
      primary may be tried again. */
  function DialBudget(b: Breaker, from: nat, last: nat, traps: nat): nat {
    var ready := Max(b.until, from);
    2 * traps
    + (if last < ready || ready >= U64_MAX then 0
      else 1 + (if b.fails == 0 then 1 else 0) + (last - ready) / COOLDOWN_MS)
  }

  lemma CooldownStep(a: nat, b: nat)
    requires b + COOLDOWN_MS <= a
    ensures (a - (b + COOLDOWN_MS)) / COOLDOWN_MS + 1 == (a - b) / COOLDOWN_MS
  {
  }

  lemma {:induction false} DialsWithinBudget(b: Breaker, times: seq<nat>, from: nat, last: nat)
    requires BreakerOk(b) && Clock(times, from, last) && last <= U64_MAX
    ensures PrimaryDials(b, times) <= DialBudget(b, from, last, CounterTraps(b, times)) + CallsAtEnd(times)
    decreases |times|
  {
    if times != [] {
      var now, b' := times[0], AfterCall(b, times[0]);
      DialsWithinBudget(b', times[1..], now, last);
      if PrimaryTried(b, now, true) && !Traps(b) && b.fails > 0 && now + COOLDOWN_MS <= last {
        CooldownStep(last, now);
      }
      var ready := Max(b.until, from);
      if PrimaryTried(b, now, true) {
        assert ready <= now <= last;
        assert (last - now) / COOLDOWN_MS <= (last - ready) / COOLDOWN_MS;
      }
    }
  }

  /** A wrapped counter needs 2^32 consecutive failures for each trap. */
  lemma {:induction false} TrapsAreRare(b: Breaker, times: seq<nat>)
    requires BreakerOk(b) && forall i :: 0 <= i < |times| ==> times[i] <= U64_MAX
    ensures CounterTraps(b, times) * (U32_MAX + 1) <= b.fails + PrimaryDials(b, times)
    decreases |times|
  {
    if times != [] {
      TrapsAreRare(AfterCall(b, times[0]), times[1..]);
    }
  }

  /** For every run of calls on a non-decreasing clock with a fallback and a primary that always
      fails, the primary is dialled at most `2 + elapsed / 30000` times, two more times for each 2^32
      failures counted, and at each call in the very last millisecond a `u64` clock can show. */
  lemma PrimaryDialBound(times: seq<nat>, last: nat)
    requires times != [] && Clock(times, times[0], last) && last <= 0xffff_ffff_ffff_ffff
    ensures PrimaryDials(RESET, times)
         <= 2 + (last - times[0]) / 30_000 + 2 * CounterTraps(RESET, times) + CallsAtEnd(times)
    ensures CounterTraps(RESET, times) * 0x1_0000_0000 <= PrimaryDials(RESET, times)
    ensures |times| <= 0xffff_ffff && last < 0xffff_ffff_ffff_ffff ==>
      PrimaryDials(RESET, times) <= 2 + (last - times[0]) / 30_000
  {
    DialsWithinBudget(RESET, times, times[0], last);
    TrapsAreRare(RESET, times);
    DialsAtMostCalls(RESET, times);
    if last < 0xffff_ffff_ffff_ffff {
      NoneAtEnd(times, last);
    }
  }

  lemma {:induction false} NoneAtEnd(times: seq<nat>, last: nat)
    requires last < U64_MAX && forall i :: 0 <= i < |times| ==> times[i] <= last
    ensures CallsAtEnd(times) == 0
    decreases |times|
  {
    if times != [] {
      NoneAtEnd(times[1..], last);
    }
  }

  /** At that last instant every call does dial the primary. */
  lemma {:induction false} EveryCallAtEndDials(b: Breaker, times: seq<nat>)
    requires BreakerOk(b) && forall i :: 0 <= i < |times| ==> times[i] == U64_MAX
    ensures PrimaryDials(b, times) == |times| == CallsAtEnd(times)
    decreases |times|
  {
    if times != [] {
      EveryCallAtEndDials(AfterCall(b, times[0]), times[1..]);
    }
  }

  lemma {:induction false} DialsAtMostCalls(b: Breaker, times: seq<nat>)
    ensures PrimaryDials(b, times) <= |times|
    decreases |times|
  {
    if times != [] {
      DialsAtMostCalls(AfterCall(b, times[0]), times[1..]);
    }
  }

  /** The bound is reached: two immediate failures, then one dial each time the cooldown runs out. */
  lemma DialBoundIsTight()
    ensures PrimaryDials(RESET, [0, 0, 29_999, 30_000, 60_000]) == 2 + 60_000 / 30_000
  {
    var b1, b2, b3 := Breaker(1, 0), Breaker(2, 30_000), Breaker(3, 60_000);
    var all := [0, 0, 29_999, 30_000, 60_000];
    assert all[1..] == [0, 29_999, 30_000, 60_000];
    assert [0, 29_999, 30_000, 60_000][1..] == [29_999, 30_000, 60_000];
    assert [29_999, 30_000, 60_000][1..] == [30_000, 60_000];
    assert [30_000, 60_000][1..] == [60_000];
    assert [60_000][1..] == [];
    assert PrimaryDials(b3, [60_000]) == 1;
    assert PrimaryDials(b2, [30_000, 60_000]) == 2;
    assert PrimaryDials(b2, [29_999, 30_000, 60_000]) == 2;
    assert PrimaryDials(b1, [0, 29_999, 30_000, 60_000]) == 3;
  }

  /** Sequential calls while the primary is dead: the dials the client makes are the ones counted
      above, and its breaker goes through the same states. */
  method CallInTurn<T>(client: ElectrumClient<T>, times: seq<nat>, shuffles: seq<seq<Server>>,
                       replies: seq<seq<Option<T>>>)
    returns (dials: nat)
    requires client.primary.Some? && client.fallbacks != []
    requires BreakerOk(client.State()) && Clock(times, 0, U64_MAX)
    requires |shuffles| == |replies| == |times|
    requires forall i :: 0 <= i < |times| ==>
      multiset(shuffles[i]) == multiset(client.fallbacks) && |replies[i]| == |shuffles[i]|
    modifies client
    ensures dials == PrimaryDials(old(client.State()), times)
    ensures client.State() == BreakerAfter(old(client.State()), times)
  {
    dials := 0;
    for i := 0 to |times|
      invariant BreakerOk(client.State())
      invariant dials + PrimaryDials(client.State(), times[i..]) == PrimaryDials(old(client.State()), times)
      invariant BreakerAfter(client.State(), times[i..]) == BreakerAfter(old(client.State()), times)
    {
      var _, triedPrimary, _ := client.Call(times[i], None, shuffles[i], replies[i]);
      assert times[i..][1..] == times[i + 1..];
      if triedPrimary {
        dials := dials + 1;
      }
    }
  }

  // ---------------------------------------------------------------- the checked balance sum

  datatype Balance = Balance(confirmed: int, unconfirmed: int)

  predicate Wire(b: Balance) {
    IsU64(b.confirmed) && IsI64(b.unconfirmed)
  }

  function Total(bs: seq<Balance>): Balance {
    if bs == [] then Balance(0, 0)
    else
      var t, b := Total(bs[..|bs| - 1]), bs[|bs| - 1];
      Balance(t.confirmed + b.confirmed, t.unconfirmed + b.unconfirmed)
  }

  /** Every running sum fits the machine types. */
  predicate PrefixesFit(bs: seq<Balance>) {
    forall k :: 0 <= k <= |bs| ==> Wire(Total(bs[..k]))
  }

  /** The sum is exact or refused, and it is accepted exactly when every running sum fits. */
  method SumBalances(bs: seq<Balance>) returns (sum: Option<Balance>)
    requires forall i :: 0 <= i < |bs| ==> Wire(bs[i])
    ensures sum == if PrefixesFit(bs) then Some(Total(bs)) else None
  {
    var confirmed, unconfirmed := 0, 0;
    for i := 0 to |bs|
      invariant Balance(confirmed, unconfirmed) == Total(bs[..i])
      invariant forall k :: 0 <= k <= i ==> Wire(Total(bs[..k]))
    {
      assert bs[..i + 1][..i] == bs[..i];
      assert Total(bs[..i + 1]) == Balance(confirmed + bs[i].confirmed, unconfirmed + bs[i].unconfirmed);
      if !IsU64(confirmed + bs[i].confirmed) || !IsI64(unconfirmed + bs[i].unconfirmed) {
        return None;
      }
      confirmed, unconfirmed := confirmed + bs[i].confirmed, unconfirmed + bs[i].unconfirmed;
    }
    assert bs[..|bs|] == bs;
    return Some(Total(bs));
  }

  lemma TotalAppend(a: seq<Balance>, b: seq<Balance>)
    ensures Total(a + b)
         == Balance(Total(a).confirmed + Total(b).confirmed, Total(a).unconfirmed + Total(b).unconfirmed)
  {
    if b == [] {
      assert a + b == a;
    } else {
      assert (a + b)[..|a + b| - 1] == a + b[..|b| - 1];
      TotalAppend(a, b[..|b| - 1]);
    }
  }

  lemma TotalIsSum(bs: seq<Balance>)
    ensures Total(bs) == Balance(Sum((b: Balance) => b.confirmed, bs), Sum((b: Balance) => b.unconfirmed, bs))
  {
    if bs != [] {
      TotalIsSum(bs[..|bs| - 1]);
    }
  }

  /** Two orders of the same balances never sum to different amounts. */
  lemma TotalPermutes(a: seq<Balance>, b: seq<Balance>)
    requires multiset(a) == multiset(b)
    ensures Total(a) == Total(b)
  {
    TotalIsSum(a);
    TotalIsSum(b);
    SumPermutes((b: Balance) => b.confirmed, a, b);
    SumPermutes((b: Balance) => b.unconfirmed, a, b);
  }

  // ---------------------------------------------------------------- address tags

  function TaggedWith<T>(address: string, items: seq<T>): (out: seq<(string, T)>)
    ensures |out| == |items| && forall i :: 0 <= i < |items| ==> out[i] == (address, items[i])
  {
    seq(|items|, i requires 0 <= i < |items| => (address, items[i]))
  }

  function Tagged<T>(addresses: seq<string>, results: seq<seq<T>>): seq<(string, T)>
    requires |results| == |addresses|
  {
    if addresses == [] then []
    else
      var n := |addresses| - 1;
      Tagged(addresses[..n], results[..n]) + TaggedWith(addresses[n], results[n])
  }

  function Size<T>(items: seq<T>): int {
    |items|
  }

  /** Result `j` of address `k` stands behind all results of the earlier addresses, and nothing else is there. */
  lemma {:induction false} TaggedAt<T>(addresses: seq<string>, results: seq<seq<T>>, k: nat, j: nat)
    requires |results| == |addresses| && k < |addresses| && j < |results[k]|
    ensures |Tagged(addresses, results)| == Sum(Size, results)
    ensures 0 <= Sum(Size, results[..k]) + j < |Tagged(addresses, results)|
    ensures Tagged(addresses, results)[Sum(Size, results[..k]) + j] == (addresses[k], results[k][j])
  {
    var n := |addresses| - 1;
    TaggedSize(addresses[..n], results[..n]);
    if k < n {
      TaggedAt(addresses[..n], results[..n], k, j);
      assert results[..n][..k] == results[..k];
    } else {
      assert results[..k] == results[..n];
    }
  }

  lemma {:induction false} TaggedSize<T>(addresses: seq<string>, results: seq<seq<T>>)
    requires |results| == |addresses|
    ensures |Tagged(addresses, results)| == Sum(Size, results)
  {
    if addresses != [] {
      TaggedSize(addresses[..|addresses| - 1], results[..|addresses| - 1]);
    }
  }

  /** The nested loop that flattens per-address results. */
  method TagResults<T>(addresses: seq<string>, results: seq<seq<T>>) returns (out: seq<(string, T)>)
    requires |results| == |addresses|
    ensures out == Tagged(addresses, results)
  {
    out := [];
    for i := 0 to |addresses|
      invariant out == Tagged(addresses[..i], results[..i])
    {
      ghost var before := out;
      for j := 0 to |results[i]|
        invariant out == before + TaggedWith(addresses[i], results[i][..j])
      {
        out := out + [(addresses[i], results[i][j])];
      }
      assert results[i][..|results[i]|] == results[i];
      assert addresses[..i + 1][..i] == addresses[..i] && results[..i + 1][..i] == results[..i];
    }
    assert addresses[..|addresses|] == addresses && results[..|results|] == results;
  }

  /** The items that carry this address's tag, in order. */
  function OwnedBy<T>(out: seq<(string, T)>, address: string): seq<T> {
    if out == [] then []
    else
      var last := out[|out| - 1];
      OwnedBy(out[..|out| - 1], address) + (if last.0 == address then [last.1] else [])
  }

  lemma OwnedAppend<T>(a: seq<(string, T)>, b: seq<(string, T)>, address: string)
    ensures OwnedBy(a + b, address) == OwnedBy(a, address) + OwnedBy(b, address)
  {
    if b == [] {
      assert a + b == a;
    } else {
      assert (a + b)[..|a + b| - 1] == a + b[..|b| - 1];
      OwnedAppend(a, b[..|b| - 1], address);
    }
  }

  lemma OwnedOfTagged<T>(tag: string, items: seq<T>, address: string)
    ensures OwnedBy(TaggedWith(tag, items), address) == if tag == address then items else []
  {
    if items != [] {
      var n := |items| - 1;
      assert TaggedWith(tag, items)[..n] == TaggedWith(tag, items[..n]);
      OwnedOfTagged(tag, items[..n], address);
      assert items == items[..n] + [items[n]];
    }
  }

  lemma OwnedOfLast<T>(addresses: seq<string>, results: seq<seq<T>>, address: string)
    requires |results| == |addresses| && addresses != []
    ensures var n := |addresses| - 1;
      OwnedBy(Tagged(addresses, results), address)
      == OwnedBy(Tagged(addresses[..n], results[..n]), address) + (if addresses[n] == address then results[n] else [])
  {
    var n := |addresses| - 1;
    OwnedAppend(Tagged(addresses[..n], results[..n]), TaggedWith(addresses[n], results[n]), address);
    OwnedOfTagged(addresses[n], results[n], address);
  }

  /** The tags give every address back exactly its own results, in its own order. */
  lemma {:induction false} TagsRecoverOwners<T>(addresses: seq<string>, results: seq<seq<T>>, i: nat)
    requires |results| == |addresses| && i < |addresses|
    requires forall j, k :: 0 <= j < k < |addresses| ==> addresses[j] != addresses[k]
    ensures OwnedBy(Tagged(addresses, results), addresses[i]) == results[i]
  {
    var n := |addresses| - 1;
    OwnedOfLast(addresses, results, addresses[i]);
    if i < n {
      TagsRecoverOwners(addresses[..n], results[..n], i);
    } else {
      NothingOwned(addresses[..n], results[..n], addresses[n]);
    }
  }

  lemma {:induction false} NothingOwned<T>(addresses: seq<string>, results: seq<seq<T>>, address: string)
    requires |results| == |addresses| && address !in addresses
    ensures OwnedBy(Tagged(addresses, results), address) == []
  {
    if addresses != [] {
      var n := |addresses| - 1;
      NothingOwned(addresses[..n], results[..n], address);
      OwnedOfLast(addresses, results, address);
    }
  }
}
