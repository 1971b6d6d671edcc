/** The restore policy: how deep a wallet may ask to be scanned, and what that depth costs. */
module Restore {
  import opened Machine
  import opened Hashcash

  datatype Policy = CreateOnly | Bounded | Unlimited

  /** The four numbers are `u32`. */
  datatype RestoreConfig = RestoreConfig(policy: Policy, maxDepthDays: nat, powFreeDays: nat, powDaysPerBit: nat,
                                         powMaxBits: nat)

  predicate ConfigOk(rc: RestoreConfig) {
    rc.maxDepthDays <= U32_MAX && rc.powFreeDays <= U32_MAX && rc.powDaysPerBit <= U32_MAX && rc.powMaxBits <= U32_MAX
  }

  function BlocksPerDay(chain: string): (n: nat)
    ensures 144 <= n <= 1440
  {
    if chain == "xmr" || chain == "wow" then 720
    else if chain == "grin" then 1440
    else if chain == "btc" then 144
    else if chain == "ltc" then 576
    else 720
  }

  function MulU64Saturating(a: nat, b: nat): nat {
    if a * b > U64_MAX then U64_MAX else a * b
  }

  function MinStartHeight(rc: RestoreConfig, chain: string, tip: nat): nat {
    match rc.policy
    case Unlimited => 0
    case CreateOnly => SubFloor(tip, MulU64Saturating(1, BlocksPerDay(chain)))
    case Bounded => SubFloor(tip, MulU64Saturating(rc.maxDepthDays, BlocksPerDay(chain)))
  }

  /** The depth gate. */
  predicate Enforce(rc: RestoreConfig, chain: string, start: nat, tip: nat) {
    rc.policy == Unlimited || start >= MinStartHeight(rc, chain, tip)
  }

  /** `x as u32` for a `u64`. */
  function U64AsU32(x: nat): nat {
    x % (U32_MAX + 1)
  }

  function DepthDays(chain: string, start: nat, tip: nat): nat {
    SubFloor(tip, start) / BlocksPerDay(chain)
  }

  /** Priced steps in a depth of this many days, beyond the free window. */
  function PriceOf(rc: RestoreConfig, days: nat): nat
    requires rc.powDaysPerBit > 0
  {
    SubFloor(days, rc.powFreeDays) / rc.powDaysPerBit
  }

  /** The price before the cast and the cap. */
  function RawBits(rc: RestoreConfig, chain: string, start: nat, tip: nat): nat
    requires rc.powDaysPerBit > 0
  {
    PriceOf(rc, DepthDays(chain, start, tip))
  }

  function Min(a: nat, b: nat): nat {
    if a < b then a else b
  }

  /** The price of a restore in leading zero bits. */
  function RequiredBits(rc: RestoreConfig, chain: string, start: nat, tip: nat): nat {
    if rc.powDaysPerBit == 0 then 0 else Min(U64AsU32(RawBits(rc, chain, start, tip)), rc.powMaxBits)
  }

  // ---------------------------------------------------------------- the gate

  /** Exactly which starts pass: at most the allowed number of days' blocks behind the tip. The
      saturating product never saturates. */
  lemma EnforceExactly(rc: RestoreConfig, chain: string, start: nat, tip: nat)
    requires ConfigOk(rc)
    ensures Enforce(rc, chain, start, tip)
       <==> rc.policy == Unlimited
            || tip - start <= DaysAllowed(rc) * BlocksPerDay(chain)
  {
    Product(rc.maxDepthDays, U32_MAX, BlocksPerDay(chain), 1440);
  }

  lemma Product(a: nat, b: nat, c: nat, d: nat)
    requires a <= b && c <= d
    ensures a * c <= b * d
  {
    assert a * c <= b * c;
    assert b * c <= b * d;
  }

  ghost predicate Admits(narrow: RestoreConfig, wide: RestoreConfig) {
    forall chain, start: nat, tip: nat :: Enforce(narrow, chain, start, tip) ==> Enforce(wide, chain, start, tip)
  }

  /** The policies are nested: bounded within unlimited always, and create-only within bounded exactly
      when the bound is at least one day. */
  lemma PoliciesNest(rc: RestoreConfig)
    requires ConfigOk(rc)
    ensures Admits(rc.(policy := Bounded), rc.(policy := Unlimited))
    ensures Admits(rc.(policy := CreateOnly), rc.(policy := Bounded)) <==> rc.maxDepthDays >= 1
  {
    var create, bounded := rc.(policy := CreateOnly), rc.(policy := Bounded);
    if rc.maxDepthDays >= 1 {
      forall chain, start: nat, tip: nat | Enforce(create, chain, start, tip)
        ensures Enforce(bounded, chain, start, tip)
      {
        EnforceExactly(create, chain, start, tip);
        EnforceExactly(bounded, chain, start, tip);
        Product(1, rc.maxDepthDays, BlocksPerDay(chain), BlocksPerDay(chain));
      }
    } else {
      assert Enforce(create, "btc", 0, 1) && !Enforce(bounded, "btc", 0, 1);
    }
  }

  // ---------------------------------------------------------------- the price

  lemma OneMore(q: nat, r: nat, d: nat)
    ensures q > r ==> d * q >= d * r + d
  {
    if q > r {
      Product(r + 1, q, d, d);
    }
  }

  lemma DivideMonotone(a: nat, b: nat, d: nat)
    requires a <= b && d > 0
    ensures a / d <= b / d
  {
    assert a == d * (a / d) + a % d;
    assert b == d * (b / d) + b % d;
    OneMore(a / d, b / d, d);
  }

  lemma DivideProduct(a: nat, days: nat, d: nat)
    requires d > 0 && a <= days * d
    ensures a / d <= days
  {
    assert a == d * (a / d) + a % d;
    OneMore(a / d, days, d);
  }

  lemma PriceMonotone(rc: RestoreConfig, less: nat, more: nat)
    requires rc.powDaysPerBit > 0 && less <= more
    ensures PriceOf(rc, less) <= PriceOf(rc, more) <= more
  {
    DivideMonotone(SubFloor(less, rc.powFreeDays), SubFloor(more, rc.powFreeDays), rc.powDaysPerBit);
    Product(1, rc.powDaysPerBit, more, more);
    DivideProduct(SubFloor(more, rc.powFreeDays), more, rc.powDaysPerBit);
  }

  /** Before the cast, a deeper start never costs less. */
  lemma RawBitsMonotone(rc: RestoreConfig, chain: string, deep: nat, shallow: nat, tip: nat)
    requires rc.powDaysPerBit > 0 && deep <= shallow
    ensures RawBits(rc, chain, shallow, tip) <= RawBits(rc, chain, deep, tip)
  {
    DivideMonotone(SubFloor(tip, shallow), SubFloor(tip, deep), BlocksPerDay(chain));
    PriceMonotone(rc, DepthDays(chain, shallow, tip), DepthDays(chain, deep, tip));
  }

  /** The days a restricting policy allows. */
  function DaysAllowed(rc: RestoreConfig): nat {
    if rc.policy == CreateOnly then 1 else rc.maxDepthDays
  }

  /** A start the gate accepts under a bound of `D` days is at most `D` days deep. */
  lemma AcceptedDepth(rc: RestoreConfig, chain: string, start: nat, tip: nat)
    requires ConfigOk(rc) && rc.policy != Unlimited && Enforce(rc, chain, start, tip)
    ensures DepthDays(chain, start, tip) <= DaysAllowed(rc)
  {
    EnforceExactly(rc, chain, start, tip);
    DivideProduct(SubFloor(tip, start), DaysAllowed(rc), BlocksPerDay(chain));
  }

  /** Gate and price agree: an accepted start costs at most what the bound itself would cost, and
      under both restricting policies the cast loses nothing. */
  lemma AcceptedPrice(rc: RestoreConfig, chain: string, start: nat, tip: nat)
    requires ConfigOk(rc) && rc.policy != Unlimited && rc.powDaysPerBit > 0
    requires Enforce(rc, chain, start, tip)
    ensures RequiredBits(rc, chain, start, tip) == Min(RawBits(rc, chain, start, tip), rc.powMaxBits)
    ensures RequiredBits(rc, chain, start, tip) <= Min(rc.powMaxBits, PriceOf(rc, DaysAllowed(rc)))
  {
    AcceptedDepth(rc, chain, start, tip);
    PriceMonotone(rc, DepthDays(chain, start, tip), DaysAllowed(rc));
    CastSmall(RawBits(rc, chain, start, tip));
  }

  /** From an accepted start every shallower one is accepted too, and costs no more. */
  lemma ShallowerIsCheaper(rc: RestoreConfig, chain: string, deep: nat, shallow: nat, tip: nat)
    requires ConfigOk(rc) && rc.policy != Unlimited && rc.powDaysPerBit > 0
    requires Enforce(rc, chain, deep, tip) && deep <= shallow
    ensures Enforce(rc, chain, shallow, tip)
    ensures RequiredBits(rc, chain, shallow, tip) <= RequiredBits(rc, chain, deep, tip)
  {
    EnforceExactly(rc, chain, deep, tip);
    EnforceExactly(rc, chain, shallow, tip);
    AcceptedPrice(rc, chain, deep, tip);
    AcceptedPrice(rc, chain, shallow, tip);
    RawBitsMonotone(rc, chain, deep, shallow, tip);
  }

  lemma CastSmall(x: nat)
    requires x <= U32_MAX
    ensures U64AsU32(x) == x
  {
  }

  /** How far back the chain must reach before the cast can lose anything. */
  predicate TipInRange(rc: RestoreConfig, chain: string, tip: nat)
    requires rc.powDaysPerBit > 0
  {
    PriceOf(rc, tip / BlocksPerDay(chain)) <= U32_MAX
  }

  /** The start whose depth beyond the free window is exactly `bits` priced steps. */
  lemma StartAt(rc: RestoreConfig, chain: string, tip: nat, bits: nat) returns (start: nat)
    requires rc.powDaysPerBit > 0
    requires 0 < bits <= PriceOf(rc, tip / BlocksPerDay(chain))
    ensures start <= tip && RawBits(rc, chain, start, tip) == bits
    ensures start == tip - (rc.powFreeDays + bits * rc.powDaysPerBit) * BlocksPerDay(chain)
  {
    var n, d := BlocksPerDay(chain), rc.powDaysPerBit;
    var over := SubFloor(tip / n, rc.powFreeDays);
    Product(bits, over / d, d, d);
    assert over == d * (over / d) + over % d;
    var days := rc.powFreeDays + bits * d;
    assert days <= tip / n;
    Product(days, tip / n, n, n);
    assert tip == n * (tip / n) + tip % n;
    start := tip - days * n;
    ExactQuotient(days, n);
    ExactQuotient(bits, d);
  }

  lemma ExactQuotient(a: nat, d: nat)
    requires d > 0
    ensures (a * d) / d == a
  {
    DivideProduct(a * d, a, d);
    assert a * d == d * ((a * d) / d) + (a * d) % d;
    OneMore(a, (a * d) / d, d);
  }

  ghost predicate CastExactFromAnywhere(rc: RestoreConfig, chain: string, tip: nat)
    requires rc.powDaysPerBit > 0
  {
    forall start: nat :: U64AsU32(RawBits(rc, chain, start, tip)) == RawBits(rc, chain, start, tip)
  }

  ghost predicate DeeperNeverCheaper(rc: RestoreConfig, chain: string, tip: nat) {
    forall deep: nat, shallow: nat :: deep <= shallow
      ==> RequiredBits(rc, chain, shallow, tip) <= RequiredBits(rc, chain, deep, tip)
  }

  /** Under the unlimited policy every start is accepted. The cast is exact for all of them exactly
      when the whole chain prices below 2^32 bits. */
  lemma CastExactly(rc: RestoreConfig, chain: string, tip: nat)
    requires rc.powDaysPerBit > 0
    ensures CastExactFromAnywhere(rc, chain, tip) <==> TipInRange(rc, chain, tip)
  {
    var most := RawBits(rc, chain, 0, tip);
    if TipInRange(rc, chain, tip) {
      forall start: nat
        ensures U64AsU32(RawBits(rc, chain, start, tip)) == RawBits(rc, chain, start, tip)
      {
        RawBitsMonotone(rc, chain, 0, start, tip);
        CastSmall(RawBits(rc, chain, start, tip));
      }
    } else {
      assert U64AsU32(most) <= U32_MAX < most;
    }
  }

  /** And deeper starts never cost less exactly in the same range, or when the cap is zero. */
  lemma DeeperNeverCheaperExactly(rc: RestoreConfig, chain: string, tip: nat)
    requires rc.powDaysPerBit > 0 && rc.powMaxBits <= U32_MAX
    ensures DeeperNeverCheaper(rc, chain, tip) <==> TipInRange(rc, chain, tip) || rc.powMaxBits == 0
  {
    if TipInRange(rc, chain, tip) {
      CastExactly(rc, chain, tip);
      forall deep: nat, shallow: nat | deep <= shallow
        ensures RequiredBits(rc, chain, shallow, tip) <= RequiredBits(rc, chain, deep, tip)
      {
        RawBitsMonotone(rc, chain, deep, shallow, tip);
        assert U64AsU32(RawBits(rc, chain, deep, tip)) == RawBits(rc, chain, deep, tip);
        assert U64AsU32(RawBits(rc, chain, shallow, tip)) == RawBits(rc, chain, shallow, tip);
      }
    } else if rc.powMaxBits > 0 {
      var deep := StartAt(rc, chain, tip, U32_MAX + 1);
      var shallow := StartAt(rc, chain, tip, U32_MAX);
      Wraps();
      CastSmall(U32_MAX);
      var n, d := BlocksPerDay(chain), rc.powDaysPerBit;
      Product(rc.powFreeDays + U32_MAX * d, rc.powFreeDays + (U32_MAX + 1) * d, n, n);
      assert deep <= shallow;
      assert RequiredBits(rc, chain, deep, tip) == 0 && RequiredBits(rc, chain, shallow, tip) == rc.powMaxBits;
    }
  }

  lemma Wraps()
    ensures U64AsU32(U32_MAX + 1) == 0
  {
  }

  // ---------------------------------------------------------------- the price in blocks

  /** A day of blocks takes a day at each chain's block target: two minutes on Monero and Wownero, and on a
      chain not known; one on Grin; ten on Bitcoin; two and a half on Litecoin. */
  lemma BlocksPerDayExactly(chain: string)
    ensures chain == "xmr" || chain == "wow" ==> BlocksPerDay(chain) * 120 == 86_400
    ensures chain == "grin" ==> BlocksPerDay(chain) * 60 == 86_400
    ensures chain == "btc" ==> BlocksPerDay(chain) * 600 == 86_400
    ensures chain == "ltc" ==> BlocksPerDay(chain) * 150 == 86_400
    ensures chain !in ["xmr", "wow", "grin", "btc", "ltc"] ==> BlocksPerDay(chain) * 120 == 86_400
  {
  }

  /** The cast keeps the low 32 bits. */
  lemma CastKeepsLowBits(x: nat) returns (turns: nat)
    ensures U64AsU32(x) < 0x1_0000_0000 && x == U64AsU32(x) + turns * 0x1_0000_0000
  {
    turns := x / 0x1_0000_0000;
  }

  /** A quotient reaches `k` when the dividend reaches `k` divisors. */
  lemma QuotientReaches(a: nat, d: nat, k: nat)
    requires d > 0
    ensures a / d >= k <==> a >= k * d
  {
    if a >= k * d {
      DivideMonotone(k * d, a, d);
      ExactQuotient(k, d);
    } else {
      assert a == d * (a / d) + a % d;
      OneMore(k, a / d, d);
      if a / d >= k {
        Product(k, a / d, d, d);
      }
    }
  }

  /** The price in blocks, before the cast and the cap: a start costs `k` bits or more exactly when the depth
      is at least the free days and `k` steps, all in blocks. */
  lemma PriceExactly(rc: RestoreConfig, chain: string, start: nat, tip: nat, k: nat)
    requires rc.powDaysPerBit > 0 && k > 0
    ensures RawBits(rc, chain, start, tip) >= k
       <==> tip - start >= (rc.powFreeDays + k * rc.powDaysPerBit) * BlocksPerDay(chain)
  {
    var n, d := BlocksPerDay(chain), rc.powDaysPerBit;
    var days := rc.powFreeDays + k * d;
    Product(1, k, d, d);
    QuotientReaches(SubFloor(DepthDays(chain, start, tip), rc.powFreeDays), d, k);
    QuotientReaches(SubFloor(tip, start), n, days);
    Product(1, days, n, n);
  }

  /** What is asked for: nothing when pricing is off; the capped price wherever the cast loses nothing. */
  lemma RequiredExactly(rc: RestoreConfig, chain: string, start: nat, tip: nat, k: nat)
    ensures rc.powDaysPerBit == 0 ==> RequiredBits(rc, chain, start, tip) == 0
    ensures rc.powDaysPerBit > 0 && k > 0 && RawBits(rc, chain, start, tip) < 0x1_0000_0000 ==>
      (RequiredBits(rc, chain, start, tip) >= k
       <==> k <= rc.powMaxBits && tip - start >= (rc.powFreeDays + k * rc.powDaysPerBit) * BlocksPerDay(chain))
  {
    if rc.powDaysPerBit > 0 && k > 0 && RawBits(rc, chain, start, tip) < 0x1_0000_0000 {
      PriceExactly(rc, chain, start, tip, k);
      CastSmall(RawBits(rc, chain, start, tip));
    }
  }

  // ---------------------------------------------------------------- paying

  datatype PayResult = Paid | NonceMissing | Insufficient

  /** The pricing step after the depth gate. */
  method EnforceRestorePow(rc: RestoreConfig, hash: seq<Byte> -> seq<Byte>, chain: string, asset: seq<Byte>,
                           address: seq<Byte>,
                           start: nat, tip: nat, nonce: Option<nat>) returns (result: PayResult)
    requires start <= U64_MAX && (nonce.Some? ==> nonce.value <= U64_MAX)
    ensures var bits := RequiredBits(rc, chain, start, tip);
      && (result.NonceMissing? <==> bits > 0 && nonce.None?)
      && (result.Paid? <==> bits == 0 || (nonce.Some? && WorkDone(hash, asset, address, start, nonce.value, bits)))
  {
    var bits := RequiredBits(rc, chain, start, tip);
    if bits == 0 {
      return Paid;
    }
    if nonce.None? {
      return NonceMissing;
    }
    var ok := Verify(hash, asset, address, start, nonce.value, bits);
    return if ok then Paid else Insufficient;
  }

  /** With a zero price, or pricing switched off, nothing is asked; and a configuration whose cap
      exceeds the digest can ask for work no nonce can do. */
  lemma PayableExactly(rc: RestoreConfig, hash: seq<Byte> -> seq<Byte>, chain: string, asset: seq<Byte>,
                       address: seq<Byte>,
                       start: nat, tip: nat, nonce: nat)
    requires |hash(Hashed(asset, address, start, nonce))| == 32
    ensures var bits := RequiredBits(rc, chain, start, tip);
      WorkDone(hash, asset, address, start, nonce, bits)
      <==> bits <= 256 && BigEndian(hash(Hashed(asset, address, start, nonce))) < Pow2(256 - bits)
  {
    WorkExactly(hash, asset, address, start, nonce, RequiredBits(rc, chain, start, tip));
  }
}
