/** The list of bids offered for a lot (`src/schema/v2/sale_artwork.ts`): a walk of the sale's tier
    table from zero, and the resolver that hides a leader's own maximum. */
module Increments {
  import opened Wrappers
  import opened Arithmetic

  datatype Tier = Tier(to: int, amount: int)

  datatype Result<+T> = Success(value: T) | Failure(error: Error)

  datatype Error = MissingStrategy | EmptyTable

  const MAX_INCREMENTS: nat := 100

  ghost predicate Positive(table: seq<Tier>) {
    forall i | 0 <= i < |table| :: table[i].amount > 0
  }

  // ---------------------------------------------------------------- the walk

  /** The tier at the front of the list and the price, after `k` steps. */
  function Walk(table: seq<Tier>, k: nat): (w: (nat, int))
    requires table != []
    ensures w.0 < |table|
  {
    if k == 0 then (0, 0)
    else
      var (front, price) := Walk(table, k - 1);
      var next := price + table[front].amount;
      (if next > table[front].to && front + 1 < |table| then front + 1 else front, next)
  }

  function Front(table: seq<Tier>, k: nat): (i: nat)
    requires table != []
    ensures i < |table|
  {
    Walk(table, k).0
  }

  function Price(table: seq<Tier>, k: nat): int
    requires table != []
  {
    Walk(table, k).1
  }

  lemma {:induction false} PricesIncrease(table: seq<Tier>, j: nat, k: nat)
    requires table != [] && Positive(table) && j <= k
    ensures Price(table, j) + (k - j) <= Price(table, k)
  {
    if j < k {
      PricesIncrease(table, j, k - 1);
    }
  }

  ghost predicate OnGrid(table: seq<Tier>, price: int)
    requires table != []
  {
    exists k: nat :: Price(table, k) == price
  }

  /** The grid prices above `minimum` and at most `limit`, from step `k` on. */
  ghost function Offers(table: seq<Tier>, minimum: int, limit: int, k: nat): seq<int>
    requires table != [] && Positive(table)
    decreases limit - Price(table, k)
  {
    if Price(table, k) > limit then []
    else
      (if Price(table, k) > minimum then [Price(table, k)] else []) + Offers(table, minimum, limit, k + 1)
  }

  function Take<T>(s: seq<T>, n: nat): seq<T> {
    if |s| <= n then s else s[..n]
  }

  lemma TakeExact<T>(a: seq<T>, b: seq<T>, n: nat)
    requires |a| == n || (|a| < n && b == [])
    ensures Take(a + b, n) == a
  {
  }

  lemma OfferStep(table: seq<Tier>, minimum: int, limit: int, k: nat, bids: seq<int>)
    requires table != [] && Positive(table) && Price(table, k) <= limit && bids != []
    ensures var bids' := if Price(table, k) > minimum then bids + [Price(table, k)] else bids;
            bids[1..] + Offers(table, minimum, limit, k) == bids'[1..] + Offers(table, minimum, limit, k + 1)
  {
    hide Walk, Price;
    var offered := if Price(table, k) > minimum then [Price(table, k)] else [];
    var rest := Offers(table, minimum, limit, k + 1);
    assert Offers(table, minimum, limit, k) == offered + rest;
    assert (bids + offered)[1..] == bids[1..] + offered;
    assert bids[1..] + (offered + rest) == (bids[1..] + offered) + rest;
    if Price(table, k) <= minimum {
      assert bids + offered == bids;
    }
  }

  lemma WalkStarts(table: seq<Tier>)
    requires table != []
    ensures Front(table, 0) == 0 && Price(table, 0) == 0
  {
  }

  /** One step, seen from the tiers that are left. */
  lemma WalkStep(table: seq<Tier>, k: nat, tiers: seq<Tier>)
    requires table != [] && Positive(table) && tiers == table[Front(table, k)..]
    ensures tiers != [] && tiers[0].amount > 0
    ensures Price(table, k + 1) == Price(table, k) + tiers[0].amount
    ensures table[Front(table, k + 1)..] ==
            if Price(table, k + 1) > tiers[0].to && |tiers| > 1 then tiers[1..] else tiers
  {
    assert tiers[0] == table[Front(table, k)];
  }

  lemma NothingAbove(table: seq<Tier>, minimum: int, limit: int, k: nat)
    requires table != [] && Positive(table)
    ensures Price(table, k) > limit ==> Offers(table, minimum, limit, k) == []
  {
  }

  /** `bid_increments_calculator`: `table` is the cached tier table of the sale's strategy. */
  method BidIncrements(hasStrategy: bool, table: array<Tier>, minimum: int, limit: int) returns (r: Result<seq<int>>)
    requires Positive(table[..])
    ensures !hasStrategy ==> r == Failure(MissingStrategy)
    ensures hasStrategy && table.Length == 0 ==>
              r == if 0 <= limit then Failure(EmptyTable) else Success([minimum])
    ensures hasStrategy && table.Length > 0 ==>
              r == Success([minimum] + Take(Offers(table[..], minimum, limit, 0), 99))
  {
    if !hasStrategy {
      return Failure(MissingStrategy);
    }
    hide Walk, Front, Price, Offers, Take;
    ghost var cached := table[..];
    var tiers := table[..];
    var increments := [minimum];
    var current := 0;
    ghost var k := 0;
    if tiers != [] {
      WalkStarts(cached);
    }
    while |increments| < MAX_INCREMENTS && current <= limit
      invariant cached == [] ==> k == 0 && current == 0 && increments == [minimum] && tiers == []
      invariant cached != [] ==> tiers == cached[Front(cached, k)..] && current == Price(cached, k)
      invariant 1 <= |increments| <= MAX_INCREMENTS
      invariant cached != [] ==>
                  increments[1..] + Offers(cached, minimum, limit, k) == Offers(cached, minimum, limit, 0)
      invariant increments[0] == minimum
      decreases limit - current
    {
      if tiers == [] {
        return Failure(EmptyTable);
      }
      OfferStep(cached, minimum, limit, k, increments);
      WalkStep(cached, k, tiers);
      if current > minimum {
        increments := increments + [current];
      }
      var increase, to := tiers[0].amount, tiers[0].to;
      current := current + increase;
      if current > to && |tiers| > 1 {
        tiers := tiers[1..];
      }
      k := k + 1;
    }
    assert increments == [minimum] + increments[1..];
    if cached != [] {
      NothingAbove(cached, minimum, limit, k);
      TakeExact(increments[1..], Offers(cached, minimum, limit, k), 99);
    }
    r := Success(increments);
  }

  // ---------------------------------------------------------------- what the offers are

  predicate StrictlyIncreasing(s: seq<int>) {
    forall i, j | 0 <= i < j < |s| :: s[i] < s[j]
  }

  /** A price of step `k` or later. */
  ghost predicate PricedFrom(table: seq<Tier>, k: nat, p: int)
    requires table != []
  {
    exists j: nat :: k <= j && Price(table, j) == p
  }

  /** The offers are the grid prices in the window, each once, in increasing order. */
  lemma {:induction false} OffersAreTheGrid(table: seq<Tier>, minimum: int, limit: int, k: nat)
    requires table != [] && Positive(table)
    ensures var offers := Offers(table, minimum, limit, k);
            && StrictlyIncreasing(offers)
            && (forall p :: p in offers <==>
                  minimum < p <= limit && PricedFrom(table, k, p))
    decreases limit - Price(table, k)
  {
    hide Walk, Price;
    if Price(table, k) > limit {
      forall j: nat | k <= j ensures Price(table, j) > limit {
        PricesIncrease(table, k, j);
      }
    } else {
      var rest := Offers(table, minimum, limit, k + 1);
      PricesIncrease(table, k, k + 1);
      OffersAreTheGrid(table, minimum, limit, k + 1);
      forall i | 0 <= i < |rest| ensures Price(table, k) < rest[i] {
        assert rest[i] in rest;
        var j: nat :| k + 1 <= j && Price(table, j) == rest[i];
        PricesIncrease(table, k, j);
      }
      GridSplits(table, k);
    }
  }

  lemma GridSplits(table: seq<Tier>, k: nat)
    requires table != []
    ensures forall p :: PricedFrom(table, k, p) <==> p == Price(table, k) || PricedFrom(table, k + 1, p)
  {
    hide Walk, Price;
    forall p | PricedFrom(table, k, p) ensures p == Price(table, k) || PricedFrom(table, k + 1, p) {
      var j: nat :| k <= j && Price(table, j) == p;
      assert j == k || k + 1 <= j;
    }
  }

  /** A list of bids for a price, stated without the loop: the price itself, then grid prices above
      it up to the limit, increasing, none skipped, at most 100 in all. */
  ghost predicate IsBidList(bids: seq<int>, table: seq<Tier>, minimum: int, limit: int)
    requires table != []
  {
    && 1 <= |bids| <= 100
    && bids[0] == minimum
    && StrictlyIncreasing(bids)
    && (forall p | p in bids[1..] :: p <= limit && OnGrid(table, p))
    && (forall p | minimum < p <= limit && OnGrid(table, p) && p !in bids[1..] ::
          |bids| == 100 && bids[99] < p)
  }

  lemma BidsMeetTheirStatement(table: seq<Tier>, minimum: int, limit: int)
    requires table != [] && Positive(table)
    ensures IsBidList([minimum] + Take(Offers(table, minimum, limit, 0), 99), table, minimum, limit)
  {
    hide Offers, Walk;
    var offers := Offers(table, minimum, limit, 0);
    OffersAreTheGrid(table, minimum, limit, 0);
    FirstOffers(offers, minimum);
    var bids := [minimum] + Take(offers, 99);
    assert bids[1..] == Take(offers, 99);
    forall p | p in bids[1..] ensures p <= limit && OnGrid(table, p) {
      assert p in offers;
    }
    forall p | minimum < p <= limit && OnGrid(table, p) ensures p in offers {
      var j: nat :| Price(table, j) == p;
      assert PricedFrom(table, 0, p);
    }
  }

  lemma FirstOffers(offers: seq<int>, minimum: int)
    requires StrictlyIncreasing(offers) && forall p | p in offers :: minimum < p
    ensures var bids := [minimum] + Take(offers, 99);
            && StrictlyIncreasing(bids)
            && (forall p | p in Take(offers, 99) :: p in offers)
            && (forall p | p in offers && p !in Take(offers, 99) ::
                  |bids| == 100 && bids[99] < p)
  {
    var taken := Take(offers, 99);
    forall i | 0 <= i < |taken| ensures taken[i] == offers[i] && offers[i] in taken && taken[i] in offers {
    }
    Prepend(taken, minimum);
    forall p | p in offers && p !in taken ensures |taken| == 99 && taken[98] < p {
      var i :| 0 <= i < |offers| && offers[i] == p;
    }
  }

  lemma Prepend(s: seq<int>, x: int)
    requires StrictlyIncreasing(s) && forall p | p in s :: x < p
    ensures StrictlyIncreasing([x] + s)
    ensures forall i | 0 <= i < |s| :: ([x] + s)[i + 1] == s[i]
  {
    var t := [x] + s;
    forall i, j | 0 <= i < j < |t| ensures t[i] < t[j] {
      assert t[j] == s[j - 1] && s[j - 1] in s;
      if i > 0 {
        assert t[i] == s[i - 1];
      }
    }
  }

  /** The statement leaves no freedom: it determines the list. */
  lemma BidListIsUnique(a: seq<int>, b: seq<int>, table: seq<Tier>, minimum: int, limit: int)
    requires table != []
    requires IsBidList(a, table, minimum, limit) && IsBidList(b, table, minimum, limit)
    ensures a == b
  {
    SamePrefix(a, b, table, minimum, limit, |a|);
    SamePrefix(b, a, table, minimum, limit, |b|);
  }

  lemma {:induction false} SamePrefix(a: seq<int>, b: seq<int>, table: seq<Tier>, minimum: int, limit: int, n: nat)
    requires table != []
    requires IsBidList(a, table, minimum, limit) && IsBidList(b, table, minimum, limit)
    requires 1 <= n <= |a|
    ensures n <= |b| && a[..n] == b[..n]
  {
    if n > 1 {
      SamePrefix(a, b, table, minimum, limit, n - 1);
      NotLater(a, b, table, minimum, limit, n - 1);
      NotLater(b, a, table, minimum, limit, n - 1);
      assert a[..n] == a[..n - 1] + [a[n - 1]] && b[..n] == b[..n - 1] + [b[n - 1]];
    }
  }

  /** After a common prefix, a second list goes on, and not with a later bid. */
  lemma NotLater(a: seq<int>, b: seq<int>, table: seq<Tier>, minimum: int, limit: int, n: nat)
    requires table != []
    requires IsBidList(a, table, minimum, limit) && IsBidList(b, table, minimum, limit)
    requires 1 <= n < |a| && n <= |b| && a[..n] == b[..n]
    ensures n < |b| && b[n] <= a[n]
  {
    var x := a[n];
    assert x == a[1..][n - 1] && x in a[1..] && a[0] < x;
    forall j | 1 <= j < n ensures b[j] < x {
      assert b[j] == b[..n][j] == a[..n][j] == a[j];
    }
    if x in b[1..] {
      var j :| 0 <= j < |b[1..]| && b[1..][j] == x;
      assert b[j + 1] == x;
    }
  }

  // ---------------------------------------------------------------- which tier is in front

  /** The tier whose range holds `price`: the first that reaches up to it, or the last. */
  ghost predicate IsTierOf(table: seq<Tier>, price: int, i: nat) {
    && i < |table|
    && (forall j | 0 <= j < i :: table[j].to < price)
    && (i + 1 < |table| ==> price <= table[i].to)
  }

  /** The first grid price above a tier's range, when the tier is entered at `entry`. */
  function ExitPrice(entry: int, tier: Tier): int
    requires tier.amount > 0
  {
    if tier.to < entry then entry + tier.amount
    else entry + ((tier.to - entry) / tier.amount + 1) * tier.amount
  }

  /** The price at which tier `i` comes to the front. */
  function EntryPrice(table: seq<Tier>, i: nat): int
    requires i < |table| && Positive(table)
  {
    if i == 0 then 0 else ExitPrice(EntryPrice(table, i - 1), table[i - 1])
  }

  /** Every tier but the last is entered within its range. */
  ghost predicate EntersEveryTier(table: seq<Tier>)
    requires Positive(table)
  {
    forall i | 0 <= i < |table| - 1 :: EntryPrice(table, i) <= table[i].to
  }

  /** Where the walk stands while the tiers up to the front one were entered within range: some
      whole number of raises above the front tier's entry price. */
  ghost predicate OnSchedule(table: seq<Tier>, k: nat, m: nat)
    requires table != [] && Positive(table)
  {
    var i := Front(table, k);
    && Price(table, k) == EntryPrice(table, i) + m * table[i].amount
    && (forall j | 0 <= j < i :: table[j].to < EntryPrice(table, i))
    && (i + 1 < |table| ==> m == 0 || Price(table, k) <= table[i].to)
  }

  /** The exit price is the first of the tier's prices that is above its range. */
  lemma ExitIsJustAbove(entry: int, tier: Tier)
    requires tier.amount > 0 && entry <= tier.to
    ensures tier.to < ExitPrice(entry, tier) <= tier.to + tier.amount
  {
    var q := (tier.to - entry) / tier.amount;
    DivisionIs(tier.to - entry, tier.amount);
    assert (q + 1) * tier.amount == q * tier.amount + tier.amount;
  }

  lemma ExitIs(entry: int, tier: Tier, m: nat)
    requires tier.amount > 0
    requires entry + m * tier.amount <= tier.to < entry + (m + 1) * tier.amount
    ensures ExitPrice(entry, tier) == entry + (m + 1) * tier.amount
  {
    var a, d := tier.amount, tier.to - entry;
    assert (m + 1) * a == m * a + a;
    QuotientIs(d, a, m, d - m * a);
    MultipleIsLarge(m, a);
  }

  /** One step keeps to the schedule as long as the front tier was entered within its range. */
  lemma ScheduleStep(table: seq<Tier>, k: nat, m: nat) returns (m': nat)
    requires table != [] && Positive(table) && OnSchedule(table, k, m)
    requires Front(table, k) + 1 < |table| ==> EntryPrice(table, Front(table, k)) <= table[Front(table, k)].to
    ensures OnSchedule(table, k + 1, m')
    ensures Price(table, k + 1) == Price(table, k) + table[Front(table, k)].amount
    ensures if Front(table, k + 1) == Front(table, k)
            then Front(table, k) + 1 < |table| ==> Price(table, k + 1) <= table[Front(table, k)].to
            else Front(table, k + 1) == Front(table, k) + 1 && m' == 0
  {
    var i := Front(table, k);
    var entry, tier := EntryPrice(table, i), table[i];
    var next := Price(table, k) + tier.amount;
    assert next == entry + (m + 1) * tier.amount;
    if next > tier.to && i + 1 < |table| {
      m' := 0;
      assert m == 0 ==> Price(table, k) == entry;
      ExitIs(entry, tier, m);
      assert EntryPrice(table, i + 1) == next;
      assert entry <= next by {
        assert (m + 1) * tier.amount >= 0;
      }
    } else {
      m' := m + 1;
    }
  }

  lemma {:induction false} Scheduled(table: seq<Tier>, k: nat) returns (m: nat)
    requires table != [] && Positive(table) && EntersEveryTier(table)
    ensures OnSchedule(table, k, m)
  {
    if k == 0 {
      m := 0;
    } else {
      m := Scheduled(table, k - 1);
      m := ScheduleStep(table, k - 1, m);
    }
  }

  /** The walk brings tier `i` to the front exactly at its entry price. */
  lemma {:induction false} Reaches(table: seq<Tier>, i: nat) returns (k: nat)
    requires i < |table| && Positive(table)
    requires forall j | 0 <= j < i :: EntryPrice(table, j) <= table[j].to
    ensures Front(table, k) == i && OnSchedule(table, k, 0)
  {
    if i == 0 {
      k := 0;
    } else {
      k := Reaches(table, i - 1);
      k := LeavesTier(table, k, 0);
    }
  }

  lemma {:induction false} LeavesTier(table: seq<Tier>, k: nat, m: nat) returns (k': nat)
    requires table != [] && Positive(table) && OnSchedule(table, k, m)
    requires Front(table, k) + 1 < |table| && EntryPrice(table, Front(table, k)) <= table[Front(table, k)].to
    ensures Front(table, k') == Front(table, k) + 1 && OnSchedule(table, k', 0)
    decreases table[Front(table, k)].to - Price(table, k)
  {
    hide EntryPrice, OnSchedule, Walk, Front, Price;
    var m' := ScheduleStep(table, k, m);
    if Front(table, k + 1) == Front(table, k) {
      k' := LeavesTier(table, k + 1, m');
    } else {
      k' := k + 1;
    }
  }

  /** The tier in front is, at every step, the one whose range holds the current price, if and only
      if every tier but the last is entered within its range. */
  lemma FrontTierIsRight(table: seq<Tier>)
    requires table != [] && Positive(table)
    ensures (forall k: nat :: IsTierOf(table, Price(table, k), Front(table, k))) <==> EntersEveryTier(table)
  {
    hide ExitPrice, Walk;
    if EntersEveryTier(table) {
      forall k: nat ensures IsTierOf(table, Price(table, k), Front(table, k)) {
        var m := Scheduled(table, k);
        MultipleIsLarge(m, table[Front(table, k)].amount);
      }
    } else {
      var i := FirstOverrun(table);
      var k := Reaches(table, i);
      assert !IsTierOf(table, Price(table, k), Front(table, k));
    }
  }

  lemma FirstOverrun(table: seq<Tier>) returns (i: nat)
    requires Positive(table) && !EntersEveryTier(table)
    ensures i < |table| - 1 && table[i].to < EntryPrice(table, i)
    ensures forall j | 0 <= j < i :: EntryPrice(table, j) <= table[j].to
  {
    hide ExitPrice;
    i := 0;
    while EntryPrice(table, i) <= table[i].to
      invariant i < |table| - 1
      invariant forall j | 0 <= j < i :: EntryPrice(table, j) <= table[j].to
      decreases |table| - i
    {
      i := i + 1;
    }
  }

  /** It is enough that no raise exceeds the width of the next tier. */
  lemma WideTiersAreEntered(table: seq<Tier>)
    requires table != [] && Positive(table)
    requires |table| > 1 ==> 0 <= table[0].to
    requires forall i | 0 < i < |table| - 1 :: table[i - 1].amount <= table[i].to - table[i - 1].to
    ensures EntersEveryTier(table)
  {
    hide ExitPrice;
    for i := 0 to |table|
      invariant forall j | 0 <= j < i && j < |table| - 1 :: EntryPrice(table, j) <= table[j].to
    {
      if 0 < i < |table| - 1 {
        ExitIsJustAbove(EntryPrice(table, i - 1), table[i - 1]);
      }
    }
  }

  /** A raise wider than the next tier: after one step the second tier is in front, although the
      price already belongs to the third. */
  lemma NarrowTierIsOverrun()
    ensures var table := [Tier(100, 1000), Tier(200, 50), Tier(5000, 500)];
            && Positive(table) && !EntersEveryTier(table)
            && Price(table, 1) == 1000 && Front(table, 1) == 1 && IsTierOf(table, 1000, 2)
  {
    var table := [Tier(100, 1000), Tier(200, 50), Tier(5000, 500)];
    assert Walk(table, 0) == (0, 0);
    assert EntryPrice(table, 0) == 0;
    assert EntryPrice(table, 1) == 1000;
  }

  // ---------------------------------------------------------------- the resolver

  /** The collector's standing on the lot: their maximum, and whether it leads. */
  datatype Standing = Standing(max: int, leading: bool)

  /** The `increments` resolver: `standing` is `Some` when `useMyMaxBid` was asked for and the
      collector has a standing. */
  method Resolve(hasStrategy: bool, table: array<Tier>, minimumNextBid: int, standing: Option<Standing>, limit: int)
      returns (r: Result<seq<int>>)
    requires Positive(table[..])
    ensures !hasStrategy ==> r == Failure(MissingStrategy)
    ensures hasStrategy && table.Length == 0 ==>
              r == if 0 <= limit then Failure(EmptyTable)
                   else Success(if standing.Some? && standing.value.leading then [] else [minimumNextBid])
    ensures hasStrategy && table.Length > 0 ==> r.Success?
    ensures hasStrategy && table.Length > 0 ==>
              if standing.Some? && standing.value.leading
              then IsBidList([standing.value.max] + r.value, table[..], standing.value.max, limit)
                   && forall bid | bid in r.value :: standing.value.max < bid
              else IsBidList(r.value, table[..], minimumNextBid, limit)
  {
    var leading := false;
    var minimum := minimumNextBid;
    if standing.Some? {
      leading := standing.value.leading;
      minimum := if leading then standing.value.max else minimumNextBid;
    }
    r := BidIncrements(hasStrategy, table, minimum, limit);
    if table.Length > 0 {
      BidsMeetTheirStatement(table[..], minimum, limit);
    }
    if leading && r.Success? {
      var bids := r.value;
      assert bids == [minimum] + bids[1..];
      assert forall i | 0 <= i < |bids[1..]| :: bids[1..][i] == bids[i + 1];
      r := Success(bids[1..]);
    }
  }
}
