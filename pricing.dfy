/**
  The quote pricing engine: from a shipment it prices three fixed carriers
  and, depending on the route, a US domestic or an international one, adds
  a 10% tax rounded to cents, and orders the quotes by total price, keeping
  generation order among equal totals. The simulated network delay is not
  part of the model, so the engine is a deterministic computation.
 */
module Pricing {
  import opened Types

  const DhlId: string := "dhl-express"
  const FedexId: string := "fedex-priority"
  const UpsId: string := "ups-ground"
  const UspsId: string := "usps-priority"
  const AramexId: string := "aramex-international"

  const DhlLogo: string := "https://hatstore.imgix.net/DHLEXPRESS.jpg"
  const FedexLogo: string := "https://encrypted-tbn0.gstatic.com/images?q=tbn:ANd9GcSF36tLpWEhwwk56thJcg9iuEeFjot7-CiOqQ&s"
  const UpsLogo: string := "https://i.etsystatic.com/6241544/r/il/89a836/3532067948/il_570xN.3532067948_lu3r.jpg"
  const UspsLogo: string := "https://20068459.fs1.hubspotusercontent-na1.net/hubfs/20068459/app-usps.png"
  const AramexLogo: string := "https://upload.wikimedia.org/wikipedia/commons/thumb/0/00/Aramex_Logo.svg/200px-Aramex_Logo.svg.png"

  // ---------------------------------------------------------------------
  // Price factors
  // ---------------------------------------------------------------------

  /** The distance proxy: international routes count ten times as far. */
  function BaseDistance(isInternational: bool): (r: real)
    ensures r > 0.0
    ensures isInternational ==> r == 10.0 * 500.0
    ensures !isInternational ==> r == 500.0
  {
    if isInternational then 5000.0 else 500.0
  }

  /** An international route counts ten times the distance of a domestic one. */
  lemma InternationalTenfold()
    ensures BaseDistance(true) == 10.0 * BaseDistance(false)
  {
  }

  /** JavaScript truthiness of an optional number: present and not zero. */
  predicate Truthy(x: Option<real>)
  {
    x.Some? && x.value != 0.0
  }

  /** length * width * height / 1000 when all three dimensions are truthy, else 0. */
  function VolumeFactor(p: PackageDimensions): (r: real)
    ensures !(Truthy(p.length) && Truthy(p.width) && Truthy(p.height)) ==> r == 0.0
    ensures Truthy(p.length) && Truthy(p.width) && Truthy(p.height)
            ==> r * 1000.0 == p.length.value * p.width.value * p.height.value
  {
    if Truthy(p.length) && Truthy(p.width) && Truthy(p.height)
    then p.length.value * p.width.value * p.height.value / 1000.0
    else 0.0
  }

  /** Dimensions that are absent or strictly positive never make the volume factor negative. */
  lemma VolumeFactorNonNegative(p: PackageDimensions)
    requires p.length.Some? ==> p.length.value > 0.0
    requires p.width.Some? ==> p.width.value > 0.0
    requires p.height.Some? ==> p.height.value > 0.0
    ensures VolumeFactor(p) >= 0.0
    ensures VolumeFactor(p) > 0.0 <==> p.length.Some? && p.width.Some? && p.height.Some?
  {
    if p.length.Some? && p.width.Some? && p.height.Some? {
      var l, w, h := p.length.value, p.width.value, p.height.value;
      assert l * w > 0.0;
      assert l * w * h > 0.0;
    }
  }

  // ---------------------------------------------------------------------
  // The candidate carriers, before tax
  // ---------------------------------------------------------------------

  function DhlQuote(f: ShippingFormData): CourierQuote
  {
    var d, w, v := BaseDistance(f.isInternational), f.package.weight, VolumeFactor(f.package);
    CourierQuote(DhlId, "DHL Express", DhlLogo,
                 (d * 0.15 + w * 5.0 + v * 2.0) * (if f.isInternational then 2.0 else 1.0),
                 0.0, 0.0, "USD", if f.isInternational then 3 else 1, Express,
                 ["Real-time tracking", "Insurance included", "Signature required", "Priority handling"])
  }

  function FedexQuote(f: ShippingFormData): CourierQuote
  {
    var d, w, v := BaseDistance(f.isInternational), f.package.weight, VolumeFactor(f.package);
    CourierQuote(FedexId, "FedEx Priority", FedexLogo,
                 (d * 0.12 + w * 4.5 + v * 1.8) * (if f.isInternational then 1.8 else 1.0),
                 0.0, 0.0, "USD", if f.isInternational then 4 else 2, Express,
                 ["Package protection", "Tracking", "Money-back guarantee"])
  }

  function UpsQuote(f: ShippingFormData): CourierQuote
  {
    var d, w, v := BaseDistance(f.isInternational), f.package.weight, VolumeFactor(f.package);
    CourierQuote(UpsId, "UPS Ground", UpsLogo,
                 (d * 0.03 + w * 1.2 + v * 0.5) * (if f.isInternational then 1.2 else 1.0),
                 0.0, 0.0, "USD", if f.isInternational then 7 else 5, Standard,
                 ["Basic tracking", "Reliable delivery", "Carbon neutral"])
  }

  function UspsQuote(f: ShippingFormData): CourierQuote
  {
    var d, w, v := BaseDistance(f.isInternational), f.package.weight, VolumeFactor(f.package);
    CourierQuote(UspsId, "USPS Priority Mail", UspsLogo,
                 d * 0.06 + w * 2.5 + v * 1.0,
                 0.0, 0.0, "USD", 3, Standard,
                 ["Affordable", "Nationwide coverage", "Free tracking"])
  }

  function AramexQuote(f: ShippingFormData): CourierQuote
  {
    var d, w, v := BaseDistance(f.isInternational), f.package.weight, VolumeFactor(f.package);
    CourierQuote(AramexId, "Aramex International", AramexLogo,
                 d * 0.1 + w * 4.0 + v * 1.5,
                 0.0, 0.0, "USD", 6, Standard,
                 ["Global network", "Customs clearance", "Door-to-door"])
  }

  /** The quotes in generation order: the three fixed carriers, then the route-dependent one. */
  function Candidates(f: ShippingFormData): (r: seq<CourierQuote>)
    ensures |r| == if f.isInternational || f.origin.country == US then 4 else 3
    ensures r[0].id == DhlId && r[1].id == FedexId && r[2].id == UpsId
    ensures |r| == 4 ==> r[3].id == if f.isInternational then AramexId else UspsId
    ensures forall i :: 0 <= i < |r| ==> r[i].tax == 0.0 && r[i].totalPrice == 0.0
  {
    [DhlQuote(f), FedexQuote(f), UpsQuote(f)]
    + (if !f.isInternational && f.origin.country == US then [UspsQuote(f)] else [])
    + (if f.isInternational then [AramexQuote(f)] else [])
  }

  // ---------------------------------------------------------------------
  // Tax and rounding
  // ---------------------------------------------------------------------

  /** A whole number of cents. */
  predicate IsWholeCents(r: real)
  {
    (r * 100.0).Floor as real == r * 100.0
  }

  /**
    parseFloat(x.toFixed(2)) on exact reals: the whole number of cents
    nearest to x, a half cent rounded away from zero.
   */
  function Round2(x: real): (r: real)
    ensures IsWholeCents(r)
    ensures -0.005 <= r - x <= 0.005
    ensures x >= 0.0 ==> r - x > -0.005
    ensures x < 0.0 ==> r - x < 0.005
  {
    var n := if x >= 0.0 then RoundHalfUp(x * 100.0) else -RoundHalfUp(-x * 100.0);
    CentsWhole(n);
    n as real / 100.0
  }

  /** A whole number of hundredths is whole cents. */
  lemma CentsWhole(n: int)
    ensures IsWholeCents(n as real / 100.0)
  {
    assert (n as real / 100.0) * 100.0 == n as real;
  }

  /** The whole number nearest to y, a half rounded up. */
  function RoundHalfUp(y: real): (n: int)
    ensures y - 0.5 < n as real <= y + 0.5
  {
    (y + 0.5).Floor
  }

  /** Rounding an amount that is already whole cents changes nothing. */
  lemma Round2Idempotent(x: real)
    ensures Round2(Round2(x)) == Round2(x)
  {
    var r := Round2(x);
    var n := (r * 100.0).Floor;
    assert n as real == r * 100.0;
    if r >= 0.0 {
      assert RoundHalfUp(r * 100.0) == n;
    } else {
      assert RoundHalfUp(-r * 100.0) == -n;
    }
  }

  /** Half a cent rounds away from zero on either side; 16.2 * 1.1 is exactly 17.82. */
  lemma Round2Examples()
    ensures Round2(0.125) == 0.13 && Round2(-0.125) == -0.13
    ensures Round2(0.124) == 0.12
    ensures Round2(16.2 * 1.1) == 17.82
  {
    assert RoundHalfUp(12.5) == 13;
    assert RoundHalfUp(12.4) == 12;
    assert RoundHalfUp(1782.0) == 1782;
  }

  /** The quote with its 10% tax and its total filled in, each rounded to cents. */
  function WithTax(q: CourierQuote): (r: CourierQuote)
    ensures r.(tax := q.tax, totalPrice := q.totalPrice) == q
    ensures IsWholeCents(r.tax) && -0.005 <= r.tax - q.basePrice * 0.1 <= 0.005
    ensures IsWholeCents(r.totalPrice) && -0.005 <= r.totalPrice - q.basePrice * 1.1 <= 0.005
  {
    q.(tax := Round2(q.basePrice * 0.1), totalPrice := Round2(q.basePrice * 1.1))
  }

  function AddTax(qs: seq<CourierQuote>): (r: seq<CourierQuote>)
    ensures |r| == |qs| && forall i :: 0 <= i < |qs| ==> r[i] == WithTax(qs[i])
  {
    seq(|qs|, i requires 0 <= i < |qs| => WithTax(qs[i]))
  }

  // ---------------------------------------------------------------------
  // Ordering by total price, stably
  // ---------------------------------------------------------------------

  ghost predicate SortedByTotal(s: seq<CourierQuote>)
  {
    forall i, j :: 0 <= i < j < |s| ==> s[i].totalPrice <= s[j].totalPrice
  }

  /** The quotes of s whose total is p, in their order in s. */
  function PricedAt(s: seq<CourierQuote>, p: real): seq<CourierQuote>
  {
    if s == [] then [] else (if s[0].totalPrice == p then [s[0]] else []) + PricedAt(s[1..], p)
  }

  /**
    b reorders a stably: for every total, the quotes with that total appear
    in b exactly as they appear in a.
   */
  ghost predicate StableReorder(a: seq<CourierQuote>, b: seq<CourierQuote>)
  {
    forall p :: PricedAt(a, p) == PricedAt(b, p)
  }

  /** Inserts q before the first quote that costs at least as much. */
  function Insert(q: CourierQuote, s: seq<CourierQuote>): (r: seq<CourierQuote>)
    ensures |r| == |s| + 1
  {
    if s == [] || q.totalPrice <= s[0].totalPrice then [q] + s else [s[0]] + Insert(q, s[1..])
  }

  /** The reference stable sort by total price (insertion sort). */
  function SortByTotal(s: seq<CourierQuote>): (r: seq<CourierQuote>)
    ensures |r| == |s|
  {
    if s == [] then [] else Insert(s[0], SortByTotal(s[1..]))
  }

  lemma {:induction false} PricedAtAppend(a: seq<CourierQuote>, b: seq<CourierQuote>, p: real)
    ensures PricedAt(a + b, p) == PricedAt(a, p) + PricedAt(b, p)
  {
    if a == [] {
      assert a + b == b;
    } else {
      var head := if a[0].totalPrice == p then [a[0]] else [];
      assert (a + b)[0] == a[0];
      assert (a + b)[1..] == a[1..] + b;
      assert PricedAt(a + b, p) == head + PricedAt(a[1..] + b, p);
      PricedAtAppend(a[1..], b, p);
      assert PricedAt(a, p) == head + PricedAt(a[1..], p);
    }
  }

  lemma {:induction false} PricedAtNone(s: seq<CourierQuote>, p: real)
    requires forall i :: 0 <= i < |s| ==> s[i].totalPrice != p
    ensures PricedAt(s, p) == []
  {
    if s != [] {
      PricedAtNone(s[1..], p);
    }
  }

  lemma {:induction false} InsertPricedAt(q: CourierQuote, s: seq<CourierQuote>, p: real)
    ensures PricedAt(Insert(q, s), p) == (if q.totalPrice == p then [q] else []) + PricedAt(s, p)
  {
    PricedAtSingle(q, p);
    if s == [] || q.totalPrice <= s[0].totalPrice {
      PricedAtAppend([q], s, p);
    } else {
      var rest := Insert(q, s[1..]);
      assert s == [s[0]] + s[1..];
      PricedAtAppend([s[0]], rest, p);
      PricedAtAppend([s[0]], s[1..], p);
      PricedAtSingle(s[0], p);
      InsertPricedAt(q, s[1..], p);
    }
  }

  /** Inserting adds exactly q. */
  lemma {:induction false} InsertMultiset(q: CourierQuote, s: seq<CourierQuote>)
    ensures multiset(Insert(q, s)) == multiset(s) + multiset{q}
  {
    if s != [] && q.totalPrice > s[0].totalPrice {
      InsertMultiset(q, s[1..]);
      assert s == [s[0]] + s[1..];
    }
  }

  /** The first total after inserting q is the smaller of q's and the old first one. */
  lemma InsertHead(q: CourierQuote, s: seq<CourierQuote>)
    ensures Insert(q, s) != []
    ensures Insert(q, s)[0].totalPrice == (if s == [] || q.totalPrice <= s[0].totalPrice then q.totalPrice else s[0].totalPrice)
  {
  }

  lemma {:induction false} InsertSorted(q: CourierQuote, s: seq<CourierQuote>)
    requires SortedByTotal(s)
    ensures SortedByTotal(Insert(q, s))
    ensures multiset(Insert(q, s)) == multiset(s) + multiset{q}
  {
    InsertMultiset(q, s);
    if s != [] && q.totalPrice > s[0].totalPrice {
      var rest := Insert(q, s[1..]);
      InsertSorted(q, s[1..]);
      InsertHead(q, s[1..]);
      assert s[0].totalPrice <= rest[0].totalPrice;
      ConsSorted(s[0], rest);
    }
  }

  /** A quote no dearer than the head of a sorted sequence can go in front of it. */
  lemma ConsSorted(x: CourierQuote, rest: seq<CourierQuote>)
    requires SortedByTotal(rest)
    requires rest != [] ==> x.totalPrice <= rest[0].totalPrice
    ensures SortedByTotal([x] + rest)
  {
    var r := [x] + rest;
    forall a, b | 0 <= a < b < |r|
      ensures r[a].totalPrice <= r[b].totalPrice
    {
      assert r[b] == rest[b - 1];
      if a == 0 {
        assert rest[0].totalPrice <= rest[b - 1].totalPrice;
      } else {
        assert r[a] == rest[a - 1];
      }
    }
  }

  /** The reference sort is ordered and a permutation of its input. */
  lemma {:induction false} SortByTotalSorted(s: seq<CourierQuote>)
    ensures SortedByTotal(SortByTotal(s))
    ensures multiset(SortByTotal(s)) == multiset(s)
  {
    if s != [] {
      SortByTotalSorted(s[1..]);
      InsertSorted(s[0], SortByTotal(s[1..]));
      assert s == [s[0]] + s[1..];
    }
  }

  /** The reference sort keeps the generation order among equal totals. */
  lemma {:induction false} SortByTotalStable(s: seq<CourierQuote>)
    ensures StableReorder(s, SortByTotal(s))
  {
    if s != [] {
      SortByTotalStable(s[1..]);
      forall p
        ensures PricedAt(s, p) == PricedAt(SortByTotal(s), p)
      {
        InsertPricedAt(s[0], SortByTotal(s[1..]), p);
      }
    }
  }

  /** In a sorted sequence, a total below the first one matches no quote. */
  lemma PricedAtBelowFirst(s: seq<CourierQuote>, p: real)
    requires SortedByTotal(s) && s != [] && p < s[0].totalPrice
    ensures PricedAt(s, p) == []
  {
    PricedAtNone(s, p);
  }

  /** The first quote of a sequence is the first of those with its total. */
  lemma PricedAtFirst(s: seq<CourierQuote>)
    requires s != []
    ensures PricedAt(s, s[0].totalPrice) != [] && PricedAt(s, s[0].totalPrice)[0] == s[0]
  {
  }

  /** Two sorted stable reorderings of the same quotes are the same sequence. */
  lemma {:induction false} StableSortUnique(a: seq<CourierQuote>, b: seq<CourierQuote>)
    requires SortedByTotal(a) && SortedByTotal(b) && StableReorder(a, b)
    ensures a == b
    decreases |a|
  {
    if a == [] {
      if b != [] {
        PricedAtFirst(b);
        assert false;
      }
    } else if b == [] {
      PricedAtFirst(a);
      assert false;
    } else {
      var p, q := a[0].totalPrice, b[0].totalPrice;
      PricedAtFirst(a);
      PricedAtFirst(b);
      if q > p {
        PricedAtBelowFirst(b, p);
        assert false;
      }
      if p > q {
        PricedAtBelowFirst(a, q);
        assert false;
      }
      assert a[0] == b[0];
      forall r
        ensures PricedAt(a[1..], r) == PricedAt(b[1..], r)
      {
        var head := if p == r then [a[0]] else [];
        assert PricedAt(a, r) == head + PricedAt(a[1..], r);
        assert PricedAt(b, r) == head + PricedAt(b[1..], r);
        assert PricedAt(a[1..], r) == PricedAt(a, r)[|head|..];
        assert PricedAt(b[1..], r) == PricedAt(b, r)[|head|..];
      }
      StableSortUnique(a[1..], b[1..]);
    }
  }

  /** Sorting an already sorted sequence changes nothing. */
  lemma SortIdempotent(s: seq<CourierQuote>)
    requires SortedByTotal(s)
    ensures SortByTotal(s) == s
  {
    SortByTotalSorted(s);
    SortByTotalStable(s);
    StableSortUnique(SortByTotal(s), s);
  }

  /** The quotes of a one-element sequence with total p. */
  lemma PricedAtSingle(q: CourierQuote, p: real)
    ensures PricedAt([q], p) == if q.totalPrice == p then [q] else []
  {
    assert [q][1..] == [];
  }

  /**
    Placing q after the quotes that cost no more than it and before those
    that cost more keeps a sorted sequence sorted.
   */
  lemma {:induction false} PlaceAfterEqualSorted(sorted: seq<CourierQuote>, j: nat, q: CourierQuote)
    requires SortedByTotal(sorted) && j <= |sorted|
    requires forall k :: 0 <= k < j ==> sorted[k].totalPrice <= q.totalPrice
    requires j < |sorted| ==> sorted[j].totalPrice > q.totalPrice
    ensures SortedByTotal(sorted[..j] + [q] + sorted[j..])
  {
    var next := sorted[..j] + [q] + sorted[j..];
    forall a, b | 0 <= a < b < |next|
      ensures next[a].totalPrice <= next[b].totalPrice
    {
      if b > j {
        assert next[b] == sorted[b - 1];
        if a < j {
          assert next[a] == sorted[a];
        } else if a > j {
          assert next[a] == sorted[a - 1];
        } else {
          assert sorted[j].totalPrice <= sorted[b - 1].totalPrice;
        }
      } else if b == j {
        assert next[a] == sorted[a];
      } else {
        assert next[a] == sorted[a] && next[b] == sorted[b];
      }
    }
  }

  /** Placed that way, q comes last among the quotes of its total. */
  lemma {:induction false} PlaceAfterEqualPriced(sorted: seq<CourierQuote>, j: nat, q: CourierQuote, p: real)
    requires SortedByTotal(sorted) && j <= |sorted|
    requires j < |sorted| ==> sorted[j].totalPrice > q.totalPrice
    ensures PricedAt(sorted[..j] + [q] + sorted[j..], p) == PricedAt(sorted, p) + PricedAt([q], p)
  {
    var lo, hi := sorted[..j], sorted[j..];
    var front, single, back := PricedAt(lo, p), PricedAt([q], p), PricedAt(hi, p);
    assert PricedAt(lo + [q] + hi, p) == front + single + back by {
      PricedAtAppend(lo + [q], hi, p);
      PricedAtAppend(lo, [q], p);
    }
    assert PricedAt(sorted, p) == front + back by {
      assert sorted == lo + hi;
      PricedAtAppend(lo, hi, p);
    }
    if p == q.totalPrice {
      PricedAtAbove(sorted, j, p);
      assert back == [];
      assert front + single + back == front + single;
    } else {
      PricedAtSingle(q, p);
      assert single == [];
      assert front + single + back == front + back;
    }
  }

  /** In a sorted sequence, the suffix from an element above p holds no quote of total p. */
  lemma {:induction false} PricedAtAbove(sorted: seq<CourierQuote>, j: nat, p: real)
    requires SortedByTotal(sorted) && j <= |sorted|
    requires j < |sorted| ==> sorted[j].totalPrice > p
    ensures PricedAt(sorted[j..], p) == []
  {
    forall k | 0 <= k < |sorted[j..]|
      ensures sorted[j..][k].totalPrice != p
    {
      assert sorted[j].totalPrice <= sorted[j + k].totalPrice;
    }
    PricedAtNone(sorted[j..], p);
  }

  /**
    Array.prototype.sort with the comparator a.totalPrice - b.totalPrice:
    an insertion sort that places each quote after every earlier one that
    costs no more. It computes the reference sort.
   */
  method SortQuotes(quotes: seq<CourierQuote>) returns (sorted: seq<CourierQuote>)
    ensures SortedByTotal(sorted)
    ensures StableReorder(quotes, sorted)
    ensures sorted == SortByTotal(quotes)
  {
    sorted := [];
    var i := 0;
    while i < |quotes|
      invariant 0 <= i <= |quotes|
      invariant SortedByTotal(sorted)
      invariant StableReorder(quotes[..i], sorted)
    {
      var q := quotes[i];
      var j := 0;
      while j < |sorted| && sorted[j].totalPrice <= q.totalPrice
        invariant 0 <= j <= |sorted|
        invariant forall k :: 0 <= k < j ==> sorted[k].totalPrice <= q.totalPrice
      {
        j := j + 1;
      }
      assert quotes[..i + 1] == quotes[..i] + [q];
      PlaceAfterEqual(quotes[..i], sorted, j, q);
      sorted := sorted[..j] + [q] + sorted[j..];
      i := i + 1;
    }
    assert quotes[..i] == quotes;
    SortedStableIsReference(quotes, sorted);
  }

  /** One step of the insertion: placing q after the equal quotes extends a sorted stable reordering. */
  lemma {:induction false} PlaceAfterEqual(prefix: seq<CourierQuote>, sorted: seq<CourierQuote>, j: nat, q: CourierQuote)
    requires SortedByTotal(sorted) && StableReorder(prefix, sorted) && j <= |sorted|
    requires forall k :: 0 <= k < j ==> sorted[k].totalPrice <= q.totalPrice
    requires j < |sorted| ==> sorted[j].totalPrice > q.totalPrice
    ensures SortedByTotal(sorted[..j] + [q] + sorted[j..])
    ensures StableReorder(prefix + [q], sorted[..j] + [q] + sorted[j..])
  {
    PlaceAfterEqualSorted(sorted, j, q);
    forall p
      ensures PricedAt(prefix + [q], p) == PricedAt(sorted[..j] + [q] + sorted[j..], p)
    {
      PricedAtAppend(prefix, [q], p);
      PlaceAfterEqualPriced(sorted, j, q, p);
    }
  }

  /** Any sorted stable reordering of s is the reference sort of s. */
  lemma {:induction false} SortedStableIsReference(s: seq<CourierQuote>, t: seq<CourierQuote>)
    requires SortedByTotal(t) && StableReorder(s, t)
    ensures t == SortByTotal(s)
  {
    SortByTotalSorted(s);
    SortByTotalStable(s);
    StableSortUnique(t, SortByTotal(s));
  }

  // ---------------------------------------------------------------------
  // The engine
  // ---------------------------------------------------------------------

  /** The engine's answer for a shipment, as a function. */
  function QuotesFor(f: ShippingFormData): (r: seq<CourierQuote>)
    ensures SortedByTotal(r)
    ensures StableReorder(AddTax(Candidates(f)), r)
    ensures multiset(r) == multiset(AddTax(Candidates(f)))
  {
    SortByTotalSorted(AddTax(Candidates(f)));
    SortByTotalStable(AddTax(Candidates(f)));
    SortByTotal(AddTax(Candidates(f)))
  }

  predicate HasCarrier(qs: seq<CourierQuote>, id: string)
  {
    exists q :: q in qs && q.id == id
  }

  predicate IdsDistinct(qs: seq<CourierQuote>)
  {
    forall i, j :: 0 <= i < j < |qs| ==> qs[i].id != qs[j].id
  }

  /** Sorting keeps exactly the quotes it is given. */
  lemma SortByTotalMembers(s: seq<CourierQuote>)
    ensures forall q :: q in SortByTotal(s) <==> q in s
    ensures |SortByTotal(s)| == |s|
  {
    SortByTotalSorted(s);
    assert |multiset(SortByTotal(s))| == |multiset(s)|;
    forall q
      ensures q in SortByTotal(s) <==> q in s
    {
      assert q in SortByTotal(s) <==> q in multiset(SortByTotal(s));
    }
  }

  lemma {:induction false} InsertDistinct(q: CourierQuote, s: seq<CourierQuote>)
    requires IdsDistinct(s)
    requires forall x :: x in s ==> x.id != q.id
    ensures IdsDistinct(Insert(q, s))
    ensures forall x :: x in Insert(q, s) <==> x == q || x in s
  {
    if s == [] || q.totalPrice <= s[0].totalPrice {
      forall i, j | 0 <= i < j < |[q] + s|
        ensures ([q] + s)[i].id != ([q] + s)[j].id
      {
        if i == 0 {
          assert ([q] + s)[j] in s;
        }
      }
    } else {
      var rest := Insert(q, s[1..]);
      InsertDistinct(q, s[1..]);
      assert s == [s[0]] + s[1..];
      forall k | 0 <= k < |rest|
        ensures rest[k].id != s[0].id
      {
        if rest[k] != q {
          assert rest[k] in rest;
          assert rest[k] in s[1..];
          var m :| 0 <= m < |s[1..]| && s[1..][m] == rest[k];
          assert s[m + 1] == rest[k];
        }
      }
      forall i, j | 0 <= i < j < |[s[0]] + rest|
        ensures ([s[0]] + rest)[i].id != ([s[0]] + rest)[j].id
      {
        if i == 0 {
          assert ([s[0]] + rest)[j] == rest[j - 1];
        }
      }
    }
  }

  /** Sorting quotes with distinct ids keeps the ids distinct. */
  lemma {:induction false} SortByTotalDistinct(s: seq<CourierQuote>)
    requires IdsDistinct(s)
    ensures IdsDistinct(SortByTotal(s))
  {
    if s != [] {
      SortByTotalDistinct(s[1..]);
      SortByTotalMembers(s[1..]);
      InsertDistinct(s[0], SortByTotal(s[1..]));
    }
  }

  /** Each quote of the answer is a generated candidate with its tax filled in. */
  lemma CandidateOf(f: ShippingFormData, q: CourierQuote) returns (c: CourierQuote)
    requires q in QuotesFor(f)
    ensures c in Candidates(f) && q == WithTax(c)
  {
    var s := AddTax(Candidates(f));
    SortByTotalMembers(s);
    var i :| 0 <= i < |s| && s[i] == q;
    c := Candidates(f)[i];
  }

  /** Each candidate of the answer makes it into the answer. */
  lemma TaxedCandidateIn(f: ShippingFormData, c: CourierQuote)
    requires c in Candidates(f)
    ensures WithTax(c) in QuotesFor(f)
  {
    var s := AddTax(Candidates(f));
    SortByTotalMembers(s);
    var i :| 0 <= i < |Candidates(f)| && Candidates(f)[i] == c;
    assert s[i] == WithTax(c);
  }

  lemma CandidatesShape(f: ShippingFormData)
    ensures |Candidates(f)| == if f.isInternational || f.origin.country == US then 4 else 3
    ensures DhlQuote(f) in Candidates(f) && FedexQuote(f) in Candidates(f) && UpsQuote(f) in Candidates(f)
    ensures UspsQuote(f) in Candidates(f) <==> !f.isInternational && f.origin.country == US
    ensures AramexQuote(f) in Candidates(f) <==> f.isInternational
    ensures forall c :: c in Candidates(f) ==>
              c == DhlQuote(f) || c == FedexQuote(f) || c == UpsQuote(f) || c == UspsQuote(f) || c == AramexQuote(f)
  {
    var fixed := [DhlQuote(f), FedexQuote(f), UpsQuote(f)];
    assert UspsQuote(f) !in fixed && AramexQuote(f) !in fixed;
    if f.isInternational {
      assert Candidates(f) == fixed + [AramexQuote(f)];
    } else if f.origin.country == US {
      assert Candidates(f) == fixed + [UspsQuote(f)];
    } else {
      assert Candidates(f) == fixed;
    }
  }

  /**
    The carrier set: DHL, FedEx and UPS always; USPS exactly on domestic
    routes from the US; Aramex exactly on international routes; so never
    both, and four quotes or three.
   */
  lemma QuotesForCarriers(f: ShippingFormData)
    ensures HasCarrier(QuotesFor(f), DhlId) && HasCarrier(QuotesFor(f), FedexId) && HasCarrier(QuotesFor(f), UpsId)
    ensures HasCarrier(QuotesFor(f), UspsId) <==> !f.isInternational && f.origin.country == US
    ensures HasCarrier(QuotesFor(f), AramexId) <==> f.isInternational
    ensures !(HasCarrier(QuotesFor(f), UspsId) && HasCarrier(QuotesFor(f), AramexId))
    ensures |QuotesFor(f)| == if f.isInternational || f.origin.country == US then 4 else 3
  {
    CarriersPresent(f);
    CarriersOnRoute(f);
    CandidatesShape(f);
    SortByTotalMembers(AddTax(Candidates(f)));
  }

  /** Every carrier the route calls for reaches the answer. */
  lemma CarriersPresent(f: ShippingFormData)
    ensures HasCarrier(QuotesFor(f), DhlId) && HasCarrier(QuotesFor(f), FedexId) && HasCarrier(QuotesFor(f), UpsId)
    ensures !f.isInternational && f.origin.country == US ==> HasCarrier(QuotesFor(f), UspsId)
    ensures f.isInternational ==> HasCarrier(QuotesFor(f), AramexId)
  {
    CandidatesShape(f);
    TaxedCandidateIn(f, DhlQuote(f));
    TaxedCandidateIn(f, FedexQuote(f));
    TaxedCandidateIn(f, UpsQuote(f));
    if !f.isInternational && f.origin.country == US {
      TaxedCandidateIn(f, UspsQuote(f));
    }
    if f.isInternational {
      TaxedCandidateIn(f, AramexQuote(f));
    }
  }

  /** USPS and Aramex appear only on the routes that call for them. */
  lemma CarriersOnRoute(f: ShippingFormData)
    ensures HasCarrier(QuotesFor(f), UspsId) ==> !f.isInternational && f.origin.country == US
    ensures HasCarrier(QuotesFor(f), AramexId) ==> f.isInternational
  {
    CandidatesShape(f);
    forall q | q in QuotesFor(f)
      ensures q.id == UspsId ==> !f.isInternational && f.origin.country == US
      ensures q.id == AramexId ==> f.isInternational
    {
      var c := CandidateOf(f, q);
    }
  }

  /** Every quote carries a tax of 10% and a total of 110% of its base price, each rounded to cents. */
  lemma QuotesForTax(f: ShippingFormData)
    ensures forall q :: q in QuotesFor(f) ==>
              q.tax == Round2(q.basePrice * 0.1) && q.totalPrice == Round2(q.basePrice * 1.1)
  {
    forall q | q in QuotesFor(f)
      ensures q.tax == Round2(q.basePrice * 0.1) && q.totalPrice == Round2(q.basePrice * 1.1)
    {
      var c := CandidateOf(f, q);
    }
  }

  /** Delivery days per carrier: DHL 3/1, FedEx 4/2, UPS 7/5 (international/domestic), USPS 3, Aramex 6. */
  lemma QuotesForDays(f: ShippingFormData)
    ensures forall q :: q in QuotesFor(f) ==>
              && (q.id == DhlId ==> q.estimatedDays == if f.isInternational then 3 else 1)
              && (q.id == FedexId ==> q.estimatedDays == if f.isInternational then 4 else 2)
              && (q.id == UpsId ==> q.estimatedDays == if f.isInternational then 7 else 5)
              && (q.id == UspsId ==> q.estimatedDays == 3)
              && (q.id == AramexId ==> q.estimatedDays == 6)
              && (q.id != DhlId ==> q.estimatedDays > if f.isInternational then 3 else 1)
  {
    forall q | q in QuotesFor(f)
      ensures q.id == DhlId ==> q.estimatedDays == if f.isInternational then 3 else 1
      ensures q.id == FedexId ==> q.estimatedDays == if f.isInternational then 4 else 2
      ensures q.id == UpsId ==> q.estimatedDays == if f.isInternational then 7 else 5
      ensures q.id == UspsId ==> q.estimatedDays == 3
      ensures q.id == AramexId ==> q.estimatedDays == 6
      ensures q.id != DhlId ==> q.estimatedDays > if f.isInternational then 3 else 1
    {
      var c := CandidateOf(f, q);
      CandidatesShape(f);
    }
  }

  /** Only DHL and FedEx are express; no quote is ever overnight. */
  lemma QuotesForServiceTypes(f: ShippingFormData)
    ensures forall q :: q in QuotesFor(f) ==>
              q.serviceType != Overnight && (q.serviceType == Express <==> q.id == DhlId || q.id == FedexId)
  {
    forall q | q in QuotesFor(f)
      ensures q.serviceType != Overnight && (q.serviceType == Express <==> q.id == DhlId || q.id == FedexId)
    {
      var c := CandidateOf(f, q);
      CandidatesShape(f);
    }
  }

  /** No two quotes of one answer share an id. */
  lemma QuotesForDistinctIds(f: ShippingFormData)
    ensures IdsDistinct(QuotesFor(f))
  {
    var c := Candidates(f);
    CandidatesDistinct(f);
    var s := AddTax(c);
    assert forall i :: 0 <= i < |s| ==> s[i].id == c[i].id;
    SortByTotalDistinct(s);
  }

  lemma CandidatesDistinct(f: ShippingFormData)
    ensures IdsDistinct(Candidates(f))
  {
    var c := Candidates(f);
    if f.isInternational {
      assert c == [DhlQuote(f), FedexQuote(f), UpsQuote(f), AramexQuote(f)];
    } else if f.origin.country == US {
      assert c == [DhlQuote(f), FedexQuote(f), UpsQuote(f), UspsQuote(f)];
    } else {
      assert c == [DhlQuote(f), FedexQuote(f), UpsQuote(f)];
    }
  }

  /**
    For a weight and dimensions the schema allows, every base price is at
    least 15 (UPS Ground's domestic distance charge), and every total is
    positive.
   */
  lemma QuotesForPositive(f: ShippingFormData)
    requires f.package.weight >= 0.0
    requires f.package.length.Some? ==> f.package.length.value > 0.0
    requires f.package.width.Some? ==> f.package.width.value > 0.0
    requires f.package.height.Some? ==> f.package.height.value > 0.0
    ensures forall q :: q in QuotesFor(f) ==> q.basePrice >= 15.0 && q.totalPrice > 0.0
  {
    VolumeFactorNonNegative(f.package);
    forall q | q in QuotesFor(f)
      ensures q.basePrice >= 15.0 && q.totalPrice > 0.0
    {
      var c := CandidateOf(f, q);
      CandidatesShape(f);
      assert c.basePrice >= 15.0;
    }
  }

  /**
    A domestic 1 kg parcel from the US without dimensions: totals 88.00
    (DHL), 70.95 (FedEx), 17.82 (UPS) and 35.75 (USPS), so UPS, USPS,
    FedEx, DHL is the order shown.
   */
  lemma DomesticUsExample(f: ShippingFormData)
    requires !f.isInternational && f.origin.country == US
    requires f.package.weight == 1.0 && f.package.length.None?
    ensures |QuotesFor(f)| == 4
    ensures QuotesFor(f)[0].id == UpsId && QuotesFor(f)[1].id == UspsId
    ensures QuotesFor(f)[2].id == FedexId && QuotesFor(f)[3].id == DhlId
  {
    var d, fx, u, us := WithTax(DhlQuote(f)), WithTax(FedexQuote(f)), WithTax(UpsQuote(f)), WithTax(UspsQuote(f));
    DomesticUsTotals(f);
    assert AddTax(Candidates(f)) == [d, fx, u, us] by {
      assert Candidates(f) == [DhlQuote(f), FedexQuote(f), UpsQuote(f), UspsQuote(f)];
    }
    SortFour(d, fx, u, us);
  }

  /** The totals of a 1 kg domestic US parcel: DHL 88.00, FedEx 70.95, UPS 17.82, USPS 35.75. */
  lemma DomesticUsTotals(f: ShippingFormData)
    requires !f.isInternational && f.origin.country == US
    requires f.package.weight == 1.0 && f.package.length.None?
    ensures WithTax(DhlQuote(f)).totalPrice == 88.0 && WithTax(FedexQuote(f)).totalPrice == 70.95
    ensures WithTax(UpsQuote(f)).totalPrice == 17.82 && WithTax(UspsQuote(f)).totalPrice == 35.75
  {
    assert RoundHalfUp(8800.0) == 8800;
    assert RoundHalfUp(7095.0) == 7095;
    assert RoundHalfUp(1782.0) == 1782;
    assert RoundHalfUp(3575.0) == 3575;
  }

  /** Four quotes whose totals rank third, fourth, first and second come out in that order. */
  lemma SortFour(a: CourierQuote, b: CourierQuote, c: CourierQuote, d: CourierQuote)
    requires c.totalPrice < d.totalPrice < b.totalPrice < a.totalPrice
    ensures SortByTotal([a, b, c, d]) == [c, d, b, a]
  {
    var s := [a, b, c, d];
    assert s[1..] == [b, c, d] && s[2..] == [c, d] && s[3..] == [d];
    assert SortByTotal([d]) == [d];
    assert SortByTotal([c, d]) == Insert(c, [d]) == [c, d];
    assert Insert(b, [c, d]) == [c] + Insert(b, [d]) == [c, d, b];
    assert SortByTotal([b, c, d]) == [c, d, b];
    assert [c, d, b][1..] == [d, b] && [d, b][1..] == [b] && [b][1..] == [];
    assert Insert(a, [b]) == [b] + Insert(a, []) == [b, a];
    assert Insert(a, [d, b]) == [d] + Insert(a, [b]) == [d, b, a];
    assert Insert(a, [c, d, b]) == [c] + Insert(a, [d, b]) == [c, d, b, a];
  }

  /** The engine: build the fixed carriers, push the route-dependent one, add tax, sort. */
  method FetchCourierQuotes(form: ShippingFormData) returns (quotes: seq<CourierQuote>)
    ensures quotes == QuotesFor(form)
    ensures SortedByTotal(quotes)
    ensures StableReorder(AddTax(Candidates(form)), quotes)
  {
    var generated := [DhlQuote(form), FedexQuote(form), UpsQuote(form)];
    if !form.isInternational && form.origin.country == US {
      generated := generated + [UspsQuote(form)];
    }
    if form.isInternational {
      generated := generated + [AramexQuote(form)];
    }
    assert generated == Candidates(form);
    var priced := AddTax(generated);
    quotes := SortQuotes(priced);
  }
}
