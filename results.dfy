/**
  The results panel: which of its four states it shows, and which quote
  cards carry the "cheapest" and "fastest" badges. Both badges come from a
  left-to-right reduce that replaces the running best only on a strictly
  smaller key, so the first of several equal minima wins.
 */
module Results {
  import opened Types
  import Pricing

  /** The key a reduce compares quotes by. */
  datatype RankKey = ByTotalPrice | ByEstimatedDays

  function KeyOf(q: CourierQuote, key: RankKey): real
  {
    match key
    case ByTotalPrice => q.totalPrice
    case ByEstimatedDays => q.estimatedDays as real
  }

  /** m is the index of the first quote with the least key. */
  predicate IsFirstMin(qs: seq<CourierQuote>, key: RankKey, m: nat)
  {
    && m < |qs|
    && (forall j :: 0 <= j < |qs| ==> KeyOf(qs[m], key) <= KeyOf(qs[j], key))
    && (forall j :: 0 <= j < m ==> KeyOf(qs[j], key) > KeyOf(qs[m], key))
  }

  /** Only one index can be the first minimum. */
  lemma FirstMinUnique(qs: seq<CourierQuote>, key: RankKey, m: nat, n: nat)
    requires IsFirstMin(qs, key, m) && IsFirstMin(qs, key, n)
    ensures m == n
  {
    assert KeyOf(qs[m], key) == KeyOf(qs[n], key);
  }

  /**
    reduce((prev, current) => key(current) < key(prev) ? current : prev),
    resumed at index i with the running best at index best.
   */
  function ReduceFrom(qs: seq<CourierQuote>, key: RankKey, best: nat, i: nat): (r: nat)
    requires 0 <= best < i <= |qs|
    requires IsFirstMin(qs[..i], key, best)
    ensures IsFirstMin(qs, key, r)
    decreases |qs| - i
  {
    if i == |qs| then
      assert qs[..i] == qs;
      best
    else
      var next := if KeyOf(qs[i], key) < KeyOf(qs[best], key) then i else best;
      assert qs[..i + 1][..i] == qs[..i];
      ReduceFrom(qs, key, next, i + 1)
  }

  /** The reduce over a non-empty list, seeded with its first element. */
  function Reduce(qs: seq<CourierQuote>, key: RankKey): (r: nat)
    requires qs != []
    ensures IsFirstMin(qs, key, r)
  {
    ReduceFrom(qs, key, 0, 1)
  }

  /** The two badge ids; both are null for an empty list. */
  datatype Badges = Badges(cheapestId: Option<string>, fastestId: Option<string>)

  function BadgesOf(qs: seq<CourierQuote>): (r: Badges)
    ensures qs == [] <==> r.cheapestId.None?
    ensures qs == [] <==> r.fastestId.None?
    ensures r.cheapestId.Some? ==>
              exists m: nat :: IsFirstMin(qs, ByTotalPrice, m) && qs[m].id == r.cheapestId.value
    ensures r.fastestId.Some? ==>
              exists m: nat :: IsFirstMin(qs, ByEstimatedDays, m) && qs[m].id == r.fastestId.value
  {
    if qs == [] then Badges(None, None)
    else
      var c, f := Reduce(qs, ByTotalPrice), Reduce(qs, ByEstimatedDays);
      Badges(Some(qs[c].id), Some(qs[f].id))
  }

  /** The card at index i shows the badge named by id. */
  predicate Flagged(qs: seq<CourierQuote>, i: nat, id: Option<string>)
    requires i < |qs|
  {
    id == Some(qs[i].id)
  }

  /**
    With distinct ids, exactly one card is flagged cheapest and exactly one
    fastest: the first cheapest and the first fastest quote.
   */
  lemma ExactlyOneBadgeEach(qs: seq<CourierQuote>)
    requires qs != [] && Pricing.IdsDistinct(qs)
    ensures forall i :: 0 <= i < |qs| ==> (Flagged(qs, i, BadgesOf(qs).cheapestId) <==> IsFirstMin(qs, ByTotalPrice, i))
    ensures forall i :: 0 <= i < |qs| ==> (Flagged(qs, i, BadgesOf(qs).fastestId) <==> IsFirstMin(qs, ByEstimatedDays, i))
  {
    var c, f := Reduce(qs, ByTotalPrice), Reduce(qs, ByEstimatedDays);
    forall i | 0 <= i < |qs|
      ensures Flagged(qs, i, BadgesOf(qs).cheapestId) <==> IsFirstMin(qs, ByTotalPrice, i)
      ensures Flagged(qs, i, BadgesOf(qs).fastestId) <==> IsFirstMin(qs, ByEstimatedDays, i)
    {
      if IsFirstMin(qs, ByTotalPrice, i) {
        FirstMinUnique(qs, ByTotalPrice, c, i);
      }
      if IsFirstMin(qs, ByEstimatedDays, i) {
        FirstMinUnique(qs, ByEstimatedDays, f, i);
      }
    }
  }

  /** A list ordered by total shows the cheapest badge on its first card. */
  lemma SortedCheapestFirst(qs: seq<CourierQuote>)
    requires qs != [] && Pricing.SortedByTotal(qs)
    ensures BadgesOf(qs).cheapestId == Some(qs[0].id)
  {
    FirstMinUnique(qs, ByTotalPrice, 0, Reduce(qs, ByTotalPrice));
  }

  /** A single quote is both the cheapest and the fastest. */
  lemma SingleQuoteBadges(q: CourierQuote)
    ensures BadgesOf([q]) == Badges(Some(q.id), Some(q.id))
  {
    FirstMinUnique([q], ByTotalPrice, 0, Reduce([q], ByTotalPrice));
    FirstMinUnique([q], ByEstimatedDays, 0, Reduce([q], ByEstimatedDays));
  }

  /** Among equally cheap quotes the earlier one gets the badge. */
  lemma TieGoesToFirst(a: CourierQuote, b: CourierQuote)
    requires a.totalPrice == b.totalPrice && a.estimatedDays == b.estimatedDays
    ensures BadgesOf([a, b]) == Badges(Some(a.id), Some(a.id))
  {
    FirstMinUnique([a, b], ByTotalPrice, 0, Reduce([a, b], ByTotalPrice));
    FirstMinUnique([a, b], ByEstimatedDays, 0, Reduce([a, b], ByEstimatedDays));
  }

  /** A quote strictly faster than every other one gets the fastest badge. */
  lemma FastestIsUniqueMin(qs: seq<CourierQuote>, k: nat)
    requires k < |qs|
    requires forall j :: 0 <= j < |qs| && j != k ==> qs[j].estimatedDays > qs[k].estimatedDays
    ensures BadgesOf(qs).fastestId == Some(qs[k].id)
  {
    FirstMinUnique(qs, ByEstimatedDays, k, Reduce(qs, ByEstimatedDays));
  }

  /**
    On the engine's answer the cheapest badge is on the first card and the
    fastest badge always goes to DHL Express, the only carrier with the
    fewest days on either route.
   */
  lemma EngineBadges(f: ShippingFormData)
    ensures BadgesOf(Pricing.QuotesFor(f)).cheapestId == Some(Pricing.QuotesFor(f)[0].id)
    ensures BadgesOf(Pricing.QuotesFor(f)).fastestId == Some(Pricing.DhlId)
  {
    EngineCheapestFirst(f);
    EngineFastestDhl(f);
  }

  lemma EngineCheapestFirst(f: ShippingFormData)
    ensures BadgesOf(Pricing.QuotesFor(f)).cheapestId == Some(Pricing.QuotesFor(f)[0].id)
  {
    Pricing.QuotesForCarriers(f);
    Pricing.SortByTotalSorted(Pricing.AddTax(Pricing.Candidates(f)));
    SortedCheapestFirst(Pricing.QuotesFor(f));
  }

  lemma EngineFastestDhl(f: ShippingFormData)
    ensures BadgesOf(Pricing.QuotesFor(f)).fastestId == Some(Pricing.DhlId)
  {
    var qs := Pricing.QuotesFor(f);
    Pricing.CarriersPresent(f);
    Pricing.QuotesForDays(f);
    Pricing.QuotesForDistinctIds(f);
    var dhl :| dhl in qs && dhl.id == Pricing.DhlId;
    var k :| 0 <= k < |qs| && qs[k] == dhl;
    forall j | 0 <= j < |qs| && j != k
      ensures qs[j].estimatedDays > qs[k].estimatedDays
    {
      assert qs[j] in qs;
      assert qs[j].id != Pricing.DhlId;
    }
    FastestIsUniqueMin(qs, k);
  }

  /** quotes.find(q => q.id === id). */
  function FindById(qs: seq<CourierQuote>, id: string): (r: Option<CourierQuote>)
    ensures r.None? <==> forall q :: q in qs ==> q.id != id
    ensures r.Some? ==> r.value in qs && r.value.id == id
    ensures r.Some? ==> exists i :: FirstWithId(qs, id, i) && qs[i] == r.value
  {
    if qs == [] then None
    else if qs[0].id == id then
      assert FirstWithId(qs, id, 0);
      Some(qs[0])
    else
      var t := FindById(qs[1..], id);
      assert t.Some? ==> exists i :: FirstWithId(qs, id, i) && qs[i] == t.value by {
        if t.Some? {
          var i :| FirstWithId(qs[1..], id, i) && qs[1..][i] == t.value;
          assert FirstWithId(qs, id, i + 1);
        }
      }
      t
  }

  /** Index i holds the first quote of qs whose id is id. */
  predicate FirstWithId(qs: seq<CourierQuote>, id: string, i: int)
  {
    0 <= i < |qs| && qs[i].id == id && forall j :: 0 <= j < i ==> qs[j].id != id
  }

  lemma {:induction false} FindByIdFirst(qs: seq<CourierQuote>, i: nat)
    requires i < |qs| && Pricing.IdsDistinct(qs)
    ensures FindById(qs, qs[i].id) == Some(qs[i])
  {
    if i > 0 {
      assert qs[0].id != qs[i].id;
      assert qs[1..][i - 1] == qs[i];
      FindByIdFirst(qs[1..], i - 1);
    }
  }

  /**
    The header's "From $x" and "Fastest n days" look the badge ids up
    again; with distinct ids they find the least total and the fewest days.
   */
  lemma HeaderFiguresAreMinima(qs: seq<CourierQuote>)
    requires qs != [] && Pricing.IdsDistinct(qs)
    ensures FindById(qs, BadgesOf(qs).cheapestId.value).Some?
    ensures forall q :: q in qs ==> FindById(qs, BadgesOf(qs).cheapestId.value).value.totalPrice <= q.totalPrice
    ensures FindById(qs, BadgesOf(qs).fastestId.value).Some?
    ensures forall q :: q in qs ==> FindById(qs, BadgesOf(qs).fastestId.value).value.estimatedDays <= q.estimatedDays
  {
    var c, f := Reduce(qs, ByTotalPrice), Reduce(qs, ByEstimatedDays);
    FindByIdFirst(qs, c);
    FindByIdFirst(qs, f);
    forall q | q in qs
      ensures qs[c].totalPrice <= q.totalPrice && qs[f].estimatedDays <= q.estimatedDays
    {
      var k :| 0 <= k < |qs| && qs[k] == q;
      assert KeyOf(qs[c], ByTotalPrice) <= KeyOf(qs[k], ByTotalPrice);
      assert KeyOf(qs[f], ByEstimatedDays) <= KeyOf(qs[k], ByEstimatedDays);
    }
  }

  /** The four states of the results panel. */
  datatype ResultsView = InitialPrompt | Searching | EmptyResults | QuoteList

  /** The panel is chosen by the first of: not searched, loading, no quotes. */
  function ViewOf(hasSearched: bool, isLoading: bool, quotes: seq<CourierQuote>): (r: ResultsView)
    ensures r == InitialPrompt <==> !hasSearched
    ensures r == Searching <==> hasSearched && isLoading
    ensures r == EmptyResults <==> hasSearched && !isLoading && quotes == []
    ensures r == QuoteList <==> hasSearched && !isLoading && quotes != []
  {
    if !hasSearched then InitialPrompt
    else if isLoading then Searching
    else if |quotes| == 0 then EmptyResults
    else QuoteList
  }
}
