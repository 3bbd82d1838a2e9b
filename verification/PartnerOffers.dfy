/** Which partner offers a collector has purchased (`src/schema/v2/partnerOfferToCollector.ts`): one
    request for a whole page of offers, against one request an offer. */
module PartnerOffers {
  import opened Wrappers

  /** An order, by the partner offers its line items come from. */
  type Order = seq<Option<string>>

  /** `meOrdersLoader` for purchased-state orders: offer ids and a page size, if any, to orders; `None`
      when the request fails. */
  type OrdersLoader = (seq<string>, Option<nat>) -> Option<seq<Order>>

  class Offer {
    const id: Option<string>
    var isPurchased: Option<bool>

    constructor (id: Option<string>)
      ensures this.id == id && isPurchased == None
    {
      this.id := id;
      isPurchased := None;
    }
  }

  /** An id that JavaScript takes for true. */
  predicate HasId(id: Option<string>) { id.Some? && id.value != "" }

  function Ids(offers: seq<Offer>): (ids: seq<string>)
    ensures forall o | o in offers && HasId(o.id) :: o.id.value in ids
    ensures forall i | i in ids :: exists o :: o in offers && HasId(o.id) && o.id.value == i
  {
    if offers == [] then []
    else
      var last := offers[|offers| - 1];
      assert offers == offers[..|offers| - 1] + [last];
      Ids(offers[..|offers| - 1]) + (if HasId(last.id) then [last.id.value] else [])
  }

  /** The ids asked for: those of the offers that have one, in their order. */
  lemma {:induction false} IdsInOrder(a: seq<Offer>, b: seq<Offer>)
    ensures Ids(a + b) == Ids(a) + Ids(b)
  {
    if b == [] {
      assert a + b == a;
    } else {
      var init, last := b[..|b| - 1], b[|b| - 1];
      var id := if HasId(last.id) then [last.id.value] else [];
      IdsInOrder(a, init);
      assert Ids(b) == Ids(init) + id;
      assert Ids(a + b) == Ids(a + init) + id by {
        assert (a + b)[..|a + b| - 1] == a + init && (a + b)[|a + b| - 1] == last;
      }
      var before, own := Ids(a), Ids(init);
      hide Ids;
      assert before + (own + id) == (before + own) + id;
    }
  }

  lemma IdOfOne(o: Offer)
    ensures Ids([o]) == if o.id in {None, Some("")} then [] else [o.id.value]
  {
    var id := if HasId(o.id) then [o.id.value] else [];
    assert [o][..|[o]| - 1] == [] && Ids([]) == [];
    assert Ids([o]) == [] + id == id;
    assert o.id.Some? && o.id.value == "" ==> o.id == Some("");
  }

  /** Some line item of some order comes from the offer. */
  predicate Mentions(orders: seq<Order>, id: string) {
    exists i, j | 0 <= i < |orders| && 0 <= j < |orders[i]| :: orders[i][j] == Some(id)
  }

  /** What the stamping leaves on an offer. */
  function Stamp(reply: Option<seq<Order>>, id: Option<string>): bool {
    reply.Some? && HasId(id) && Mentions(reply.value, id.value)
  }

  // ---------------------------------------------------------------- the order service

  predicate Matches(order: Order, ids: seq<string>) {
    exists j | 0 <= j < |order| :: order[j].Some? && order[j].value in ids
  }

  function Matching(orders: seq<Order>, ids: seq<string>): seq<Order> {
    if orders == [] then []
    else (if Matches(orders[0], ids) then [orders[0]] else []) + Matching(orders[1..], ids)
  }

  function Page(orders: seq<Order>, size: nat): seq<Order> {
    if |orders| <= size then orders else orders[..size]
  }

  /** The loader is an order service: from the collector's purchased orders it takes those that have a
      line item from one of the offers asked for, and answers with a page of them. */
  ghost predicate Serves(loader: OrdersLoader, orders: seq<Order>, defaultSize: nat) {
    forall ids, size: Option<nat> ::
      loader(ids, size) == Some(Page(Matching(orders, ids), if size.Some? then size.value else defaultSize))
  }

  /** An order service for given orders. */
  function Service(orders: seq<Order>, defaultSize: nat): OrdersLoader {
    (ids: seq<string>, size: Option<nat>) =>
      Some(Page(Matching(orders, ids), if size.Some? then size.value else defaultSize))
  }

  // ---------------------------------------------------------------- stamping and looking up

  /** The set of the purchased ids. */
  method PurchasedIds(orders: seq<Order>) returns (ids: set<string>)
    ensures forall id :: id in ids && id != "" <==> id != "" && Mentions(orders, id)
  {
    ids := set i, j | 0 <= i < |orders| && 0 <= j < |orders[i]| && HasId(orders[i][j]) :: orders[i][j].value;
    forall id: string | id != "" && Mentions(orders, id) ensures id in ids {
      var i, j :| 0 <= i < |orders| && 0 <= j < |orders[i]| && orders[i][j] == Some(id);
      assert HasId(orders[i][j]);
    }
  }

  /** `stampPartnerOfferPurchases`. */
  method StampPartnerOfferPurchases(offers: seq<Offer>, loader: Option<OrdersLoader>)
    modifies offers
    ensures loader.None? || Ids(offers) == [] ==> forall o | o in offers :: o.isPurchased == old(o.isPurchased)
    ensures loader.Some? && Ids(offers) != [] ==> forall o | o in offers ::
              o.isPurchased == Some(Stamp(loader.value(Ids(offers), Some(|Ids(offers)|)), o.id))
    ensures loader.Some? && Ids(offers) != [] && loader.value(Ids(offers), Some(|Ids(offers)|)) == None ==>
              forall o | o in offers :: o.isPurchased == Some(false)
    ensures loader.Some? ==> forall o | o in offers && o.id in {None, Some("")} ::
              o.isPurchased == if Ids(offers) == [] then old(o.isPurchased) else Some(false)
    ensures loader.Some? ==> forall o | o in offers && o.id !in {None, Some("")} ::
              var reply := loader.value(Ids(offers), Some(|Ids(offers)|));
              o.isPurchased == Some(reply.Some? && Mentions(reply.value, o.id.value))
  {
    if loader.None? {
      return;
    }
    var ids := Ids(offers);
    forall o | o in offers ensures o.id in {None, Some("")} || o.id.value in ids {
      assert HasId(o.id) || o.id in {None, Some("")};
    }
    if ids == [] {
      assert forall o | o in offers :: o.id in {None, Some("")};
      return;
    }
    var reply := loader.value(ids, Some(|ids|));
    var purchased: set<string> := {};
    if reply.Some? {
      purchased := PurchasedIds(reply.value);
    }
    for k := 0 to |offers|
      invariant forall i | 0 <= i < k :: offers[i].isPurchased == Some(Stamp(reply, offers[i].id))
    {
      offers[k].isPurchased := Some(HasId(offers[k].id) && offers[k].id.value in purchased);
    }
  }

  /** The answer of a lookup for one offer. */
  function LookedUp(loader: Option<OrdersLoader>, id: Option<string>): bool {
    if loader.None? || !HasId(id) then false
    else
      var reply := loader.value([id.value], None);
      reply.Some? && |reply.value| > 0
  }

  /** The `isPurchased` field of an offer: a stamp is final; of an offer without one, an order service
      tells whether any order mentions it. */
  method IsPurchased(offer: Offer, loader: Option<OrdersLoader>) returns (r: bool)
    ensures offer.isPurchased.Some? ==> r == offer.isPurchased.value
    ensures offer.isPurchased.None? ==> r == LookedUp(loader, offer.id)
    ensures offer.isPurchased.None? && (loader.None? || offer.id in {None, Some("")}) ==> !r
    ensures offer.isPurchased.None? && loader.Some? && offer.id !in {None, Some("")} ==>
              (r <==> loader.value([offer.id.value], None) !in {None, Some([])})
    ensures forall orders, size: nat ::
              && loader.Some? && size > 0 && Serves(loader.value, orders, size)
              && offer.isPurchased.None? && HasId(offer.id)
              ==> (r <==> Mentions(orders, offer.id.value))
  {
    if offer.isPurchased.Some? {
      return offer.isPurchased.value;
    }
    if loader.None? || !HasId(offer.id) {
      return false;
    }
    var reply := loader.value([offer.id.value], None);
    r := reply.Some? && |reply.value| > 0;
    forall orders, size: nat | size > 0 && Serves(loader.value, orders, size)
      ensures r <==> Mentions(orders, offer.id.value)
    {
      LookupFindsPurchase(loader.value, orders, size, offer.id.value);
    }
  }

  lemma LookupFindsPurchase(loader: OrdersLoader, orders: seq<Order>, size: nat, id: string)
    requires Serves(loader, orders, size) && size > 0 && id != ""
    ensures LookedUp(Some(loader), Some(id)) <==> Mentions(orders, id)
  {
    OneMatching(orders, id);
  }

  /** The connection of a collector's offers: stamped, then each node resolved.  With an order service
      that has no more matching orders than there are ids, nobody can tell the stamp from a lookup. */
  method ResolvePage(offers: seq<Offer>, loader: Option<OrdersLoader>) returns (answers: seq<bool>)
    requires forall o | o in offers :: o.isPurchased.None?
    modifies offers
    ensures |answers| == |offers|
    ensures loader.Some? ==> forall i | 0 <= i < |offers| ::
              answers[i] == Stamp(loader.value(Ids(offers), Some(|Ids(offers)|)), offers[i].id)
    ensures loader.Some? ==> forall orders, size: nat ::
              Serves(loader.value, orders, size) && size > 0 && |Matching(orders, Ids(offers))| <= |Ids(offers)|
              ==> forall i | 0 <= i < |offers| :: answers[i] == LookedUp(loader, offers[i].id)
    ensures loader.None? ==> forall i | 0 <= i < |offers| :: !answers[i]
  {
    StampPartnerOfferPurchases(offers, loader);
    answers := [];
    for i := 0 to |offers|
      invariant |answers| == i
      invariant loader.Some? ==> forall k | 0 <= k < i ::
                  answers[k] == Stamp(loader.value(Ids(offers), Some(|Ids(offers)|)), offers[k].id)
      invariant loader.None? ==> forall k | 0 <= k < i :: !answers[k]
      modifies {}
    {
      assert offers[i] in offers;
      var answer := IsPurchased(offers[i], loader);
      answers := answers + [answer];
    }
    if loader.Some? {
      forall orders, size: nat, i |
          Serves(loader.value, orders, size) && size > 0 && |Matching(orders, Ids(offers))| <= |Ids(offers)|
          && 0 <= i < |offers|
        ensures answers[i] == LookedUp(loader, offers[i].id)
      {
        assert offers[i] in offers;
        if HasId(offers[i].id) {
          LookupFindsPurchase(loader.value, orders, size, offers[i].id.value);
          MatchingIs(orders, Ids(offers), offers[i].id.value);
        }
      }
    }
  }

  // ---------------------------------------------------------------- batch against single lookups

  lemma {:induction false} MatchingIs(orders: seq<Order>, ids: seq<string>, id: string)
    requires id in ids
    ensures Mentions(Matching(orders, ids), id) <==> Mentions(orders, id)
    ensures Mentions(orders, id) ==> Matching(orders, ids) != []
  {
    if orders != [] {
      MatchingIs(orders[1..], ids, id);
      var rest := Matching(orders[1..], ids);
      MentionsHead(orders, id);
      if Matches(orders[0], ids) {
        assert Matching(orders, ids) == [orders[0]] + rest;
        MentionsHead([orders[0]] + rest, id);
        assert ([orders[0]] + rest)[1..] == rest;
      } else {
        assert Matching(orders, ids) == [] + rest == rest;
        assert !(exists j | 0 <= j < |orders[0]| :: orders[0][j] == Some(id));
      }
    }
  }

  lemma MentionsHead(orders: seq<Order>, id: string)
    requires orders != []
    ensures Mentions(orders, id) <==> Some(id) in orders[0] || Mentions(orders[1..], id)
  {
    if Mentions(orders[1..], id) {
      var i, j :| 0 <= i < |orders[1..]| && 0 <= j < |orders[1..][i]| && orders[1..][i][j] == Some(id);
      assert orders[i + 1][j] == Some(id);
    }
    if Mentions(orders, id) && Some(id) !in orders[0] {
      var i, j :| 0 <= i < |orders| && 0 <= j < |orders[i]| && orders[i][j] == Some(id);
      assert i > 0 && orders[1..][i - 1][j] == Some(id);
    }
  }

  lemma {:induction false} OneMatching(orders: seq<Order>, id: string)
    ensures Matching(orders, [id]) != [] <==> Mentions(orders, id)
  {
    if orders != [] {
      OneMatching(orders[1..], id);
      MentionsHead(orders, id);
    }
  }

  lemma PageMentions(orders: seq<Order>, size: nat, id: string)
    ensures Mentions(Page(orders, size), id) ==> Mentions(orders, id)
  {
    if Mentions(Page(orders, size), id) {
      var page := Page(orders, size);
      var i, j :| 0 <= i < |page| && 0 <= j < |page[i]| && page[i][j] == Some(id);
      assert orders[i][j] == Some(id);
    }
  }

  /** The stamps that one request gives the offers are what one lookup an offer gives. */
  ghost predicate Agree(orders: seq<Order>, defaultSize: nat, ids: seq<string>) {
    var loader := Service(orders, defaultSize);
    forall id | id in ids :: Stamp(loader(ids, Some(|ids|)), Some(id)) == LookedUp(Some(loader), Some(id))
  }

  predicate AllTheSame(ids: seq<string>) {
    forall i, j | 0 <= i < j < |ids| :: ids[i] == ids[j]
  }

  /** Up to how many matching orders the batch is right whatever they are: as many as there are ids, and
      no more unless all ids are the same. */
  lemma BatchAgreesExactly(ids: seq<string>, defaultSize: nat, n: nat)
    requires defaultSize > 0 && forall id | id in ids :: id != ""
    ensures (forall orders | |Matching(orders, ids)| <= n :: Agree(orders, defaultSize, ids))
            <==> n <= |ids| || AllTheSame(ids)
  {
    if n <= |ids| || AllTheSame(ids) {
      forall orders | |Matching(orders, ids)| <= n ensures Agree(orders, defaultSize, ids) {
        FewOrdersAgree(orders, defaultSize, ids);
      }
    } else {
      var i, j :| 0 <= i < j < |ids| && ids[i] != ids[j];
      RepeatPurchasesHideAnother(ids, defaultSize, ids[i], ids[j]);
      assert |Matching(RepeatPurchases(|ids|, ids[i], ids[j]), ids)| <= n;
    }
  }

  lemma FewOrdersAgree(orders: seq<Order>, defaultSize: nat, ids: seq<string>)
    requires defaultSize > 0 && forall id | id in ids :: id != ""
    requires |Matching(orders, ids)| <= |ids| || AllTheSame(ids)
    ensures Agree(orders, defaultSize, ids)
  {
    var loader := Service(orders, defaultSize);
    forall id | id in ids
      ensures Stamp(loader(ids, Some(|ids|)), Some(id)) == LookedUp(Some(loader), Some(id))
    {
      LookupFindsPurchase(loader, orders, defaultSize, id);
      MatchingIs(orders, ids, id);
      PageMentions(Matching(orders, ids), |ids|, id);
      if Mentions(orders, id) && |Matching(orders, ids)| > |ids| {
        FirstMatches(orders, ids);
        var first := Matching(orders, ids)[0];
        var j :| 0 <= j < |first| && first[j].Some? && first[j].value in ids;
        assert first[j].value == id;
        assert Page(Matching(orders, ids), |ids|)[0][j] == Some(id);
      }
    }
  }

  lemma {:induction false} FirstMatches(orders: seq<Order>, ids: seq<string>)
    requires Matching(orders, ids) != []
    ensures Matches(Matching(orders, ids)[0], ids)
  {
    if !Matches(orders[0], ids) {
      FirstMatches(orders[1..], ids);
    }
  }

  lemma {:induction false} AllMatch(orders: seq<Order>, ids: seq<string>)
    requires forall o | o in orders :: Matches(o, ids)
    ensures Matching(orders, ids) == orders
  {
    if orders != [] {
      AllMatch(orders[1..], ids);
    }
  }

  /** As many orders for `a` as there are ids, then one for `b`. */
  function RepeatPurchases(count: nat, a: string, b: string): seq<Order> {
    seq(count, _ => [Some(a)]) + [[Some(b)]]
  }

  /** Repeated purchases of one offer push the order for another off the page. */
  lemma RepeatPurchasesHideAnother(ids: seq<string>, defaultSize: nat, a: string, b: string)
    requires defaultSize > 0 && a in ids && b in ids && a != b && b != ""
    ensures var orders := RepeatPurchases(|ids|, a, b);
            && |Matching(orders, ids)| == |ids| + 1
            && Mentions(orders, b)
            && !Mentions(Page(Matching(orders, ids), |ids|), b)
            && !Agree(orders, defaultSize, ids)
  {
    var orders := RepeatPurchases(|ids|, a, b);
    forall o: Order | o in orders ensures Matches(o, ids) {
      assert o == [Some(a)] || o == [Some(b)];
      assert o[0].Some? && o[0].value in ids;
    }
    AllMatch(orders, ids);
    assert orders[|ids|][0] == Some(b);
    LookupFindsPurchase(Service(orders, defaultSize), orders, defaultSize, b);
    assert Stamp(Service(orders, defaultSize)(ids, Some(|ids|)), Some(b)) == Mentions(Page(orders, |ids|), b);
  }
}
