/** The batching loader for sale artworks (`src/lib/loaders/batchSaleArtworkLoader.ts`). */
module SaleArtworks {
  import opened Wrappers
  import opened Sequences
  import opened Sorting

  datatype Key = Key(artworkId: string, saleId: string)

  /** A sale artwork, with the id and the slug of its artwork. */
  datatype SaleArtwork = SaleArtwork(artworkId: string, slug: string, lot: string)

  /** How a request for some artworks of a sale ends. */
  datatype Reply = Rejected | Listed(saleArtworks: seq<SaleArtwork>)

  /** The sale artworks loader: asked for a sale and artwork ids (with `size` their number). */
  type Loader = (string, seq<string>) -> Reply

  // ---------------------------------------------------------------- grouping

  /** The artworks asked for in a sale, each once, in first-seen order. */
  function ArtworksOf(keys: seq<Key>, saleId: string): (ids: seq<string>)
    ensures Distinct(ids)
    ensures forall a :: a in ids <==> Key(a, saleId) in keys
  {
    if keys == [] then []
    else
      var init, last := keys[..|keys| - 1], keys[|keys| - 1];
      assert keys == init + [last];
      var ids := ArtworksOf(init, saleId);
      if last.saleId == saleId && last.artworkId !in ids then ids + [last.artworkId] else ids
  }

  /** The sales asked for, each once, in first-seen order. */
  function SalesOf(keys: seq<Key>): (sales: seq<string>)
    ensures Distinct(sales)
    ensures forall s :: s in sales <==> exists a :: Key(a, s) in keys
  {
    if keys == [] then []
    else
      var init, last := keys[..|keys| - 1], keys[|keys| - 1];
      assert keys == init + [last];
      assert Key(last.artworkId, last.saleId) in keys;
      var sales := SalesOf(init);
      if last.saleId in sales then sales else sales + [last.saleId]
  }

  /** `groupByParams`: the dictionary and its property order. */
  method GroupByParams(keys: seq<Key>) returns (sales: seq<string>, groups: map<string, seq<string>>)
    ensures sales == SalesOf(keys)
    ensures groups.Keys == set s | s in sales
    ensures forall s | s in sales :: groups[s] == ArtworksOf(keys, s)
  {
    sales, groups := [], map[];
    for i := 0 to |keys|
      invariant sales == SalesOf(keys[..i])
      invariant forall s :: s in groups <==> s in sales
      invariant forall s | s in sales :: groups[s] == ArtworksOf(keys[..i], s)
    {
      assert keys[..i + 1][..i] == keys[..i];
      var Key(artworkId, saleId) := keys[i];
      if saleId !in groups {
        NoArtworksYet(keys[..i], saleId);
        sales := sales + [saleId];
        groups := groups[saleId := []];
      }
      if artworkId !in groups[saleId] {
        groups := groups[saleId := groups[saleId] + [artworkId]];
      }
    }
    assert keys[..|keys|] == keys;
  }

  lemma ArtworksNext(keys: seq<Key>, key: Key, saleId: string)
    ensures var ids := ArtworksOf(keys, saleId);
            ArtworksOf(keys + [key], saleId) ==
            if key.saleId == saleId && key.artworkId !in ids then ids + [key.artworkId] else ids
  {
    assert (keys + [key])[..|keys|] == keys;
  }

  lemma NoArtworksYet(keys: seq<Key>, saleId: string)
    requires saleId !in SalesOf(keys)
    ensures ArtworksOf(keys, saleId) == []
  {
    SomeElement(ArtworksOf(keys, saleId));
  }

  // ---------------------------------------------------------------- the batch function

  /** `saleData?.find((artworkData) => artworkData.artwork._id === artworkId)`. */
  function Find(saleArtworks: seq<SaleArtwork>, artworkId: string): (r: Option<SaleArtwork>)
    ensures r.None? <==> forall i | 0 <= i < |saleArtworks| :: saleArtworks[i].artworkId != artworkId
    ensures r.Some? ==> r.value in saleArtworks && r.value.artworkId == artworkId
  {
    if saleArtworks == [] then None
    else if saleArtworks[0].artworkId == artworkId then Some(saleArtworks[0])
    else Find(saleArtworks[1..], artworkId)
  }

  function Look(reply: Reply, artworkId: string): Option<SaleArtwork> {
    if reply.Rejected? then None else Find(reply.saleArtworks, artworkId)
  }

  /** Looking one key up without a batch. */
  function Alone(loader: Loader, key: Key): Option<SaleArtwork> {
    Look(loader(key.saleId, [key.artworkId]), key.artworkId)
  }

  /** The key at position i finds its artwork in the one reply for its sale. */
  function Batched(loader: Loader, keys: seq<Key>, i: nat): Option<SaleArtwork>
    requires i < |keys|
  {
    Look(loader(keys[i].saleId, ArtworksOf(keys, keys[i].saleId)), keys[i].artworkId)
  }

  /** What one fetch leaves: the sale and its artworks, or nothing when it failed. */
  type Fetched = Option<(string, seq<SaleArtwork>)>

  /** The batch function.  `requests` are the calls it makes, in order. */
  method Batch(loader: Loader, keys: seq<Key>)
      returns (results: seq<Option<SaleArtwork>>, ghost requests: seq<(string, seq<string>)>)
    ensures |results| == |keys|
    ensures forall i | 0 <= i < |keys| :: results[i] == Batched(loader, keys, i)
    ensures |requests| == |SalesOf(keys)|
    ensures forall i | 0 <= i < |requests| :: requests[i] == (SalesOf(keys)[i], ArtworksOf(keys, SalesOf(keys)[i]))
  {
    hide ArtworksOf, SalesOf, Look;
    var sales, groups := GroupByParams(keys);
    var fetched;
    fetched, requests := FetchAll(loader, keys, sales, groups);
    results := [];
    for i := 0 to |keys|
      invariant |results| == i
      invariant forall k | 0 <= k < i ::
                  results[k] == Look(loader(keys[k].saleId, ArtworksOf(keys, keys[k].saleId)), keys[k].artworkId)
    {
      var result := Assemble(loader, keys, fetched, keys[i]);
      results := results + [result];
    }
  }

  /** One request a sale; a rejected one leaves an empty object behind. */
  method FetchAll(loader: Loader, keys: seq<Key>, sales: seq<string>, groups: map<string, seq<string>>)
      returns (fetched: seq<Fetched>, ghost requests: seq<(string, seq<string>)>)
    requires forall s | s in sales :: s in groups && groups[s] == ArtworksOf(keys, s)
    ensures |fetched| == |requests| == |sales|
    ensures forall k | 0 <= k < |sales| :: requests[k] == (sales[k], ArtworksOf(keys, sales[k]))
    ensures forall k | 0 <= k < |sales| :: fetched[k] == FetchOf(loader, keys, sales[k])
  {
    hide ArtworksOf;
    fetched, requests := [], [];
    for i := 0 to |sales|
      invariant |fetched| == |requests| == i
      invariant forall k | 0 <= k < i :: requests[k] == (sales[k], ArtworksOf(keys, sales[k]))
      invariant forall k | 0 <= k < i :: fetched[k] == FetchOf(loader, keys, sales[k])
    {
      assert sales[i] in sales;
      requests := requests + [(sales[i], groups[sales[i]])];
      var reply := loader(sales[i], groups[sales[i]]);
      fetched := fetched + [if reply.Rejected? then None else Some((sales[i], reply.saleArtworks))];
    }
  }

  /** The result of one key, from what was fetched. */
  method Assemble(loader: Loader, keys: seq<Key>, fetched: seq<Fetched>, key: Key) returns (result: Option<SaleArtwork>)
    requires key in keys && |fetched| == |SalesOf(keys)|
    requires forall k | 0 <= k < |fetched| :: fetched[k] == FetchOf(loader, keys, SalesOf(keys)[k])
    ensures result == Look(loader(key.saleId, ArtworksOf(keys, key.saleId)), key.artworkId)
  {
    hide ArtworksOf;
    var saleData := FindSale(fetched, key.saleId);
    assert Key(key.artworkId, key.saleId) in keys;
    FetchedOnce(loader, keys, fetched, key.saleId);
    result := if saleData.None? then None else Find(saleData.value, key.artworkId);
  }

  function FetchOf(loader: Loader, keys: seq<Key>, saleId: string): Fetched {
    var reply := loader(saleId, ArtworksOf(keys, saleId));
    if reply.Rejected? then None else Some((saleId, reply.saleArtworks))
  }

  /** `fetchedData.find(({ saleId: id }) => id === saleId)?.saleData`. */
  function FindSale(fetched: seq<Fetched>, saleId: string): Option<seq<SaleArtwork>> {
    if fetched == [] then None
    else if fetched[0].Some? && fetched[0].value.0 == saleId then Some(fetched[0].value.1)
    else FindSale(fetched[1..], saleId)
  }

  lemma FetchedOnce(loader: Loader, keys: seq<Key>, fetched: seq<Fetched>, saleId: string)
    requires |fetched| == |SalesOf(keys)| && saleId in SalesOf(keys)
    requires forall k | 0 <= k < |fetched| :: fetched[k] == FetchOf(loader, keys, SalesOf(keys)[k])
    ensures var reply := loader(saleId, ArtworksOf(keys, saleId));
            FindSale(fetched, saleId) == if reply.Rejected? then None else Some(reply.saleArtworks)
  {
    FindAmong(loader, keys, SalesOf(keys), fetched, saleId);
  }

  lemma {:induction false} FindAmong(loader: Loader, keys: seq<Key>, sales: seq<string>, fetched: seq<Fetched>,
                                     saleId: string)
    requires |fetched| == |sales|
    requires forall k | 0 <= k < |fetched| :: fetched[k] == FetchOf(loader, keys, sales[k])
    ensures var reply := loader(saleId, ArtworksOf(keys, saleId));
            FindSale(fetched, saleId) ==
              if saleId !in sales || reply.Rejected? then None else Some(reply.saleArtworks)
  {
    if sales != [] {
      assert sales == [sales[0]] + sales[1..];
      FindAmong(loader, keys, sales[1..], fetched[1..], saleId);
    }
  }

  // ---------------------------------------------------------------- every key its own artwork

  /** `maxBatchSize`. */
  const MAX_BATCH_SIZE: nat := 20

  /** What a loader says about an artwork does not depend on what else it is asked for, as long as no
      id is repeated and a batch can ask for as many. */
  ghost predicate Consistent(loader: Loader) {
    forall s, ids, a | |ids| <= 20 && Distinct(ids) && a in ids ::
      Look(loader(s, ids), a) == Look(loader(s, [a]), a)
  }

  /** Every key of a batch gets what it would get in a batch of its own. */
  ghost predicate BatchIsAlone(loader: Loader, keys: seq<Key>) {
    forall i | 0 <= i < |keys| :: Batched(loader, keys, i) == Alone(loader, keys[i])
  }

  /** This is so for every batch there can be, if and only if the loader is consistent. */
  lemma BatchedIsAloneExactly(loader: Loader)
    ensures (forall keys: seq<Key> | |keys| <= 20 :: BatchIsAlone(loader, keys)) <==> Consistent(loader)
  {
    if Consistent(loader) {
      forall keys: seq<Key> | |keys| <= 20 ensures BatchIsAlone(loader, keys) {
        BatchedIsAlone(loader, keys);
      }
    }
    if forall keys: seq<Key> | |keys| <= 20 :: BatchIsAlone(loader, keys) {
      forall s, ids, a | |ids| <= 20 && Distinct(ids) && a in ids
        ensures Look(loader(s, ids), a) == Look(loader(s, [a]), a)
      {
        var keys := KeysFor(ids, s);
        ArtworksOfKeys(ids, s);
        assert BatchIsAlone(loader, keys);
        var i :| 0 <= i < |ids| && ids[i] == a;
        assert Batched(loader, keys, i) == Alone(loader, keys[i]);
      }
    }
  }

  lemma BatchedIsAlone(loader: Loader, keys: seq<Key>)
    requires Consistent(loader) && |keys| <= 20
    ensures BatchIsAlone(loader, keys)
  {
    forall i | 0 <= i < |keys| ensures Batched(loader, keys, i) == Alone(loader, keys[i]) {
      assert Key(keys[i].artworkId, keys[i].saleId) in keys;
      FewArtworks(keys, keys[i].saleId);
    }
  }

  lemma {:induction false} FewArtworks(keys: seq<Key>, saleId: string)
    ensures |ArtworksOf(keys, saleId)| <= |keys|
  {
    if keys != [] {
      FewArtworks(keys[..|keys| - 1], saleId);
    }
  }

  /** A batch that asks for these artworks of one sale. */
  function KeysFor(ids: seq<string>, saleId: string): seq<Key> {
    seq(|ids|, i requires 0 <= i < |ids| => Key(ids[i], saleId))
  }

  lemma NothingAskedOf(saleId: string)
    ensures ArtworksOf(KeysFor([], saleId), saleId) == []
  {
  }

  lemma {:induction false} ArtworksOfKeys(ids: seq<string>, saleId: string)
    requires Distinct(ids)
    ensures ArtworksOf(KeysFor(ids, saleId), saleId) == ids
  {
    hide ArtworksOf;
    if ids == [] {
      NothingAskedOf(saleId);
    } else {
      var init, last := ids[..|ids| - 1], ids[|ids| - 1];
      ArtworksOfKeys(init, saleId);
      ArtworksNext(KeysFor(init, saleId), Key(last, saleId), saleId);
      assert KeysFor(ids, saleId) == KeysFor(init, saleId) + [Key(last, saleId)];
      assert ids == init + [last];
    }
  }

  // ---------------------------------------------------------------- against the unbatched loader

  /** The sale artwork is what the id names: by the artwork's id or, where slugs are taken too, its slug. */
  predicate Named(e: SaleArtwork, id: string, bySlug: bool) {
    e.artworkId == id || (bySlug && e.slug == id)
  }

  /** The part of a sale's catalogue that is asked for. */
  function Filter(catalogue: seq<SaleArtwork>, ids: seq<string>, bySlug: bool): seq<SaleArtwork> {
    if catalogue == [] then []
    else
      (if exists k | 0 <= k < |ids| :: Named(catalogue[0], ids[k], bySlug) then [catalogue[0]] else [])
      + Filter(catalogue[1..], ids, bySlug)
  }

  function Page(s: seq<SaleArtwork>, size: nat): seq<SaleArtwork> {
    if |s| <= size then s else s[..size]
  }

  /** A backend with a catalogue for each sale, some sales failing.  The endpoint of the batch filters a
      sale's list, by slugs as well or not, and answers with one page of as many entries as ids were
      asked for. */
  function CatalogueLoader(catalogues: map<string, seq<SaleArtwork>>, bySlug: bool): Loader {
    (s: string, ids: seq<string>) =>
      if s in catalogues then Listed(Page(Filter(catalogues[s], ids, bySlug), |ids|)) else Rejected
  }

  /** The same backend's endpoint for one sale artwork, which takes ids and slugs. */
  function Unbatched(catalogues: map<string, seq<SaleArtwork>>, key: Key): Option<SaleArtwork> {
    if key.saleId in catalogues then FindNamed(catalogues[key.saleId], key.artworkId) else None
  }

  function FindNamed(catalogue: seq<SaleArtwork>, id: string): Option<SaleArtwork> {
    if catalogue == [] then None
    else if Named(catalogue[0], id, true) then Some(catalogue[0])
    else FindNamed(catalogue[1..], id)
  }

  /** No id names two entries of the catalogue. */
  ghost predicate OneLotEach(catalogue: seq<SaleArtwork>, bySlug: bool) {
    forall i, j, id | 0 <= i < j < |catalogue| && Named(catalogue[i], id, bySlug) ::
      !Named(catalogue[j], id, bySlug)
  }

  /** A page as long as the list of ids is long enough, when no id names two entries. */
  lemma {:induction false} FilterFits(catalogue: seq<SaleArtwork>, ids: seq<string>, bySlug: bool)
    requires OneLotEach(catalogue, bySlug)
    ensures |Filter(catalogue, ids, bySlug)| <= |ids|
  {
    if catalogue != [] {
      assert forall j | 0 <= j < |catalogue[1..]| :: catalogue[1..][j] == catalogue[j + 1];
      if exists k | 0 <= k < |ids| :: Named(catalogue[0], ids[k], bySlug) {
        var k :| 0 <= k < |ids| && Named(catalogue[0], ids[k], bySlug);
        var rest := ids[..k] + ids[k + 1..];
        FilterFits(catalogue[1..], rest, bySlug);
        FilterIgnores(catalogue[1..], ids, k, bySlug);
      } else {
        FilterFits(catalogue[1..], ids, bySlug);
      }
    }
  }

  lemma {:induction false} FilterIgnores(catalogue: seq<SaleArtwork>, ids: seq<string>, k: nat, bySlug: bool)
    requires k < |ids| && forall j | 0 <= j < |catalogue| :: !Named(catalogue[j], ids[k], bySlug)
    ensures Filter(catalogue, ids, bySlug) == Filter(catalogue, ids[..k] + ids[k + 1..], bySlug)
  {
    if catalogue != [] {
      var rest := ids[..k] + ids[k + 1..];
      if exists m | 0 <= m < |ids| :: Named(catalogue[0], ids[m], bySlug) {
        var m :| 0 <= m < |ids| && Named(catalogue[0], ids[m], bySlug);
        assert Named(catalogue[0], rest[if m < k then m else m - 1], bySlug);
      }
      if exists m | 0 <= m < |rest| :: Named(catalogue[0], rest[m], bySlug) {
        var m :| 0 <= m < |rest| && Named(catalogue[0], rest[m], bySlug);
        assert Named(catalogue[0], ids[if m < k then m else m + 1], bySlug);
      }
      FilterIgnores(catalogue[1..], ids, k, bySlug);
    }
  }

  lemma {:induction false} FilterFinds(catalogue: seq<SaleArtwork>, ids: seq<string>, a: string, bySlug: bool)
    requires a in ids
    ensures Find(Filter(catalogue, ids, bySlug), a) == Find(catalogue, a)
  {
    if catalogue != [] {
      FilterFinds(catalogue[1..], ids, a, bySlug);
      var k :| 0 <= k < |ids| && ids[k] == a;
      assert Named(catalogue[0], a, bySlug) <==> Named(catalogue[0], ids[k], bySlug);
      var rest := Filter(catalogue[1..], ids, bySlug);
      if exists k | 0 <= k < |ids| :: Named(catalogue[0], ids[k], bySlug) {
        assert Filter(catalogue, ids, bySlug) == [catalogue[0]] + rest;
        assert ([catalogue[0]] + rest)[1..] == rest;
      } else {
        assert Filter(catalogue, ids, bySlug) == [] + rest == rest;
      }
    }
  }

  /** What a batch finds in such a backend: the entry whose artwork has the id. */
  lemma CatalogueIsLookedUp(catalogues: map<string, seq<SaleArtwork>>, bySlug: bool, s: string, ids: seq<string>,
                            a: string)
    requires s in catalogues ==> OneLotEach(catalogues[s], bySlug)
    requires a in ids
    ensures Look(CatalogueLoader(catalogues, bySlug)(s, ids), a) ==
            if s in catalogues then Find(catalogues[s], a) else None
  {
    if s in catalogues {
      FilterFits(catalogues[s], ids, bySlug);
      FilterFinds(catalogues[s], ids, a, bySlug);
    }
  }

  /** Such a backend is consistent: the batch asks for pages that hold all it asks for. */
  lemma CataloguesAreConsistent(catalogues: map<string, seq<SaleArtwork>>, bySlug: bool)
    requires forall s | s in catalogues :: OneLotEach(catalogues[s], bySlug)
    ensures Consistent(CatalogueLoader(catalogues, bySlug))
  {
    var loader := CatalogueLoader(catalogues, bySlug);
    forall s, ids, a | |ids| <= 20 && Distinct(ids) && a in ids
      ensures Look(loader(s, ids), a) == Look(loader(s, [a]), a)
    {
      CatalogueIsLookedUp(catalogues, bySlug, s, ids, a);
      CatalogueIsLookedUp(catalogues, bySlug, s, [a], a);
    }
  }

  /** The key asks for an artwork of the sale by a slug that is not its id. */
  predicate AsksBySlug(catalogues: map<string, seq<SaleArtwork>>, key: Key) {
    key.saleId in catalogues &&
    exists e | e in catalogues[key.saleId] :: e.slug == key.artworkId && e.artworkId != key.artworkId
  }

  /** Batching changes the answer of a key if and only if the key asks by slug: the unbatched loader then
      has the sale artwork, and the batch, whatever it fetched, drops it. */
  lemma BatchingIsUnseenExactly(catalogues: map<string, seq<SaleArtwork>>, bySlug: bool, keys: seq<Key>, i: nat)
    requires forall s | s in catalogues :: OneLotEach(catalogues[s], true)
    requires i < |keys|
    ensures Batched(CatalogueLoader(catalogues, bySlug), keys, i) == Unbatched(catalogues, keys[i])
            <==> !AsksBySlug(catalogues, keys[i])
    ensures AsksBySlug(catalogues, keys[i]) ==>
              Unbatched(catalogues, keys[i]).Some? && Batched(CatalogueLoader(catalogues, bySlug), keys, i).None?
  {
    var key := keys[i];
    assert Key(key.artworkId, key.saleId) in keys;
    if key.saleId in catalogues {
      FewerNamesStayApart(catalogues[key.saleId], bySlug);
      NamedIsFound(catalogues[key.saleId], key.artworkId);
    }
    CatalogueIsLookedUp(catalogues, bySlug, key.saleId, ArtworksOf(keys, key.saleId), key.artworkId);
  }

  lemma FewerNamesStayApart(catalogue: seq<SaleArtwork>, bySlug: bool)
    requires OneLotEach(catalogue, true)
    ensures OneLotEach(catalogue, bySlug)
  {
    forall i, j, id | 0 <= i < j < |catalogue| && Named(catalogue[i], id, bySlug)
      ensures !Named(catalogue[j], id, bySlug)
    {
      assert Named(catalogue[i], id, true);
      assert !Named(catalogue[j], id, true);
    }
  }

  lemma {:induction false} NamedIsFound(catalogue: seq<SaleArtwork>, id: string)
    requires OneLotEach(catalogue, true)
    ensures (exists e | e in catalogue :: e.slug == id && e.artworkId != id) ==>
              FindNamed(catalogue, id).Some? && Find(catalogue, id).None?
    ensures !(exists e | e in catalogue :: e.slug == id && e.artworkId != id) ==>
              FindNamed(catalogue, id) == Find(catalogue, id)
  {
    if catalogue != [] {
      var head, rest := catalogue[0], catalogue[1..];
      assert catalogue == [head] + rest;
      assert forall j | 0 <= j < |rest| :: rest[j] == catalogue[j + 1];
      NamedIsFound(rest, id);
      if Named(head, id, true) {
        assert forall j | 0 <= j < |rest| :: !Named(rest[j], id, true);
      }
    }
  }

  // ---------------------------------------------------------------- the promise cache

  function KeyString(key: Key): string { key.artworkId + "-" + key.saleId }

  /** `b` has `a`'s string: its artwork id goes on with a hyphen and the start of `a`'s sale id. */
  predicate Spills(a: Key, b: Key) {
    && |a.artworkId| < |b.artworkId|
    && var rest := b.artworkId[|a.artworkId|..];
       rest[0] == '-' && b.artworkId == a.artworkId + rest && a.saleId == rest[1..] + "-" + b.saleId
  }

  /** Two pairs share a string if and only if they are the same or the artwork id of one is that of the
      other, a hyphen and more, and the sale id of the other is that more, a hyphen and its sale id. */
  lemma KeyStringsCollideExactly(a: Key, b: Key)
    ensures KeyString(a) == KeyString(b) <==> a == b || Spills(a, b) || Spills(b, a)
  {
    if KeyString(a) == KeyString(b) {
      if |a.artworkId| == |b.artworkId| {
        assert a.artworkId == KeyString(a)[..|a.artworkId|] == KeyString(b)[..|b.artworkId|] == b.artworkId;
        assert a.saleId == KeyString(a)[|a.artworkId| + 1..] == KeyString(b)[|b.artworkId| + 1..] == b.saleId;
      } else if |a.artworkId| < |b.artworkId| {
        SharedStringSpills(a, b);
      } else {
        SharedStringSpills(b, a);
      }
    }
    if Spills(a, b) {
      SpilledStringIsShared(a, b);
    }
    if Spills(b, a) {
      SpilledStringIsShared(b, a);
    }
  }

  lemma SharedStringSpills(a: Key, b: Key)
    requires KeyString(a) == KeyString(b) && |a.artworkId| < |b.artworkId|
    ensures Spills(a, b)
  {
    var s, n, m := KeyString(a), |a.artworkId|, |b.artworkId|;
    assert s[..n] == a.artworkId && s[..m] == b.artworkId;
    assert s[n] == '-' && s[m] == '-';
    assert a.saleId == s[n + 1..] && b.saleId == s[m + 1..];
    assert s[n + 1..] == s[n + 1..m] + [s[m]] + s[m + 1..];
    assert b.artworkId[n..][1..] == s[n + 1..m];
  }

  lemma SpillingHasHyphen(a: Key, b: Key)
    requires Spills(a, b)
    ensures '-' in b.artworkId
  {
    assert b.artworkId[|a.artworkId|] == '-';
  }

  lemma SpilledStringIsShared(a: Key, b: Key)
    requires Spills(a, b)
    ensures KeyString(a) == KeyString(b)
  {
    var rest := b.artworkId[|a.artworkId|..];
    assert rest == "-" + rest[1..];
    Reassociates(a.artworkId, rest[1..], b.saleId);
  }

  lemma Reassociates(x: string, y: string, z: string)
    ensures x + "-" + (y + "-" + z) == x + ("-" + y) + "-" + z
  {
  }

  /** Artwork ids without hyphens keep pairs apart. */
  lemma KeyStringsDiffer(a: Key, b: Key)
    requires '-' !in a.artworkId && '-' !in b.artworkId
    ensures KeyString(a) == KeyString(b) <==> a == b
  {
    KeyStringsCollideExactly(a, b);
    if Spills(a, b) {
      SpillingHasHyphen(a, b);
    }
    if Spills(b, a) {
      SpillingHasHyphen(b, a);
    }
  }

  /** For every hyphenated artwork id there is another pair with its string. */
  lemma HyphensConfuse(artwork: string, rest: string, saleId: string)
    ensures var a, b := Key(artwork, rest + "-" + saleId), Key(artwork + "-" + rest, saleId);
            a != b && KeyString(a) == KeyString(b)
  {
    var a, b := Key(artwork, rest + "-" + saleId), Key(artwork + "-" + rest, saleId);
    assert b.artworkId[|a.artworkId|..] == "-" + rest && ("-" + rest)[1..] == rest;
    assert Spills(a, b);
    KeyStringsCollideExactly(a, b);
  }

  /** What the wrapper remembers: its promises by string, and the keys handed to the data loader; a promise
      is known by its position there. */
  datatype Cache = Cache(promises: map<string, nat>, dispatched: seq<Key>)

  const EMPTY := Cache(map[], [])

  ghost predicate Sound(c: Cache) {
    && (forall s | s in c.promises ::
          c.promises[s] < |c.dispatched| && KeyString(c.dispatched[c.promises[s]]) == s)
    && (forall p | 0 <= p < |c.dispatched| ::
          KeyString(c.dispatched[p]) in c.promises && c.promises[KeyString(c.dispatched[p])] == p)
  }

  /** A call of the wrapper: the promise remembered for its string, or a new one. */
  function Loaded(c: Cache, key: Key): (Cache, nat) {
    if KeyString(key) in c.promises then (c, c.promises[KeyString(key)])
    else (Cache(c.promises[KeyString(key) := |c.dispatched|], c.dispatched + [key]), |c.dispatched|)
  }

  /** A call gets the promise of the first key with its string; only a new string is dispatched. */
  lemma LoadedIs(c: Cache, key: Key)
    requires Sound(c)
    ensures var (c', promise) := Loaded(c, key);
            && Sound(c')
            && c'.dispatched == (if exists k | k in c.dispatched :: KeyString(k) == KeyString(key)
                                 then c.dispatched else c.dispatched + [key])
            && promise < |c'.dispatched| && KeyString(c'.dispatched[promise]) == KeyString(key)
  {
    if KeyString(key) in c.promises {
      assert c.dispatched[c.promises[KeyString(key)]] in c.dispatched;
    }
  }

  /** The wrapper. */
  class PromiseCache {
    var promiseCache: map<string, nat>
    var dispatched: seq<Key>

    ghost function State(): Cache
      reads this
    {
      Cache(promiseCache, dispatched)
    }

    constructor ()
      ensures State() == EMPTY
    {
      promiseCache, dispatched := map[], [];
    }

    method Load(key: Key) returns (promise: nat)
      requires Sound(State())
      modifies this
      ensures Sound(State())
      ensures (State(), promise) == Loaded(old(State()), key)
      ensures dispatched == if exists k | k in old(dispatched) :: KeyString(k) == KeyString(key)
                            then old(dispatched) else old(dispatched) + [key]
      ensures promise < |dispatched| && KeyString(dispatched[promise]) == KeyString(key)
      ensures '-' !in key.artworkId && (forall k | k in old(dispatched) :: '-' !in k.artworkId) ==>
                dispatched[promise] == key
                && dispatched == if key in old(dispatched) then old(dispatched) else old(dispatched) + [key]
    {
      LoadedIs(State(), key);
      var keyString := KeyString(key);
      if keyString !in promiseCache {
        promise := |dispatched|;
        dispatched := dispatched + [key];
        promiseCache := promiseCache[keyString := promise];
      } else {
        promise := promiseCache[keyString];
        assert dispatched[promise] in dispatched;
      }
      if '-' !in key.artworkId && forall k | k in old(dispatched) :: '-' !in k.artworkId {
        KeyStringsDiffer(dispatched[promise], key);
        forall k | k in old(dispatched) && KeyString(k) == KeyString(key) ensures k == key {
          KeyStringsDiffer(k, key);
        }
      }
    }
  }

  // ---------------------------------------------------------------- whole runs

  datatype Event = Call(key: Key) | Dispatch

  /** The wrapper's memory, what the promises have been settled with, those dispatched first, first, and
      the calls made, each with its promise. */
  datatype Loading = Loading(cache: Cache, answers: seq<Option<SaleArtwork>>, calls: seq<(Key, nat)>)

  const START := Loading(EMPTY, [], [])

  /** The batches of a dispatch: chunks of at most 20 keys. */
  function Answers(loader: Loader, keys: seq<Key>): (answers: seq<Option<SaleArtwork>>)
    ensures |answers| == |keys|
  {
    if |keys| <= MAX_BATCH_SIZE then seq(|keys|, i requires 0 <= i < |keys| => Batched(loader, keys, i))
    else Answers(loader, keys[..MAX_BATCH_SIZE]) + Answers(loader, keys[MAX_BATCH_SIZE..])
  }

  function Step(loader: Loader, s: Loading, e: Event): Loading {
    match e
    case Call(key) =>
      var (cache, promise) := Loaded(s.cache, key);
      s.(cache := cache, calls := s.calls + [(key, promise)])
    case Dispatch =>
      if |s.answers| > |s.cache.dispatched| then s
      else s.(answers := s.answers + Answers(loader, s.cache.dispatched[|s.answers|..]))
  }

  function Run(loader: Loader, events: seq<Event>): Loading {
    if events == [] then START
    else Step(loader, Run(loader, events[..|events| - 1]), events[|events| - 1])
  }

  ghost predicate CallsWithin(events: seq<Event>, keys: set<Key>) {
    forall e | e in events && e.Call? :: e.key in keys
  }

  /** Every call whose promise is settled got what a lone lookup of its own key gives. */
  ghost predicate AnsweredAlone(loader: Loader, s: Loading) {
    forall c | c in s.calls && c.1 < |s.answers| :: s.answers[c.1] == Alone(loader, c.0)
  }

  ghost predicate RunSound(loader: Loader, s: Loading, keys: set<Key>) {
    && Sound(s.cache) && |s.answers| <= |s.cache.dispatched|
    && (forall k | k in s.cache.dispatched :: k in keys)
    && (forall p | 0 <= p < |s.answers| :: s.answers[p] == Alone(loader, s.cache.dispatched[p]))
    && (forall c | c in s.calls ::
          c.0 in keys && c.1 < |s.cache.dispatched| && KeyString(s.cache.dispatched[c.1]) == KeyString(c.0))
  }

  lemma {:induction false} AnswersAreAlone(loader: Loader, keys: seq<Key>)
    requires Consistent(loader)
    ensures forall i | 0 <= i < |keys| :: Answers(loader, keys)[i] == Alone(loader, keys[i])
  {
    hide Consistent, Batched, Alone;
    if |keys| <= 20 {
      BatchedIsAlone(loader, keys);
    } else {
      AnswersAreAlone(loader, keys[..MAX_BATCH_SIZE]);
      AnswersAreAlone(loader, keys[MAX_BATCH_SIZE..]);
    }
  }

  lemma CallKeeps(loader: Loader, s: Loading, key: Key, keys: set<Key>)
    requires RunSound(loader, s, keys) && key in keys
    ensures RunSound(loader, Step(loader, s, Call(key)), keys)
  {
    hide Alone, KeyString, Loaded, Sound;
    LoadedIs(s.cache, key);
    var (cache, promise) := Loaded(s.cache, key);
    assert s.cache.dispatched <= cache.dispatched;
  }

  lemma DispatchKeeps(loader: Loader, s: Loading, keys: set<Key>)
    requires Consistent(loader) && RunSound(loader, s, keys)
    ensures RunSound(loader, Step(loader, s, Dispatch), keys)
  {
    hide Consistent, Alone, KeyString, Answers, Sound;
    AnswersAreAlone(loader, s.cache.dispatched[|s.answers|..]);
  }

  lemma {:induction false} RunIsSound(loader: Loader, events: seq<Event>, keys: set<Key>)
    requires Consistent(loader) && CallsWithin(events, keys)
    ensures RunSound(loader, Run(loader, events), keys)
  {
    hide Consistent, Step, RunSound;
    if events == [] {
      StartIsSound(loader, keys);
    } else {
      var init, e := events[..|events| - 1], events[|events| - 1];
      assert e in events;
      RunIsSound(loader, init, keys);
      match e
      case Call(key) => CallKeeps(loader, Run(loader, init), key, keys);
      case Dispatch => DispatchKeeps(loader, Run(loader, init), keys);
    }
  }

  lemma StartIsSound(loader: Loader, keys: set<Key>)
    ensures RunSound(loader, START, keys)
  {
  }

  /** Over every run of calls for a set of keys, on every consistent loader, each call gets what a lone
      lookup of its own key gives, if and only if no key of the set spills into another. */
  lemma CallsAreAnsweredAloneExactly(keys: set<Key>)
    ensures (forall loader: Loader, events: seq<Event> | Consistent(loader) && CallsWithin(events, keys) ::
               AnsweredAlone(loader, Run(loader, events)))
            <==> forall a, b | a in keys && b in keys :: !Spills(a, b)
  {
    hide Consistent, Spills, Alone, KeyString;
    if forall a, b | a in keys && b in keys :: !Spills(a, b) {
      forall loader: Loader, events: seq<Event> | Consistent(loader) && CallsWithin(events, keys)
        ensures AnsweredAlone(loader, Run(loader, events))
      {
        RunIsSound(loader, events, keys);
        var s := Run(loader, events);
        forall c | c in s.calls && c.1 < |s.answers| ensures s.answers[c.1] == Alone(loader, c.0) {
          KeyStringsCollideExactly(s.cache.dispatched[c.1], c.0);
        }
      }
    } else {
      var a, b :| a in keys && b in keys && Spills(a, b);
      SpillShows(a, b);
      assert CallsWithin([Call(a), Call(b), Dispatch], keys);
    }
  }

  /** A sale with one lot of one artwork, whatever is asked for. */
  function OneLot(artworkId: string): Loader {
    (s: string, ids: seq<string>) => Listed([SaleArtwork(artworkId, "", "")])
  }

  /** The second call of a spilling pair gets the first's sale artwork. */
  lemma SpillShows(a: Key, b: Key)
    requires Spills(a, b)
    ensures Consistent(OneLot(a.artworkId))
    ensures !AnsweredAlone(OneLot(a.artworkId), Run(OneLot(a.artworkId), [Call(a), Call(b), Dispatch]))
  {
    hide Spills, Step, Consistent, Alone;
    var loader := OneLot(a.artworkId);
    OneLotIsConsistent(a.artworkId);
    RunOfThree(loader, Call(a), Call(b), Dispatch);
    SpillSharesPromise(loader, a, b);
    FirstKeyIsAnswered(loader, Cache(map[KeyString(a) := 0], [a]), a, [(a, 0), (b, 0)]);
    OneLotTellsApart(a, b);
    var s := Run(loader, [Call(a), Call(b), Dispatch]);
    assert s.calls[1] == (b, 0) && s.calls[1] in s.calls;
  }

  lemma SpillSharesPromise(loader: Loader, a: Key, b: Key)
    requires Spills(a, b)
    ensures Step(loader, Step(loader, START, Call(a)), Call(b)) ==
            Loading(Cache(map[KeyString(a) := 0], [a]), [], [(a, 0), (b, 0)])
  {
    KeyStringsCollideExactly(a, b);
    hide KeyString, Spills;
    var cache := Cache(map[KeyString(a) := 0], [a]);
    assert EMPTY.promises[KeyString(a) := 0] == cache.promises && EMPTY.dispatched + [a] == cache.dispatched;
    assert Step(loader, START, Call(a)) == Loading(cache, [], [] + [(a, 0)]);
    assert [(a, 0)] + [(b, 0)] == [(a, 0), (b, 0)];
  }

  lemma FirstKeyIsAnswered(loader: Loader, cache: Cache, key: Key, calls: seq<(Key, nat)>)
    requires Consistent(loader) && cache.dispatched == [key]
    ensures var s := Step(loader, Loading(cache, [], calls), Dispatch);
            s.calls == calls && |s.answers| == 1 && s.answers[0] == Alone(loader, key)
  {
    hide Consistent, Alone, Answers;
    assert cache.dispatched[0..] == [key];
    AnswersAreAlone(loader, [key]);
  }

  lemma OneLotTellsApart(a: Key, b: Key)
    requires Spills(a, b)
    ensures Alone(OneLot(a.artworkId), a) != Alone(OneLot(a.artworkId), b)
  {
  }

  lemma OneLotIsConsistent(artworkId: string)
    ensures Consistent(OneLot(artworkId))
  {
  }

  lemma RunOfThree(loader: Loader, e1: Event, e2: Event, e3: Event)
    ensures Run(loader, [e1, e2, e3]) == Step(loader, Step(loader, Step(loader, START, e1), e2), e3)
  {
    hide Step;
    assert [e1, e2, e3][..2] == [e1, e2] && [e1, e2][..1] == [e1] && [e1][..0] == [];
    assert Run(loader, [e1]) == Step(loader, START, e1);
    assert Run(loader, [e1, e2]) == Step(loader, Run(loader, [e1]), e2);
  }
}
