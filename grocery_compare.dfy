/**
 * The orchestration of the grocery price comparator
 * (grocery_price_compare.py): the sequential loop that asks every enabled
 * store for the first hit of every item and normalises its price, and the
 * per-item cheapest-store summary with its per-store price matrix.
 *
 * The scrapers are browser I/O; the loop sees them only as a function from
 * (query, store) to an optional hit, with a failed or suppressed search
 * giving no hit.
 */
module GroceryCompare {
  import opened Wrappers
  import opened Text
  import opened Ordering
  import opened GroceryUnits

  /** The stores, in the order the loop visits them. */
  datatype Store = TargetStore | Walmart | Safeway | QFC | FredMeyer

  const StoreOrder: seq<Store> := [TargetStore, Walmart, Safeway, QFC, FredMeyer]

  function StoreRank(s: Store): nat {
    match s
    case TargetStore => 0
    case Walmart => 1
    case Safeway => 2
    case QFC => 3
    case FredMeyer => 4
  }

  /** The store label a scraper writes into its hit. */
  function StoreLabel(s: Store): string {
    match s
    case TargetStore => "Target"
    case Walmart => "Walmart"
    case Safeway => "Safeway"
    case QFC => "QFC"
    case FredMeyer => "Fred Meyer"
  }

  /** One item to look up and the unit its price is normalised to. */
  datatype Item = Item(name: string, normalizeTo: Target)

  /** The first product a store's search returned, as a row of the raw
      table. */
  datatype ProductHit = ProductHit(
    store: Store,
    query: string,
    name: string,
    priceTotal: Option<real>,
    unitPriceText: Option<string>,
    normalizedPrice: Option<real>,
    normalizedTo: Target,
    url: string)

  /** The scrapers label each hit with their own store and the query they
      were given. */
  ghost predicate HitsLabelled(fetch: (string, Store) -> Option<ProductHit>) {
    forall q, s :: fetch(q, s).Some? ==> fetch(q, s).value.store == s && fetch(q, s).value.query == q
  }

  /** A Python-truthy total price: present and not zero. */
  predicate HasPrice(h: ProductHit) {
    h.priceTotal.Some? && h.priceTotal.value != 0.0
  }

  /** A price normaliser: total price, product name, unit-price text and
      target to a normalised price. The loop uses NormalizePrice; the facts
      about the loop hold for any normaliser. */
  type Normaliser = (real, string, Option<string>, Target) -> Option<real>

  /** A row whose normalised price is what the loop computes for it: the
      normalisation of its total when that total is truthy, else none. */
  predicate RowConsistent(h: ProductHit, norm: Normaliser) {
    h.normalizedPrice ==
      if HasPrice(h) then norm(h.priceTotal.value, h.name, h.unitPriceText, h.normalizedTo)
      else None
  }

  /** The loop body for one hit: record the target unit and the normalised
      price (only when the total price is truthy); every other field is
      kept. */
  function Finish(hit: ProductHit, target: Target, norm: Normaliser): (h: ProductHit)
    ensures h.normalizedTo == target
    ensures h.store == hit.store && h.query == hit.query && h.name == hit.name && h.url == hit.url
    ensures h.priceTotal == hit.priceTotal && h.unitPriceText == hit.unitPriceText
    ensures !HasPrice(hit) ==> h.normalizedPrice == None
  {
    var price := if HasPrice(hit) then norm(hit.priceTotal.value, hit.name, hit.unitPriceText, target) else None;
    hit.(normalizedTo := target, normalizedPrice := price)
  }

  lemma FinishConsistent(hit: ProductHit, target: Target, norm: Normaliser)
    ensures RowConsistent(Finish(hit, target, norm), norm)
  {
  }

  /** The row a store contributes for an item, if it is enabled and its
      search gave a hit. */
  function StoreRow(item: Item, s: Store, enabled: set<Store>, fetch: (string, Store) -> Option<ProductHit>, norm: Normaliser): seq<ProductHit> {
    if s in enabled && fetch(item.name, s).Some? then [Finish(fetch(item.name, s).value, item.normalizeTo, norm)] else []
  }

  /** The rows the stores in `stores` add for one item, in the order of
      `stores`. */
  function StoreRows(item: Item, stores: seq<Store>, enabled: set<Store>, fetch: (string, Store) -> Option<ProductHit>, norm: Normaliser): seq<ProductHit>
  {
    if stores == [] then []
    else StoreRows(item, stores[..|stores| - 1], enabled, fetch, norm) + StoreRow(item, stores[|stores| - 1], enabled, fetch, norm)
  }

  /** The raw table for a list of items: each item's rows, store by store. */
  function AllRows(items: seq<Item>, enabled: set<Store>, fetch: (string, Store) -> Option<ProductHit>, norm: Normaliser): seq<ProductHit>
  {
    if items == [] then []
    else AllRows(items[..|items| - 1], enabled, fetch, norm) + StoreRows(items[|items| - 1], StoreOrder, enabled, fetch, norm)
  }

  /** fetch_all: for each item in order, each enabled store in the fixed
      order; every hit gets its target unit and normalised price and is
      appended to the table. */
  method FetchAll(items: seq<Item>, enabled: set<Store>, fetch: (string, Store) -> Option<ProductHit>)
    returns (rows: seq<ProductHit>)
    ensures rows == AllRows(items, enabled, fetch, NormalizePrice)
  {
    rows := [];
    for i := 0 to |items|
      invariant rows == AllRows(items[..i], enabled, fetch, NormalizePrice)
    {
      var block := FetchItem(items[i], enabled, fetch);
      assert items[..i + 1][..i] == items[..i];
      rows := rows + block;
    }
    assert items[..|items|] == items;
  }

  /** One pass of fetch_all's outer loop: the item's finished hits, store
      by store in the fixed order. */
  method FetchItem(item: Item, enabled: set<Store>, fetch: (string, Store) -> Option<ProductHit>)
    returns (block: seq<ProductHit>)
    ensures block == StoreRows(item, StoreOrder, enabled, fetch, NormalizePrice)
  {
    block := [];
    for j := 0 to |StoreOrder|
      invariant block == StoreRows(item, StoreOrder[..j], enabled, fetch, NormalizePrice)
    {
      var store := StoreOrder[j];
      assert StoreOrder[..j + 1][..j] == StoreOrder[..j];
      assert StoreRows(item, StoreOrder[..j + 1], enabled, fetch, NormalizePrice) ==
        block + StoreRow(item, store, enabled, fetch, NormalizePrice);
      if store in enabled {
        var hit := fetch(item.name, store);
        if hit.Some? {
          var row := hit.value.(normalizedTo := item.normalizeTo);
          row := row.(normalizedPrice :=
            if HasPrice(row) then NormalizePrice(row.priceTotal.value, row.name, row.unitPriceText, item.normalizeTo)
            else None);
          assert row == Finish(hit.value, item.normalizeTo, NormalizePrice);
          block := block + [row];
        }
      }
    }
    assert StoreOrder[..|StoreOrder|] == StoreOrder;
  }

  /** Each row of one item's block is the finished hit of an enabled store
      among `stores`. */
  lemma {:induction false} StoreRowsSound(item: Item, stores: seq<Store>, enabled: set<Store>, fetch: (string, Store) -> Option<ProductHit>, norm: Normaliser)
    ensures |StoreRows(item, stores, enabled, fetch, norm)| <= |stores|
    ensures forall h :: h in StoreRows(item, stores, enabled, fetch, norm) ==>
      exists s :: s in stores && s in enabled && fetch(item.name, s).Some? &&
        h == Finish(fetch(item.name, s).value, item.normalizeTo, norm)
  {
    if stores != [] {
      var init := stores[..|stores| - 1];
      StoreRowsSound(item, init, enabled, fetch, norm);
      assert forall s :: s in init ==> s in stores;
    }
  }

  /** Each enabled store among `stores` with a hit contributes its row. */
  lemma {:induction false} StoreRowsComplete(item: Item, stores: seq<Store>, enabled: set<Store>, fetch: (string, Store) -> Option<ProductHit>, norm: Normaliser)
    ensures forall s :: s in stores && s in enabled && fetch(item.name, s).Some? ==>
      Finish(fetch(item.name, s).value, item.normalizeTo, norm) in StoreRows(item, stores, enabled, fetch, norm)
  {
    if stores != [] {
      var init := stores[..|stores| - 1];
      StoreRowsComplete(item, init, enabled, fetch, norm);
      assert stores == init + [stores[|stores| - 1]];
    }
  }

  /** Rows of `item` from stores of rank below `j`, in strictly increasing
      store rank. */
  predicate RanksBelow(r: seq<ProductHit>, item: Item, j: nat) {
    && (forall k :: 0 <= k < |r| ==> StoreRank(r[k].store) < j && r[k].query == item.name)
    && (forall k, l :: 0 <= k < l < |r| ==> StoreRank(r[k].store) < StoreRank(r[l].store))
  }

  lemma RanksBelowAppend(r0: seq<ProductHit>, tail: seq<ProductHit>, item: Item, j: nat)
    requires RanksBelow(r0, item, j) && |tail| <= 1
    requires forall k :: 0 <= k < |tail| ==> StoreRank(tail[k].store) == j && tail[k].query == item.name
    ensures RanksBelow(r0 + tail, item, j + 1)
  {
  }

  /** With labelled hits, one item's rows come in strictly increasing store
      order: the stores are visited in a fixed order and each at most once. */
  lemma {:induction false} StoreRowsOrdered(item: Item, j: nat, enabled: set<Store>, fetch: (string, Store) -> Option<ProductHit>, norm: Normaliser)
    requires HitsLabelled(fetch) && j <= |StoreOrder|
    ensures RanksBelow(StoreRows(item, StoreOrder[..j], enabled, fetch, norm), item, j)
  {
    if j > 0 {
      StoreRowsOrdered(item, j - 1, enabled, fetch, norm);
      var prefix := StoreOrder[..j];
      assert prefix[..j - 1] == StoreOrder[..j - 1];
      var s := StoreOrder[j - 1];
      assert prefix[|prefix| - 1] == s;
      assert StoreRank(s) == j - 1 by {
        assert StoreOrder == [TargetStore, Walmart, Safeway, QFC, FredMeyer];
      }
      var r0 := StoreRows(item, StoreOrder[..j - 1], enabled, fetch, norm);
      var tail := StoreRow(item, s, enabled, fetch, norm);
      assert StoreRows(item, prefix, enabled, fetch, norm) == r0 + tail;
      assert forall k :: 0 <= k < |tail| ==> tail[k].store == s && tail[k].query == item.name;
      RanksBelowAppend(r0, tail, item, j - 1);
    }
  }

  /** Where each row of the raw table comes from: the finished hit of an
      enabled store for one of the items. */
  lemma {:induction false} AllRowsSound(items: seq<Item>, enabled: set<Store>, fetch: (string, Store) -> Option<ProductHit>, norm: Normaliser)
    ensures |AllRows(items, enabled, fetch, norm)| <= |StoreOrder| * |items|
    ensures forall h :: h in AllRows(items, enabled, fetch, norm) ==>
      exists i, s :: 0 <= i < |items| && s in enabled && fetch(items[i].name, s).Some? &&
        h == Finish(fetch(items[i].name, s).value, items[i].normalizeTo, norm)
  {
    if items != [] {
      var init := items[..|items| - 1];
      var last := items[|items| - 1];
      AllRowsSound(init, enabled, fetch, norm);
      StoreRowsSound(last, StoreOrder, enabled, fetch, norm);
      forall h | h in AllRows(items, enabled, fetch, norm)
        ensures exists i, s :: (0 <= i < |items| && s in enabled && fetch(items[i].name, s).Some? &&
                                 h == Finish(fetch(items[i].name, s).value, items[i].normalizeTo, norm))
      {
        if h in AllRows(init, enabled, fetch, norm) {
          var i, s :| 0 <= i < |init| && s in enabled && fetch(init[i].name, s).Some? &&
            h == Finish(fetch(init[i].name, s).value, init[i].normalizeTo, norm);
          assert items[i] == init[i];
        } else {
          var s :| s in StoreOrder && s in enabled && fetch(last.name, s).Some? &&
            h == Finish(fetch(last.name, s).value, last.normalizeTo, norm);
          assert items[|items| - 1] == last;
        }
      }
    }
  }

  /** Every enabled store's hit for every item is a row of the raw table. */
  lemma {:induction false} AllRowsComplete(items: seq<Item>, enabled: set<Store>, fetch: (string, Store) -> Option<ProductHit>, norm: Normaliser)
    ensures forall i, s :: 0 <= i < |items| && s in enabled && fetch(items[i].name, s).Some? ==>
      Finish(fetch(items[i].name, s).value, items[i].normalizeTo, norm) in AllRows(items, enabled, fetch, norm)
  {
    if items != [] {
      var init := items[..|items| - 1];
      var last := items[|items| - 1];
      AllRowsComplete(init, enabled, fetch, norm);
      StoreRowsComplete(last, StoreOrder, enabled, fetch, norm);
      var all := AllRows(items, enabled, fetch, norm);
      assert all == AllRows(init, enabled, fetch, norm) + StoreRows(last, StoreOrder, enabled, fetch, norm);
      forall i, s | 0 <= i < |items| && s in enabled && fetch(items[i].name, s).Some?
        ensures Finish(fetch(items[i].name, s).value, items[i].normalizeTo, norm) in all
      {
        var h := Finish(fetch(items[i].name, s).value, items[i].normalizeTo, norm);
        if i < |init| {
          assert init[i] == items[i];
          assert h in AllRows(init, enabled, fetch, norm);
        } else {
          assert items[i] == last;
          AllStoresListed();
          assert h in StoreRows(last, StoreOrder, enabled, fetch, norm);
        }
      }
    }
  }

  /** Every row of the raw table keeps the normalisation invariant, and a
      row without a truthy total has no normalised price, even when it has
      unit-price text. */
  lemma AllRowsConsistent(items: seq<Item>, enabled: set<Store>, fetch: (string, Store) -> Option<ProductHit>, norm: Normaliser)
    ensures forall h :: h in AllRows(items, enabled, fetch, norm) ==>
      RowConsistent(h, norm) && (!HasPrice(h) ==> h.normalizedPrice == None)
  {
    AllRowsSound(items, enabled, fetch, norm);
    forall h | h in AllRows(items, enabled, fetch, norm)
      ensures RowConsistent(h, norm) && (!HasPrice(h) ==> h.normalizedPrice == None)
    {
      var i, s :| 0 <= i < |items| && s in enabled && fetch(items[i].name, s).Some? &&
        h == Finish(fetch(items[i].name, s).value, items[i].normalizeTo, norm);
      FinishConsistent(fetch(items[i].name, s).value, items[i].normalizeTo, norm);
    }
  }

  /** The (query, unit) pair a row is grouped by. */
  type Key = (string, Target)

  function KeyOf(h: ProductHit): Key { (h.query, h.normalizedTo) }

  /** Some enabled store returned a hit for the query. */
  ghost predicate HasHit(q: string, enabled: set<Store>, fetch: (string, Store) -> Option<ProductHit>) {
    exists s :: s in enabled && fetch(q, s).Some?
  }

  function ItemKey(item: Item): Key { (item.name, item.normalizeTo) }

  /** With labelled hits, the group keys of the table are the keys of the
      items some enabled store returned a hit for. */
  lemma AllRowsKeys(items: seq<Item>, enabled: set<Store>, fetch: (string, Store) -> Option<ProductHit>, norm: Normaliser)
    requires HitsLabelled(fetch)
    ensures forall k :: k in GroupKeys(AllRows(items, enabled, fetch, norm)) ==>
      exists i :: 0 <= i < |items| && k == ItemKey(items[i]) && HasHit(k.0, enabled, fetch)
    ensures forall k :: k in GroupKeys(AllRows(items, enabled, fetch, norm)) ==> HasHit(k.0, enabled, fetch)
    ensures forall i :: 0 <= i < |items| && HasHit(items[i].name, enabled, fetch) ==>
      ItemKey(items[i]) in GroupKeys(AllRows(items, enabled, fetch, norm))
  {
    var all := AllRows(items, enabled, fetch, norm);
    AllRowsSound(items, enabled, fetch, norm);
    AllRowsComplete(items, enabled, fetch, norm);
    forall k | k in GroupKeys(all)
      ensures exists i :: 0 <= i < |items| && k == ItemKey(items[i]) && HasHit(k.0, enabled, fetch)
    {
      var h :| h in all && KeyOf(h) == k;
      var i, s :| 0 <= i < |items| && s in enabled && fetch(items[i].name, s).Some? &&
        h == Finish(fetch(items[i].name, s).value, items[i].normalizeTo, norm);
      assert k == ItemKey(items[i]);
    }
    forall i | 0 <= i < |items| && HasHit(items[i].name, enabled, fetch)
      ensures ItemKey(items[i]) in GroupKeys(all)
    {
      var s :| s in enabled && fetch(items[i].name, s).Some?;
      var h := Finish(fetch(items[i].name, s).value, items[i].normalizeTo, norm);
      assert h in all && KeyOf(h) == ItemKey(items[i]);
    }
  }

  // ---------------------------------------------------------------------
  // pick_cheapest
  // ---------------------------------------------------------------------

  /** The group keys in pandas' sorted order: by query, then by the unit's
      column value. */
  predicate KeyLe(a: Key, b: Key) {
    StrLt(a.0, b.0) || (a.0 == b.0 && StrLe(TargetName(a.1), TargetName(b.1)))
  }

  lemma TargetNameInjective(t: Target, u: Target)
    ensures TargetName(t) == TargetName(u) ==> t == u
  {
    if TargetName(t) == TargetName(u) {
      assert TargetName(t)[4..] == TargetName(u)[4..];
    }
  }

  lemma KeyLeIsTotalOrder()
    ensures TotalOrder(KeyLe)
  {
    forall a: Key ensures KeyLe(a, a) { StrLeReflexive(TargetName(a.1)); }
    forall a: Key, b: Key | KeyLe(a, b) && KeyLe(b, a) ensures a == b {
      StrLeAntisymmetric(a.0, b.0);
      StrLeAntisymmetric(TargetName(a.1), TargetName(b.1));
      TargetNameInjective(a.1, b.1);
    }
    forall a: Key, b: Key, c: Key | KeyLe(a, b) && KeyLe(b, c) ensures KeyLe(a, c) {
      StrLeTransitive(a.0, b.0, c.0);
      StrLeAntisymmetric(a.0, c.0);
      StrLeAntisymmetric(a.0, b.0);
      StrLeTransitive(TargetName(a.1), TargetName(b.1), TargetName(c.1));
    }
    forall a: Key, b: Key ensures KeyLe(a, b) || KeyLe(b, a) {
      StrLeTotal(a.0, b.0);
      StrLeTotal(TargetName(a.1), TargetName(b.1));
    }
  }

  /** The row with the smallest normalised price, ignoring rows without
      one; the first such row when several share the minimum. */
  function Cheapest(g: seq<ProductHit>): (r: Option<ProductHit>)
    ensures r.None? <==> forall h :: h in g ==> h.normalizedPrice.None?
    ensures r.Some? ==> (r.value in g && r.value.normalizedPrice.Some? &&
      forall h :: h in g && h.normalizedPrice.Some? ==> r.value.normalizedPrice.value <= h.normalizedPrice.value)
  {
    if g == [] then None
    else
      var rest := Cheapest(g[1..]);
      assert forall h :: h in g <==> h == g[0] || h in g[1..];
      if g[0].normalizedPrice.None? then rest
      else if rest.None? || g[0].normalizedPrice.value <= rest.value.normalizedPrice.value then Some(g[0])
      else rest
  }

  /** The summary fields of the cheapest row. */
  datatype Pick = Pick(store: Store, name: string, price: real, url: string)

  /** One output row: the group key, the cheapest row (absent when no row
      of the group has a normalised price), and the per-store minimum
      prices (a store with no priced row in the group has no entry). */
  datatype Summary = Summary(query: string, normalizedTo: Target, cheapest: Option<Pick>, perStore: map<Store, real>)

  function GroupKeys(rows: seq<ProductHit>): set<Key> {
    set h | h in rows :: KeyOf(h)
  }

  function Group(rows: seq<ProductHit>, k: Key): (g: seq<ProductHit>)
    ensures forall h :: h in g <==> h in rows && KeyOf(h) == k
  {
    Filter(rows, (h: ProductHit) => KeyOf(h) == k)
  }

  /** The pivot cell for one store of a group: the minimum of its
      normalised prices, absent when it has none. */
  function StoreMin(g: seq<ProductHit>, s: Store): (r: Option<real>)
    ensures r.Some? <==> exists h :: h in g && h.store == s && h.normalizedPrice.Some?
    ensures r.Some? ==> ((exists h :: h in g && h.store == s && h.normalizedPrice == r) &&
      forall h :: h in g && h.store == s && h.normalizedPrice.Some? ==> r.value <= h.normalizedPrice.value)
  {
    var c := Cheapest(Filter(g, (h: ProductHit) => h.store == s));
    if c.Some? then Some(c.value.normalizedPrice.value) else None
  }

  function PerStore(g: seq<ProductHit>): (m: map<Store, real>)
    ensures forall s :: s in m <==> exists h :: h in g && h.store == s && h.normalizedPrice.Some?
    ensures forall s :: s in m ==> StoreMin(g, s) == Some(m[s])
  {
    AllStoresListed();
    map s | s in StoreOrder && StoreMin(g, s).Some? :: StoreMin(g, s).value
  }

  lemma AllStoresListed()
    ensures forall s :: s in StoreOrder
  {
    forall s ensures s in StoreOrder {
      match s
      case TargetStore =>
      case Walmart =>
      case Safeway =>
      case QFC =>
      case FredMeyer =>
    }
  }

  /** The summary row of one group: `_pick` and the pivot row merged. */
  function Summarize(rows: seq<ProductHit>, k: Key): (r: Summary)
    ensures r.query == k.0 && r.normalizedTo == k.1
    ensures r.cheapest.None? <==> forall h :: h in rows && KeyOf(h) == k ==> h.normalizedPrice.None?
    ensures r.cheapest.Some? ==>
      (exists h :: h in rows && KeyOf(h) == k && h.normalizedPrice == Some(r.cheapest.value.price) &&
         h.store == r.cheapest.value.store && h.name == r.cheapest.value.name && h.url == r.cheapest.value.url) &&
      forall h :: h in rows && KeyOf(h) == k && h.normalizedPrice.Some? ==> r.cheapest.value.price <= h.normalizedPrice.value
    ensures forall s :: s in r.perStore <==> exists h :: h in rows && KeyOf(h) == k && h.store == s && h.normalizedPrice.Some?
    ensures forall s :: s in r.perStore ==>
      (exists h :: h in rows && KeyOf(h) == k && h.store == s && h.normalizedPrice == Some(r.perStore[s])) &&
      forall h :: h in rows && KeyOf(h) == k && h.store == s && h.normalizedPrice.Some? ==> r.perStore[s] <= h.normalizedPrice.value
  {
    var g := Group(rows, k);
    var c := Cheapest(g);
    var pick := if c.Some? then Some(Pick(c.value.store, c.value.name, c.value.normalizedPrice.value, c.value.url)) else None;
    Summary(k.0, k.1, pick, PerStore(g))
  }

  /** The group keys in the order groupby yields them. */
  function SortedKeys(rows: seq<ProductHit>): (ks: seq<Key>)
    ensures |ks| == |GroupKeys(rows)|
    ensures forall k :: k in ks <==> k in GroupKeys(rows)
    ensures forall i, j :: 0 <= i < j < |ks| ==> StrLe(ks[i].0, ks[j].0) && ks[i] != ks[j]
  {
    KeyLeIsTotalOrder();
    KeyLeOrdersQueries();
    SortSet(GroupKeys(rows), KeyLe)
  }

  lemma KeyLeOrdersQueries()
    ensures forall a, b :: KeyLe(a, b) ==> StrLe(a.0, b.0)
  {
    forall a: Key, b: Key | KeyLe(a, b) ensures StrLe(a.0, b.0) {
      StrLeReflexive(a.0);
    }
  }

  function SummaryKey(s: Summary): Key { (s.query, s.normalizedTo) }

  /** pick_cheapest: the summary row of each (query, unit) group of the
      table, in sorted key order; an empty table gives an empty result. */
  function PickCheapest(rows: seq<ProductHit>): (r: seq<Summary>)
    ensures rows == [] ==> r == []
    ensures |r| == |GroupKeys(rows)|
    ensures forall i :: 0 <= i < |r| ==> SummaryKey(r[i]) == SortedKeys(rows)[i]
  {
    var keys := SortedKeys(rows);
    seq(|keys|, i requires 0 <= i < |keys| => Summarize(rows, keys[i]))
  }

  /** Each output row is the summary of its own group. */
  lemma PickCheapestRows(rows: seq<ProductHit>)
    ensures var r := PickCheapest(rows);
      forall i :: 0 <= i < |r| ==> r[i] == Summarize(rows, SummaryKey(r[i]))
  {
  }

  /** The output has exactly one row per group and is sorted by query. */
  lemma PickCheapestGroups(rows: seq<ProductHit>)
    ensures var r := PickCheapest(rows);
      (forall k :: k in GroupKeys(rows) <==> exists i :: 0 <= i < |r| && SummaryKey(r[i]) == k) &&
      (forall i, j :: 0 <= i < j < |r| ==> SummaryKey(r[i]) != SummaryKey(r[j]) && StrLe(r[i].query, r[j].query))
  {
    var r := PickCheapest(rows);
    var keys := SortedKeys(rows);
    forall k | k in GroupKeys(rows)
      ensures exists i :: 0 <= i < |r| && SummaryKey(r[i]) == k
    {
      var i :| 0 <= i < |keys| && keys[i] == k;
      assert SummaryKey(r[i]) == k;
    }
    forall i | 0 <= i < |r| ensures SummaryKey(r[i]) in GroupKeys(rows) {
      assert keys[i] in keys;
    }
    forall i, j | 0 <= i < j < |r|
      ensures SummaryKey(r[i]) != SummaryKey(r[j]) && StrLe(r[i].query, r[j].query)
    {
      assert SummaryKey(r[i]) == keys[i] && SummaryKey(r[j]) == keys[j];
    }
  }

  /** The summary has a row for the item's (query, unit) key. */
  predicate Summarised(out: seq<Summary>, item: Item) {
    exists j :: 0 <= j < |out| && SummaryKey(out[j]) == ItemKey(item)
  }

  /** Fetching and summarising together: an item has a summary row exactly
      when some enabled store returned a hit for it. */
  lemma SummaryRowForItem(items: seq<Item>, enabled: set<Store>, fetch: (string, Store) -> Option<ProductHit>, norm: Normaliser)
    requires HitsLabelled(fetch)
    ensures forall i :: 0 <= i < |items| ==>
      (HasHit(items[i].name, enabled, fetch) <==> Summarised(PickCheapest(AllRows(items, enabled, fetch, norm)), items[i]))
  {
    var rows := AllRows(items, enabled, fetch, norm);
    AllRowsKeys(items, enabled, fetch, norm);
    PickCheapestGroups(rows);
    forall i | 0 <= i < |items|
      ensures HasHit(items[i].name, enabled, fetch) <==> Summarised(PickCheapest(rows), items[i])
    {
      var k := ItemKey(items[i]);
      assert HasHit(items[i].name, enabled, fetch) ==> k in GroupKeys(rows);
      assert k in GroupKeys(rows) <==> Summarised(PickCheapest(rows), items[i]);
      assert k in GroupKeys(rows) ==> HasHit(k.0, enabled, fetch);
    }
  }

  /** Every summary row belongs to one of the items. */
  lemma SummaryRowsFromItems(items: seq<Item>, enabled: set<Store>, fetch: (string, Store) -> Option<ProductHit>, norm: Normaliser)
    requires HitsLabelled(fetch)
    ensures var out := PickCheapest(AllRows(items, enabled, fetch, norm));
      forall j :: 0 <= j < |out| ==> exists i :: 0 <= i < |items| && SummaryKey(out[j]) == ItemKey(items[i])
  {
    var rows := AllRows(items, enabled, fetch, norm);
    var out := PickCheapest(rows);
    var keys := GroupKeys(rows);
    AllRowsKeys(items, enabled, fetch, norm);
    PickCheapestGroups(rows);
    forall j | 0 <= j < |out|
      ensures exists i :: 0 <= i < |items| && SummaryKey(out[j]) == ItemKey(items[i])
    {
      assert SummaryKey(out[j]) in keys;
    }
  }
}
