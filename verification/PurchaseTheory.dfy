/** What every purchase satisfies, in every state the operations can reach. */
module PurchaseTheory {
  import opened Prelude
  import opened PricingTree
  import opened Purchases

  // ---- The invariant ----

  function ItemSale(items: seq<Item>): int {
    if items == [] then 0 else ItemSale(items[..|items| - 1]) + PriceOrZero(items[|items| - 1].salePrice)
  }

  function ItemSupport(items: seq<Item>): int {
    if items == [] then 0 else ItemSupport(items[..|items| - 1]) + items[|items| - 1].supportPrice
  }

  /** The stored totals are those of the stored items, and no config is selected twice. */
  ghost predicate Consistent(p: Purchase, own: seq<Item>) {
    && p.selectedCount == |own|
    && p.saleTotal == ItemSale(own) && p.supportTotal == ItemSupport(own)
    && p.grandTotal == p.saleTotal + p.supportTotal
    && forall i, j :: 0 <= i < j < |own| ==> own[i].config != own[j].config
  }

  ghost predicate ValidConfigs(db: Db) {
    && UniqueConfigs(db.configs)
    && forall k :: k in db.configs ==> ValidConfig(db, k, db.configs[k])
  }

  ghost predicate ValidConfig(db: Db, k: int, c: Config) {
    && c.id == k < db.nextConfig && c.customer in db.customers && c.service in db.services
    && !Negative(c.salePrice) && !TooLarge(c.salePrice) && 0 <= c.supportPrice <= MaxBigInt
  }

  ghost predicate ValidCatalog(db: Db) {
    forall s :: s in db.services ==>
      db.services[s].id == s && db.services[s].project in db.projects && db.services[s].group in db.groups
  }

  ghost predicate ValidItem(db: Db, i: Item) {
    && i.id < db.nextItem && i.purchase in db.purchases && i.config in db.configs
    && db.configs[i.config].customer == db.purchases[i.purchase].customer
  }

  ghost predicate ValidItems(db: Db) {
    && (forall i :: 0 <= i < |db.items| ==> ValidItem(db, db.items[i]))
    && (forall i, j :: 0 <= i < j < |db.items| ==> db.items[i].id < db.items[j].id)
  }

  ghost predicate ValidPurchases(db: Db) {
    forall p :: p in db.purchases ==>
      p < db.nextPurchase && db.purchases[p].customer in db.customers && Consistent(db.purchases[p], Own(db.items, p))
  }

  ghost predicate Valid(db: Db) {
    ValidCatalog(db) && ValidConfigs(db) && ValidItems(db) && ValidPurchases(db)
  }

  // ---- Items of a purchase ----

  lemma {:induction false} OwnMember(items: seq<Item>, p: int, i: Item)
    ensures i in Own(items, p) <==> i in items && i.purchase == p
  {
    if items != [] {
      var n := |items| - 1;
      OwnMember(items[..n], p, i);
      assert items == items[..n] + [items[n]];
    }
  }

  lemma {:induction false} WithoutMember(items: seq<Item>, p: int, i: Item)
    ensures i in Without(items, p) <==> i in items && i.purchase != p
  {
    if items != [] {
      var n := |items| - 1;
      WithoutMember(items[..n], p, i);
      assert items == items[..n] + [items[n]];
    }
  }

  lemma {:induction false} OwnAppend(a: seq<Item>, b: seq<Item>, p: int)
    ensures Own(a + b, p) == Own(a, p) + Own(b, p)
  {
    if b == [] {
      assert a + b == a;
    } else {
      var n := |b| - 1;
      assert a + b == (a + b[..n]) + [b[n]];
      assert (a + b)[..|a + b| - 1] == a + b[..n];
      OwnAppend(a, b[..n], p);
    }
  }

  lemma {:induction false} OwnWithout(items: seq<Item>, p: int, q: int)
    ensures Own(Without(items, p), q) == if p == q then [] else Own(items, q)
  {
    if items != [] {
      var n := |items| - 1;
      OwnWithout(items[..n], p, q);
      var last := if items[n].purchase == p then [] else [items[n]];
      OwnAppend(Without(items[..n], p), last, q);
      assert last != [] ==> last[..0] == [];
    }
  }

  lemma {:induction false} OwnOfOne(items: seq<Item>, p: int, q: int)
    requires forall i :: 0 <= i < |items| ==> items[i].purchase == p
    ensures Own(items, q) == if p == q then items else []
  {
    if items != [] {
      var n := |items| - 1;
      forall i | 0 <= i < n ensures items[..n][i].purchase == p {
        assert items[..n][i] == items[i];
      }
      OwnOfOne(items[..n], p, q);
      assert items[n].purchase == p;
      assert items == items[..n] + [items[n]];
    }
  }

  lemma {:induction false} WithoutOrdered(items: seq<Item>, p: int)
    requires forall i, j :: 0 <= i < j < |items| ==> items[i].id < items[j].id
    ensures var w := Without(items, p); forall i, j :: 0 <= i < j < |w| ==> w[i].id < w[j].id
  {
    if items != [] {
      var n := |items| - 1;
      WithoutOrdered(items[..n], p);
      var w := Without(items[..n], p);
      forall i | 0 <= i < |w| ensures w[i].id < items[n].id {
        WithoutMember(items[..n], p, w[i]);
        var k :| 0 <= k < n && items[..n][k] == w[i];
      }
    }
  }

  // ---- Selections and their items ----

  lemma {:induction false} ItemTotals(first: int, p: int, selections: seq<Joined>)
    ensures ItemSale(ItemsFor(first, p, selections)) == SaleOf(selections)
    ensures ItemSupport(ItemsFor(first, p, selections)) == SupportOf(selections)
  {
    if selections != [] {
      var n := |selections| - 1;
      ItemTotals(first, p, selections[..n]);
      assert ItemsFor(first, p, selections)[..n] == ItemsFor(first, p, selections[..n]);
    }
  }

  /**
   The selections are the joins of the configs asked for, in that order; each belongs to the customer and can be
   bought.
   */
  lemma {:induction false} ResolvedSelections(db: Db, customer: int, ids: seq<int>)
    requires ResolveEach(db, customer, ids).Ok?
    ensures var r := ResolveEach(db, customer, ids).value;
      |r| == |ids| && forall i :: 0 <= i < |ids| ==> Selection(db, customer, ids[i]) == Some(r[i]) && Purchasable(r[i])
  {
    if ids != [] {
      var n := |ids| - 1;
      ResolvedSelections(db, customer, ids[..n]);
      forall i | 0 <= i < n ensures ids[..n][i] == ids[i] {
      }
    }
  }

  /** Selection fails exactly for a config of another customer or none, or one that cannot be bought. */
  lemma {:induction false} ResolveSucceeds(db: Db, customer: int, ids: seq<int>)
    ensures ResolveEach(db, customer, ids).Ok? <==>
      forall i :: 0 <= i < |ids| ==>
        Selection(db, customer, ids[i]).Some? && Purchasable(Selection(db, customer, ids[i]).value)
  {
    if ids != [] {
      var n := |ids| - 1;
      ResolveSucceeds(db, customer, ids[..n]);
      forall i | 0 <= i < n ensures ids[..n][i] == ids[i] {
      }
    }
  }

  // ---- Replacing the items of a purchase ----

  lemma ReplacedItems(db: Db, id: int, selections: seq<Joined>, q: int)
    ensures var items := Without(db.items, id) + ItemsFor(db.nextItem, id, selections);
      Own(items, q) == if q == id then ItemsFor(db.nextItem, id, selections) else Own(db.items, q)
  {
    var added := ItemsFor(db.nextItem, id, selections);
    OwnAppend(Without(db.items, id), added, q);
    OwnWithout(db.items, id, q);
    OwnOfOne(added, id, q);
    assert Own(db.items, q) + [] == Own(db.items, q);
  }

  lemma NewItemsConsistent(db: Db, id: int, p: Purchase, ids: seq<int>)
    requires ValidConfigs(db) && Resolve(db, p.customer, ids).Ok?
    ensures var r := Resolve(db, p.customer, ids).value;
      Consistent(WithTotals(p, r), ItemsFor(db.nextItem, id, r))
  {
    var r := Resolve(db, p.customer, ids).value;
    var added := ItemsFor(db.nextItem, id, r);
    ResolvedSelections(db, p.customer, ids);
    ItemTotals(db.nextItem, id, r);
    forall i | 0 <= i < |ids| ensures added[i].config == ids[i] {
      assert Selection(db, p.customer, ids[i]) == Some(r[i]);
      assert ValidConfig(db, ids[i], db.configs[ids[i]]);
    }
    assert Distinct(ids);
  }

  lemma KeptItemsValid(db: Db, u: Db, id: int, kept: seq<Item>)
    requires kept == Without(db.items, id) && ValidItems(db) && db.nextItem <= u.nextItem && u.configs == db.configs
    requires forall q :: q in db.purchases ==> q in u.purchases && u.purchases[q].customer == db.purchases[q].customer
    ensures forall i :: 0 <= i < |kept| ==> ValidItem(u, kept[i]) && kept[i].id < db.nextItem
    ensures forall i, j :: 0 <= i < j < |kept| ==> kept[i].id < kept[j].id
  {
    WithoutOrdered(db.items, id);
    forall i | 0 <= i < |kept| ensures ValidItem(u, kept[i]) && kept[i].id < db.nextItem {
      WithoutMember(db.items, id, kept[i]);
      var k :| 0 <= k < |db.items| && db.items[k] == kept[i];
      assert ValidItem(db, db.items[k]);
    }
  }

  lemma AddedItemsValid(db: Db, u: Db, id: int, p: Purchase, ids: seq<int>)
    requires ValidConfigs(db) && ResolveEach(db, p.customer, ids).Ok? && u.configs == db.configs
    requires u.nextItem == db.nextItem + |ids| && id in u.purchases && u.purchases[id].customer == p.customer
    ensures var added := ItemsFor(db.nextItem, id, ResolveEach(db, p.customer, ids).value);
      |added| == |ids| && forall i :: 0 <= i < |added| ==> ValidItem(u, added[i])
  {
    var r := ResolveEach(db, p.customer, ids).value;
    var added := ItemsFor(db.nextItem, id, r);
    ResolvedSelections(db, p.customer, ids);
    forall i | 0 <= i < |added| ensures ValidItem(u, added[i]) {
      assert Selection(db, p.customer, ids[i]) == Some(r[i]);
      assert ValidConfig(db, ids[i], db.configs[ids[i]]);
    }
  }

  lemma ReplacedValidItems(db: Db, id: int, p: Purchase, ids: seq<int>)
    requires Valid(db) && (id in db.purchases ==> db.purchases[id].customer == p.customer)
    requires ReplaceItems(db, id, p, ids).Ok?
    ensures ValidItems(ReplaceItems(db, id, p, ids).value)
  {
    hide ValidItem;
    hide ValidPurchases;
    hide ValidConfigs;
    hide ResolveEach;
    var r := Resolve(db, p.customer, ids).value;
    var u := ReplaceItems(db, id, p, ids).value;
    ResolvedSelections(db, p.customer, ids);
    var kept, added := Without(db.items, id), ItemsFor(db.nextItem, id, r);
    KeptItemsValid(db, u, id, kept);
    AddedItemsValid(db, u, id, p, ids);
    assert u.items == kept + added;
    forall i | 0 <= i < |u.items| ensures ValidItem(u, u.items[i]) {
      if i < |kept| {
        assert ValidItem(u, kept[i]);
      } else {
        assert ValidItem(u, added[i - |kept|]);
      }
    }
    forall i, j | 0 <= i < j < |u.items| ensures u.items[i].id < u.items[j].id {
      if j < |kept| {
        assert kept[i].id < kept[j].id;
      } else {
        assert added[j - |kept|].id == db.nextItem + (j - |kept|);
        if i < |kept| {
          assert kept[i].id < db.nextItem;
        } else {
          assert added[i - |kept|].id == db.nextItem + (i - |kept|);
        }
      }
    }
  }

  /** Replacing the items leaves every purchase consistent and touches no other purchase. */
  lemma ReplaceKeepsValid(db: Db, id: int, p: Purchase, ids: seq<int>)
    requires Valid(db) && id < db.nextPurchase && p.customer in db.customers
    requires id in db.purchases ==> db.purchases[id].customer == p.customer
    requires ReplaceItems(db, id, p, ids).Ok?
    ensures var u := ReplaceItems(db, id, p, ids).value;
      && Valid(u)
      && (forall q :: q != id ==> Own(u.items, q) == Own(db.items, q))
      && (forall q :: q in db.purchases && q != id ==> q in u.purchases && u.purchases[q] == db.purchases[q])
  {
    hide Own;
    hide Consistent;
    hide WithTotals;
    var r := Resolve(db, p.customer, ids).value;
    var u := ReplaceItems(db, id, p, ids).value;
    ReplacedValidItems(db, id, p, ids);
    NewItemsConsistent(db, id, p, ids);
    SameCustomer(p, r);
    forall q ensures Own(u.items, q) == if q == id then ItemsFor(db.nextItem, id, r) else Own(db.items, q) {
      ReplacedItems(db, id, r, q);
    }
    SameConfigs(db, u);
  }

  lemma SameCustomer(p: Purchase, r: seq<Joined>)
    ensures WithTotals(p, r).customer == p.customer
  {
  }

  lemma SameConfigs(db: Db, u: Db)
    requires ValidConfigs(db) && ValidCatalog(db)
    requires u.configs == db.configs && u.customers == db.customers && u.services == db.services
      && u.nextConfig == db.nextConfig
    requires u.projects == db.projects && u.groups == db.groups
    ensures ValidConfigs(u) && ValidCatalog(u)
  {
    forall k | k in u.configs ensures ValidConfig(u, k, u.configs[k]) {
      assert ValidConfig(db, k, db.configs[k]);
    }
  }

  // ---- Purchase operations ----

  /** A new purchase holds exactly the configs asked for, at today's prices. */
  lemma CreateCorrect(db: Db, user: User, customer: int, notes: Option<string>, ids: seq<int>)
    requires Valid(db) && CreatePurchase(db, user, customer, notes, ids).Ok?
    ensures var u := CreatePurchase(db, user, customer, notes, ids).value; var id := db.nextPurchase;
      && Valid(u) && id !in db.purchases && id in u.purchases
      && u.purchases[id].customer == customer && u.purchases[id].active && u.purchases[id].selectedCount == |ids|
      && Resolve(db, customer, ids).Ok?
      && u.purchases[id].saleTotal == SaleOf(Resolve(db, customer, ids).value)
      && u.purchases[id].supportTotal == SupportOf(Resolve(db, customer, ids).value)
      && |Own(u.items, id)| == |ids| && (forall i :: 0 <= i < |ids| ==> Own(u.items, id)[i].config == ids[i])
      && (forall q :: q in db.purchases ==>
           q in u.purchases && u.purchases[q] == db.purchases[q] && Own(u.items, q) == Own(db.items, q))
  {
    hide Own;
    hide Consistent;
    var d := db.(nextPurchase := db.nextPurchase + 1);
    var p := Purchase(customer, user.id.value, notes, 0, 0, 0, 0, true);
    BumpValid(db);
    SameSelections(db, d, customer, ids);
    ReplaceKeepsValid(d, db.nextPurchase, p, ids);
    var r := Resolve(d, customer, ids).value;
    ReplacedItems(d, db.nextPurchase, r, db.nextPurchase);
    ResolvedSelections(d, customer, ids);
    forall i | 0 <= i < |ids| ensures r[i].config.id == ids[i] {
      assert ValidConfig(db, ids[i], db.configs[ids[i]]);
    }
  }

  lemma BumpValid(db: Db)
    requires Valid(db)
    ensures Valid(db.(nextPurchase := db.nextPurchase + 1)) && db.nextPurchase !in db.purchases
  {
    hide Consistent;
    var d := db.(nextPurchase := db.nextPurchase + 1);
    SameConfigs(db, d);
    forall i | 0 <= i < |d.items| ensures ValidItem(d, d.items[i]) {
      assert ValidItem(db, db.items[i]);
    }
  }

  lemma {:induction false} SameSelections(db: Db, d: Db, customer: int, ids: seq<int>)
    requires d == db.(nextPurchase := d.nextPurchase)
    ensures ResolveEach(d, customer, ids) == ResolveEach(db, customer, ids)
  {
    if ids != [] {
      SameSelections(db, d, customer, ids[..|ids| - 1]);
    }
  }

  /** A change that replaces no items keeps every total. */
  lemma EditKeepsValid(db: Db, id: int, p: Purchase)
    requires Valid(db) && id in db.purchases
    requires p == db.purchases[id].(notes := p.notes, active := p.active)
    ensures Valid(db.(purchases := db.purchases[id := p]))
  {
    hide Own;
    var u := db.(purchases := db.purchases[id := p]);
    SameConfigs(db, u);
    forall i | 0 <= i < |u.items| ensures ValidItem(u, u.items[i]) {
      assert ValidItem(db, db.items[i]);
    }
  }

  lemma UpdateKeepsValid(db: Db, user: User, id: int, notes: Option<Option<string>>, ids: Option<seq<int>>)
    requires Valid(db) && UpdatePurchase(db, user, id, notes, ids).Ok?
    ensures Valid(UpdatePurchase(db, user, id, notes, ids).value)
  {
    hide Own;
    hide Consistent;
    hide ReplaceItems;
    var p := if notes.Some? then db.purchases[id].(notes := notes.value) else db.purchases[id];
    if ids.Some? {
      ReplaceKeepsValid(db, id, p, ids.value);
    } else {
      EditKeepsValid(db, id, p);
    }
  }

  lemma DeactivateKeepsValid(db: Db, user: User, id: int)
    requires Valid(db) && DeactivatePurchase(db, user, id).Ok?
    ensures Valid(DeactivatePurchase(db, user, id).value)
  {
    EditKeepsValid(db, id, db.purchases[id].(active := false));
  }
}
