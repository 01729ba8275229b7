/** When a purchase is created, changed or deactivated, and what is stored then. */
module PurchaseOutcome {
  import opened Prelude
  import opened PricingTree
  import opened Purchases
  import opened PurchaseTheory

  // ---- What can be bought ----

  /** The config is the customer's and enabled, and its service, group and project are active. */
  predicate Buyable(db: Db, customer: int, id: int) {
    && OfCustomer(db, customer, id) && db.configs[id].enabled
    && var s := db.services[db.configs[id].service];
    s.active && db.groups[s.group].active && db.projects[s.project].active
  }

  /** The config is the customer's, in a service with a group and a project. */
  predicate OfCustomer(db: Db, customer: int, id: int) {
    && id in db.configs && db.configs[id].customer == customer && db.configs[id].service in db.services
    && var s := db.services[db.configs[id].service];
    s.group in db.groups && s.project in db.projects
  }

  /** An item as it is stored for a config: its names and prices of the moment. */
  predicate SnapshotOf(db: Db, item: Item, id: int)
    requires id in db.configs && db.configs[id].service in db.services
    requires db.services[db.configs[id].service].group in db.groups
    requires db.services[db.configs[id].service].project in db.projects
  {
    var c := db.configs[id];
    var s := db.services[c.service];
    && item.config == c.id && item.salePrice == c.salePrice && item.supportPrice == c.supportPrice
    && item.service == s.id && item.serviceName == s.name
    && item.group == db.groups[s.group].id && item.groupName == db.groups[s.group].name
    && item.project == db.projects[s.project].id && item.projectName == db.projects[s.project].name
  }

  /** The items of a purchase are those asked for, in that order, at the prices of the moment. */
  ghost predicate Holds(db: Db, customer: int, own: seq<Item>, ids: seq<int>) {
    && |own| == |ids|
    && forall i :: 0 <= i < |ids| ==> Buyable(db, customer, ids[i]) && SnapshotOf(db, own[i], ids[i])
  }

  /** All prices together, a missing sale price counting as zero. */
  function PriceSum(db: Db, ids: seq<int>): int
    requires forall i :: 0 <= i < |ids| ==> ids[i] in db.configs
  {
    if ids == [] then 0 else
      var c := db.configs[ids[|ids| - 1]];
      PriceSum(db, ids[..|ids| - 1]) + c.supportPrice + match c.salePrice case None => 0 case Some(p) => p
  }

  /** The selection can be bought: different configs, all buyable, and a total that fits the column. */
  ghost predicate CanBuy(db: Db, customer: int, ids: seq<int>) {
    && Distinct(ids) && (forall i :: 0 <= i < |ids| ==> Buyable(db, customer, ids[i]))
    && PriceSum(db, ids) <= 0x7FFF_FFFF_FFFF_FFFF
  }

  lemma BuyableIff(db: Db, customer: int, id: int)
    ensures Selection(db, customer, id).Some? <==> OfCustomer(db, customer, id)
    ensures Selection(db, customer, id).Some? ==>
      (Purchasable(Selection(db, customer, id).value) <==> Buyable(db, customer, id))
    ensures Buyable(db, customer, id) ==> OfCustomer(db, customer, id)
  {
  }

  lemma ResolvedIff(db: Db, customer: int, ids: seq<int>)
    ensures Resolve(db, customer, ids).Ok? <==>
      Distinct(ids) && forall i :: 0 <= i < |ids| ==> Buyable(db, customer, ids[i])
  {
    hide Selection;
    hide Purchasable;
    hide ResolveEach;
    hide Buyable;
    hide OfCustomer;
    hide Distinct;
    ResolveSucceeds(db, customer, ids);
    forall i | 0 <= i < |ids|
      ensures Selection(db, customer, ids[i]).Some? && Purchasable(Selection(db, customer, ids[i]).value) <==>
        Buyable(db, customer, ids[i])
    {
      BuyableIff(db, customer, ids[i]);
    }
  }

  lemma {:induction false} ResolvedSum(db: Db, customer: int, ids: seq<int>)
    requires ValidConfigs(db) && ResolveEach(db, customer, ids).Ok?
    ensures var r := ResolveEach(db, customer, ids).value;
      && (forall i :: 0 <= i < |ids| ==> ids[i] in db.configs)
      && SaleOf(r) + SupportOf(r) == PriceSum(db, ids) && 0 <= SaleOf(r) && 0 <= SupportOf(r)
  {
    if ids != [] {
      var n := |ids| - 1;
      ResolvedSum(db, customer, ids[..n]);
      ResolvedSelections(db, customer, ids);
      forall i | 0 <= i < |ids| ensures ids[i] in db.configs {
        assert Selection(db, customer, ids[i]).Some?;
      }
      assert ValidConfig(db, ids[n], db.configs[ids[n]]);
    }
  }

  // ---- Items ----

  /** The items written for a selection are snapshots of its configs. */
  lemma ItemsHold(db: Db, customer: int, ids: seq<int>, first: int, id: int)
    requires Resolve(db, customer, ids).Ok?
    ensures Holds(db, customer, ItemsFor(first, id, Resolve(db, customer, ids).value), ids)
  {
    ResolvedIff(db, customer, ids);
    var r := Resolve(db, customer, ids).value;
    ResolvedSelections(db, customer, ids);
    forall i | 0 <= i < |ids|
      ensures Buyable(db, customer, ids[i]) && SnapshotOf(db, ItemsFor(first, id, r)[i], ids[i])
    {
      assert Selection(db, customer, ids[i]) == Some(r[i]);
    }
  }

  /** The totals fit their columns exactly when all prices together do. */
  lemma TotalsFitIff(db: Db, p: Purchase, ids: seq<int>)
    requires ValidConfigs(db) && Resolve(db, p.customer, ids).Ok?
    ensures forall i :: 0 <= i < |ids| ==> ids[i] in db.configs
    ensures TotalsFit(WithTotals(p, Resolve(db, p.customer, ids).value)) <==>
      PriceSum(db, ids) <= 0x7FFF_FFFF_FFFF_FFFF
  {
    ResolvedSum(db, p.customer, ids);
  }

  /** The rows after the items of a purchase are replaced. */
  ghost predicate Replaced(db: Db, after: Db, id: int, p: Purchase, ids: seq<int>) {
    && id in after.purchases
    && after == db.(
         purchases := db.purchases[id := after.purchases[id]], items := after.items, nextItem := after.nextItem)
    && SameButTotals(p, after.purchases[id])
    && Holds(db, p.customer, Own(after.items, id), ids) && Consistent(after.purchases[id], Own(after.items, id))
    && forall q :: q != id ==> Own(after.items, q) == Own(db.items, q)
  }

  predicate SameButTotals(p: Purchase, q: Purchase) {
    p.customer == q.customer && p.createdBy == q.createdBy && p.notes == q.notes && p.active == q.active
  }

  lemma ReplaceOutcome(db: Db, id: int, p: Purchase, ids: seq<int>)
    requires ValidConfigs(db)
    ensures ReplaceItems(db, id, p, ids).Ok? <==> CanBuy(db, p.customer, ids)
    ensures ReplaceItems(db, id, p, ids).Ok? ==> Replaced(db, ReplaceItems(db, id, p, ids).value, id, p, ids)
  {
    hide Resolve;
    hide TotalsFit;
    hide Buyable;
    hide Own;
    hide Without;
    hide Holds;
    hide Consistent;
    hide ItemsFor;
    hide PriceSum;
    ResolvedIff(db, p.customer, ids);
    if Resolve(db, p.customer, ids).Ok? {
      var r := Resolve(db, p.customer, ids).value;
      TotalsFitIff(db, p, ids);
      ItemsHold(db, p.customer, ids, db.nextItem, id);
      NewItemsConsistent(db, id, p, ids);
      forall q ensures Own(Without(db.items, id) + ItemsFor(db.nextItem, id, r), q)
        == if q == id then ItemsFor(db.nextItem, id, r) else Own(db.items, q) {
        ReplacedItems(db, id, r, q);
      }
    }
  }

  // ---- Purchases ----

  /** An administrator reaches every customer's purchases, a customer's user those of that customer only. */
  predicate Reaches(user: User, customer: int) {
    user.role == Admin || (user.role == Customer && user.customer == Some(customer))
  }

  predicate CustomerActive(db: Db, customer: int) {
    customer in db.customers && db.customers[customer]
  }

  lemma {:induction false} SamePrices(db: Db, d: Db, ids: seq<int>)
    requires d.configs == db.configs && forall i :: 0 <= i < |ids| ==> ids[i] in db.configs
    ensures PriceSum(d, ids) == PriceSum(db, ids)
  {
    if ids != [] {
      SamePrices(db, d, ids[..|ids| - 1]);
    }
  }

  lemma SameCatalog(db: Db, d: Db, customer: int, ids: seq<int>)
    requires d == db.(nextPurchase := d.nextPurchase)
    ensures CanBuy(d, customer, ids) <==> CanBuy(db, customer, ids)
    ensures forall own :: Holds(d, customer, own, ids) <==> Holds(db, customer, own, ids)
  {
    forall id ensures Buyable(d, customer, id) == Buyable(db, customer, id) {
    }
    if (forall i :: 0 <= i < |ids| ==> ids[i] in db.configs) {
      SamePrices(db, d, ids);
    }
  }

  /**
   A purchase is created exactly for a non-empty selection that can be bought, by a local user who reaches the active
   customer; it holds the selection, and its totals are those of its items.
   */
  lemma CreateIff(db: Db, user: User, customer: int, notes: Option<string>, ids: seq<int>)
    requires Valid(db)
    ensures CreatePurchase(db, user, customer, notes, ids).Ok? <==>
      && ids != [] && user.id.Some? && CustomerActive(db, customer) && Reaches(user, customer)
      && CanBuy(db, customer, ids)
    ensures CreatePurchase(db, user, customer, notes, ids).Ok? ==>
      var u := CreatePurchase(db, user, customer, notes, ids).value; var id := db.nextPurchase;
      && id !in db.purchases && id in u.purchases && u.nextPurchase == id + 1
      && u.purchases == db.purchases[id := u.purchases[id]]
      && u.purchases[id].customer == customer && Some(u.purchases[id].createdBy) == user.id
      && u.purchases[id].notes == notes && u.purchases[id].active
      && Holds(db, customer, Own(u.items, id), ids) && Consistent(u.purchases[id], Own(u.items, id))
      && forall q :: q != id ==> Own(u.items, q) == Own(db.items, q)
  {
    hide ReplaceItems;
    hide CanBuy;
    hide Holds;
    hide Consistent;
    hide Own;
    var d := db.(nextPurchase := db.nextPurchase + 1);
    BumpValid(db);
    SameCatalog(db, d, customer, ids);
    if user.id.Some? {
      var p := Purchase(customer, user.id.value, notes, 0, 0, 0, 0, true);
      ReplaceOutcome(d, db.nextPurchase, p, ids);
    }
  }

  /** The purchase can be changed by the user. */
  predicate Changeable(db: Db, user: User, id: int) {
    && id in db.purchases && db.purchases[id].active
    && CustomerActive(db, db.purchases[id].customer) && Reaches(user, db.purchases[id].customer)
  }

  /** What an update leaves: other purchases as they were, this one's notes as given, and new items as asked for. */
  ghost predicate Updated(db: Db, after: Db, id: int, notes: Option<Option<string>>, ids: Option<seq<int>>)
    requires id in db.purchases
  {
    && id in after.purchases
    && after == db.(
         purchases := db.purchases[id := after.purchases[id]], items := after.items, nextItem := after.nextItem)
    && var p, q := db.purchases[id], after.purchases[id];
    && q.customer == p.customer && q.createdBy == p.createdBy && q.active == p.active
    && q.notes == (match notes case None => p.notes case Some(text) => text)
    && Consistent(q, Own(after.items, id))
    && (forall other :: other != id ==> Own(after.items, other) == Own(db.items, other))
    && match ids
       case None => Own(after.items, id) == Own(db.items, id)
       case Some(asked) => Holds(db, p.customer, Own(after.items, id), asked)
  }

  /**
   An update goes through exactly for an active purchase of an active customer the user reaches, and, where it gives
   items, for a non-empty selection that can be bought.
   */
  lemma UpdateIff(db: Db, user: User, id: int, notes: Option<Option<string>>, ids: Option<seq<int>>)
    requires Valid(db)
    ensures UpdatePurchase(db, user, id, notes, ids).Ok? <==>
      && Changeable(db, user, id)
      && (ids.Some? ==> ids.value != [] && CanBuy(db, db.purchases[id].customer, ids.value))
    ensures UpdatePurchase(db, user, id, notes, ids).Ok? ==>
      Updated(db, UpdatePurchase(db, user, id, notes, ids).value, id, notes, ids)
  {
    hide ReplaceItems;
    hide CanBuy;
    hide Holds;
    hide Consistent;
    hide Own;
    hide ValidItems;
    hide ValidConfigs;
    hide ValidCatalog;
    if Changeable(db, user, id) {
      var p := if notes.Some? then db.purchases[id].(notes := notes.value) else db.purchases[id];
      if ids.Some? {
        ReplaceOutcome(db, id, p, ids.value);
      } else {
        NotesConsistent(db.purchases[id], p, Own(db.items, id));
      }
    }
  }

  lemma NotesConsistent(p: Purchase, q: Purchase, own: seq<Item>)
    requires Consistent(p, own) && q == p.(notes := q.notes, active := q.active)
    ensures Consistent(q, own)
  {
  }

  /** Why a change is refused. */
  lemma RefusalOf(db: Db, user: User, id: int)
    requires !Changeable(db, user, id)
    ensures var error := if id !in db.purchases || !db.purchases[id].active then PurchaseNotFound
        else if !CustomerActive(db, db.purchases[id].customer) then CustomerNotFound else AccessDenied;
      && DeactivatePurchase(db, user, id) == Err(error)
      && forall notes, ids: Option<seq<int>> :: ids != Some([]) ==>
           UpdatePurchase(db, user, id, notes, ids) == Err(error)
  {
  }

  /** Deactivation goes through exactly where a change does, and clears the active flag only. */
  lemma DeactivateIff(db: Db, user: User, id: int)
    ensures DeactivatePurchase(db, user, id).Ok? <==> Changeable(db, user, id)
    ensures DeactivatePurchase(db, user, id).Ok? ==>
      DeactivatePurchase(db, user, id).value ==
        db.(purchases := db.purchases[id := db.purchases[id].(active := false)])
  {
  }

  /** A customer's user creates, changes and deactivates purchases of that customer only. */
  lemma OwnPurchasesOnly(db: Db, user: User, id: int, notes: Option<Option<string>>, ids: Option<seq<int>>)
    requires Valid(db) && user.role == Customer
    ensures forall customer, text, asked ::
      CreatePurchase(db, user, customer, text, asked).Ok? ==> user.customer == Some(customer)
    ensures UpdatePurchase(db, user, id, notes, ids).Ok? || DeactivatePurchase(db, user, id).Ok? ==>
      id in db.purchases && user.customer == Some(db.purchases[id].customer)
  {
    hide CreatePurchase;
    hide UpdatePurchase;
    hide DeactivatePurchase;
    hide CanBuy;
    hide Valid;
    UpdateIff(db, user, id, notes, ids);
    DeactivateIff(db, user, id);
    forall customer, text, asked | CreatePurchase(db, user, customer, text, asked).Ok?
      ensures user.customer == Some(customer)
    {
      CreateIff(db, user, customer, text, asked);
    }
  }

  // ---- Why a selection is refused ----

  /** The first config that cannot be bought decides; if all can, a repeated one or the total does. */
  ghost predicate SelectionRefusal(db: Db, customer: int, ids: seq<int>, error: Error) {
    if !Distinct(ids) then error == DuplicateSelection
    else if error == OutOfRange then forall i :: 0 <= i < |ids| ==> Buyable(db, customer, ids[i])
    else exists i ::
      FirstNotBuyable(db, customer, ids, i)
      && error == if OfCustomer(db, customer, ids[i]) then NotPurchasable else SelectionInvalid
  }

  predicate FirstNotBuyable(db: Db, customer: int, ids: seq<int>, i: int) {
    0 <= i < |ids| && !Buyable(db, customer, ids[i]) && forall j :: 0 <= j < i ==> Buyable(db, customer, ids[j])
  }

  lemma {:induction false} ResolveRefusal(db: Db, customer: int, ids: seq<int>) returns (i: int)
    requires ResolveEach(db, customer, ids).Err?
    ensures FirstNotBuyable(db, customer, ids, i)
    ensures ResolveEach(db, customer, ids).error ==
      if OfCustomer(db, customer, ids[i]) then NotPurchasable else SelectionInvalid
  {
    hide Selection;
    hide Purchasable;
    hide Buyable;
    hide OfCustomer;
    var n := |ids| - 1;
    BuyableIff(db, customer, ids[n]);
    if ResolveEach(db, customer, ids[..n]).Err? {
      i := ResolveRefusal(db, customer, ids[..n]);
      assert forall j :: 0 <= j <= i ==> ids[..n][j] == ids[j];
    } else {
      i := n;
      ResolveSucceeds(db, customer, ids[..n]);
      forall j | 0 <= j < n ensures Buyable(db, customer, ids[j]) {
        assert ids[..n][j] == ids[j];
        BuyableIff(db, customer, ids[j]);
      }
    }
  }

  lemma ReplaceRefusal(db: Db, id: int, p: Purchase, ids: seq<int>)
    requires ReplaceItems(db, id, p, ids).Err?
    ensures SelectionRefusal(db, p.customer, ids, ReplaceItems(db, id, p, ids).error)
  {
    hide Buyable;
    hide OfCustomer;
    hide TotalsFit;
    hide Distinct;
    ResolvedIff(db, p.customer, ids);
    if Distinct(ids) && ResolveEach(db, p.customer, ids).Err? {
      var i := ResolveRefusal(db, p.customer, ids);
    }
  }

  lemma SameRefusal(db: Db, d: Db, customer: int, ids: seq<int>, error: Error)
    requires d == db.(nextPurchase := d.nextPurchase) && SelectionRefusal(d, customer, ids, error)
    ensures SelectionRefusal(db, customer, ids, error)
  {
    forall i
      ensures FirstNotBuyable(d, customer, ids, i) ==> FirstNotBuyable(db, customer, ids, i)
      ensures 0 <= i < |ids| ==>
        (Buyable(d, customer, ids[i]) <==> Buyable(db, customer, ids[i]))
        && (OfCustomer(d, customer, ids[i]) <==> OfCustomer(db, customer, ids[i]))
    {
    }
  }

  /** A new purchase is refused for the first check that fails, the selection last. */
  lemma CreateRefusal(db: Db, user: User, customer: int, notes: Option<string>, ids: seq<int>)
    requires CreatePurchase(db, user, customer, notes, ids).Err?
    ensures var error := CreatePurchase(db, user, customer, notes, ids).error;
      if ids == [] then error == EmptyItems
      else if user.id.None? then error == LocalUserRequired
      else if !CustomerActive(db, customer) then error == CustomerNotFound
      else if !Reaches(user, customer) then error == AccessDenied
      else SelectionRefusal(db, customer, ids, error)
  {
    hide ReplaceItems;
    hide SelectionRefusal;
    var d := db.(nextPurchase := db.nextPurchase + 1);
    if ids != [] && user.id.Some? && CustomerActive(db, customer) && Reaches(user, customer) {
      ReplaceRefusal(d, db.nextPurchase, Purchase(customer, user.id.value, notes, 0, 0, 0, 0, true), ids);
      SameRefusal(db, d, customer, ids, CreatePurchase(db, user, customer, notes, ids).error);
    }
  }

  /** New items of a purchase that can be changed are refused in the same way. */
  lemma UpdateRefusal(db: Db, user: User, id: int, notes: Option<Option<string>>, ids: seq<int>)
    requires Changeable(db, user, id) && UpdatePurchase(db, user, id, notes, Some(ids)).Err?
    ensures var error := UpdatePurchase(db, user, id, notes, Some(ids)).error;
      if ids == [] then error == EmptyItems else SelectionRefusal(db, db.purchases[id].customer, ids, error)
  {
    hide ReplaceItems;
    hide SelectionRefusal;
    if ids != [] {
      var p := db.purchases[id];
      ReplaceRefusal(db, id, if notes.Some? then p.(notes := notes.value) else p, ids);
    }
  }
}
