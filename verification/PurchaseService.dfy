/** The purchase operations as they run: rows assigned in place, totals and items in loops, one commit or none. */
module PurchaseService {
  import opened Prelude
  import opened PricingTree
  import opened Purchases

  class CatalogDatabase {
    var customers: map<int, bool>
    var projects: map<int, Project>
    var groups: map<int, Group>
    var services: map<int, Service>
    var configs: map<int, Config>
    var purchases: map<int, Purchase>
    var items: seq<Item>
    var nextConfig: int
    var nextPurchase: int
    var nextItem: int

    constructor (db: Db)
      ensures Contents() == db
    {
      customers, projects, groups, services := db.customers, db.projects, db.groups, db.services;
      configs, purchases, items := db.configs, db.purchases, db.items;
      nextConfig, nextPurchase, nextItem := db.nextConfig, db.nextPurchase, db.nextItem;
    }

    function Contents(): Db
      reads this
    {
      Db(customers, projects, groups, services, configs, purchases, items, nextConfig, nextPurchase, nextItem)
    }

    /** resolve_items, after the check for duplicates. */
    method ResolveItems(customer: int, ids: seq<int>) returns (result: Result<seq<Joined>, Error>)
      ensures result == Resolve(Contents(), customer, ids)
    {
      if !Distinct(ids) {
        return Err(DuplicateSelection);
      }
      var selections: seq<Joined> := [];
      for i := 0 to |ids|
        invariant ResolveEach(Contents(), customer, ids[..i]) == Ok(selections)
      {
        assert ids[..i + 1][..i] == ids[..i];
        ResolveStops(Contents(), customer, ids, i + 1);
        var selection := Selection(Contents(), customer, ids[i]);
        if selection.None? {
          return Err(SelectionInvalid);
        }
        if !Purchasable(selection.value) {
          return Err(NotPurchasable);
        }
        selections := selections + [selection.value];
      }
      assert ids[..|ids|] == ids;
      result := Ok(selections);
    }

    method CalculateTotals(selections: seq<Joined>) returns (sale: int, support: int)
      ensures sale == SaleOf(selections) && support == SupportOf(selections)
    {
      sale, support := 0, 0;
      for i := 0 to |selections|
        invariant sale == SaleOf(selections[..i]) && support == SupportOf(selections[..i])
      {
        assert selections[..i + 1][..i] == selections[..i];
        var config := selections[i].config;
        sale := sale + if config.salePrice.None? then 0 else config.salePrice.value;
        support := support + config.supportPrice;
      }
      assert selections[..|selections|] == selections;
    }

    /** delete(...).where(purchase = id). */
    method DeleteItems(id: int)
      modifies this`items
      ensures items == Without(old(items), id)
    {
      var kept: seq<Item> := [];
      for i := 0 to |items|
        invariant items == old(items) && kept == Without(items[..i], id)
      {
        assert items[..i + 1][..i] == items[..i];
        if items[i].purchase != id {
          kept := kept + [items[i]];
        }
      }
      assert items[..|items|] == items;
      items := kept;
    }

    method AddItems(id: int, selections: seq<Joined>)
      modifies this`items, this`nextItem
      ensures items == old(items) + ItemsFor(old(nextItem), id, selections)
      ensures nextItem == old(nextItem) + |selections|
    {
      for i := 0 to |selections|
        invariant nextItem == old(nextItem) + i
        invariant items == old(items) + ItemsFor(old(nextItem), id, selections[..i])
      {
        ItemsPush(old(nextItem), id, selections, i);
        items := items + [ItemFor(nextItem, id, selections[i])];
        nextItem := nextItem + 1;
      }
      assert selections[..|selections|] == selections;
    }

    /** _replace_purchase_items, then the commit: an error leaves the rows as they were. */
    method ReplacePurchaseItems(id: int, p: Purchase, ids: seq<int>) returns (result: Result<(), Error>)
      modifies this`purchases, this`items, this`nextItem
      ensures var spec := ReplaceItems(old(Contents()), id, p, ids);
        if spec.Err? then result == Err(spec.error) && Contents() == old(Contents())
        else result == Ok(()) && Contents() == spec.value
    {
      hide Resolve;
      hide Without;
      hide SaleOf;
      hide SupportOf;
      hide TotalsFit;
      var resolved := ResolveItems(p.customer, ids);
      if resolved.Err? {
        return Err(resolved.error);
      }
      var selections := resolved.value;
      var sale, support := CalculateTotals(selections);
      var row := p.(selectedCount := |selections|, saleTotal := sale, supportTotal := support, grandTotal :=
        sale + support);
      if !TotalsFit(row) {
        return Err(OutOfRange);
      }
      purchases := purchases[id := row];
      DeleteItems(id);
      AddItems(id, selections);
      result := Ok(());
    }

    method Create(user: User, customer: int, notes: Option<string>, ids: seq<int>) returns (result: Result<int, Error>)
      modifies this
      ensures var spec := CreatePurchase(old(Contents()), user, customer, notes, ids);
        if spec.Err? then result == Err(spec.error) && Contents().(nextPurchase := old(nextPurchase)) == old(Contents())
        else result == Ok(old(nextPurchase)) && Contents() == spec.value
    {
      if ids == [] {
        return Err(EmptyItems);
      }
      if user.id.None? {
        return Err(LocalUserRequired);
      }
      if !ActiveCustomer(Contents(), customer) {
        return Err(CustomerNotFound);
      }
      if !MayAccess(user, customer) {
        return Err(AccessDenied);
      }
      var id := nextPurchase;
      nextPurchase := nextPurchase + 1;
      var p := Purchase(customer, user.id.value, notes, 0, 0, 0, 0, true);
      var replaced := ReplacePurchaseItems(id, p, ids);
      if replaced.Err? {
        return Err(replaced.error);
      }
      result := Ok(id);
    }

    method Update(user: User, id: int, notes: Option<Option<string>>, ids: Option<seq<int>>)
      returns (result: Result<(), Error>)
      modifies this
      ensures var spec := UpdatePurchase(old(Contents()), user, id, notes, ids);
        if spec.Err? then result == Err(spec.error) && Contents() == old(Contents())
        else result == Ok(()) && Contents() == spec.value
    {
      hide ReplaceItems;
      if ids == Some([]) {
        return Err(EmptyItems);
      }
      var found := CheckPurchase(Contents(), user, id);
      if found.Err? {
        return Err(found.error);
      }
      var p := found.value;
      if notes.Some? {
        p := p.(notes := notes.value);
      }
      if ids.Some? {
        result := ReplacePurchaseItems(id, p, ids.value);
      } else {
        purchases := purchases[id := p];
        result := Ok(());
      }
    }

    method Deactivate(user: User, id: int) returns (result: Result<(), Error>)
      modifies this`purchases
      ensures var spec := DeactivatePurchase(old(Contents()), user, id);
        if spec.Err? then result == Err(spec.error) && Contents() == old(Contents())
        else result == Ok(()) && Contents() == spec.value
    {
      var found := CheckPurchase(Contents(), user, id);
      if found.Err? {
        return Err(found.error);
      }
      purchases := purchases[id := found.value.(active := false)];
      result := Ok(());
    }

    /** The loop of a bulk request: each config is assigned in place or added, until one fails. */
    method AssignConfigs(existing: map<int, int>, customer: int, inputs: seq<ConfigInput>)
      returns (failure: Option<Error>)
      requires forall s :: s in existing ==> existing[s] in configs
      modifies this`configs, this`nextConfig
      ensures var r := UpsertEach(old(Contents()), existing, customer, inputs);
        if failure.None? then r == Ok(Contents()) else r == Err(failure.value)
    {
      hide UpsertConfig;
      ghost var start := Contents();
      NothingAssigned(start, existing, customer, inputs);
      hide UpsertEach;
      for i := 0 to |inputs|
        invariant Contents() == start.(configs := configs, nextConfig := nextConfig)
        invariant UpsertEach(start, existing, customer, inputs[..i]) == Ok(Contents())
      {
        UpsertNext(start, Contents(), existing, customer, inputs, i);
        var step := UpsertConfig(Contents(), existing, customer, inputs[i]);
        if step.Err? {
          return Some(step.error);
        }
        configs, nextConfig := step.value.configs, step.value.nextConfig;
      }
      assert inputs[..|inputs|] == inputs;
      failure := None;
    }

    /** bulk_upsert: rows are assigned or added one by one and committed together. */
    method UpsertConfigs(customer: int, inputs: seq<ConfigInput>) returns (result: Result<(), Error>)
      requires UniqueConfigs(configs)
      modifies this`configs, this`nextConfig
      ensures var spec := BulkUpsert(old(Contents()), customer, inputs);
        if spec.Err? then result == Err(spec.error) && Contents() == old(Contents())
        else result == Ok(()) && Contents() == spec.value
    {
      hide UpsertConfig;
      hide ServicesOf;
      hide Negative;
      hide TooLarge;
      hide UniqueConfigs;
      if exists i :: 0 <= i < |inputs| && (Negative(inputs[i].salePrice) || inputs[i].supportPrice < 0) {
        return Err(PriceNegative);
      }
      if inputs == [] {
        return Err(EmptyItems);
      }
      if customer !in customers {
        return Err(CustomerNotFound);
      }
      if !Distinct(ServicesOf(inputs)) {
        return Err(DuplicateService);
      }
      var saved, savedNext := configs, nextConfig;
      var failure := AssignConfigs(ExistingConfigs(configs, customer), customer, inputs);
      if failure.Some? {
        configs, nextConfig := saved, savedNext;
        return Err(failure.value);
      }
      if exists i :: 0 <= i < |inputs| && (TooLarge(inputs[i].salePrice) || inputs[i].supportPrice > MaxBigInt) {
        configs, nextConfig := saved, savedNext;
        return Err(OutOfRange);
      }
      result := Ok(());
    }

    method DeleteSingle(id: int) returns (result: Result<(), Error>)
      modifies this`configs
      ensures var spec := DeleteConfig(old(Contents()), id);
        if spec.Err? then result == Err(spec.error) && Contents() == old(Contents())
        else result == Ok(()) && Contents() == spec.value
    {
      if id !in configs || JoinOf(Contents(), configs[id]).None? {
        return Err(ConfigNotFound);
      }
      for i := 0 to |items|
        invariant forall k :: 0 <= k < i ==> items[k].config != id
      {
        if items[i].config == id {
          return Err(ConfigInUse);
        }
      }
      configs := map k | k in configs && k != id :: configs[k];
      result := Ok(());
    }
  }

  /** An error in a prefix of the list is the error of the list. */
  lemma {:induction false} ResolveStops(db: Db, customer: int, ids: seq<int>, n: nat)
    requires n <= |ids|
    ensures ResolveEach(db, customer, ids[..n]).Err? ==>
      ResolveEach(db, customer, ids) == ResolveEach(db, customer, ids[..n])
    decreases |ids|
  {
    if n < |ids| {
      var front := ids[..|ids| - 1];
      ResolveStops(db, customer, front, n);
      assert front[..n] == ids[..n];
    } else {
      assert ids[..n] == ids;
    }
  }

  lemma {:induction false} UpsertStops(db: Db, existing: map<int, int>, customer: int, items: seq<ConfigInput>, n: nat)
    requires n <= |items| && forall s :: s in existing ==> existing[s] in db.configs
    ensures UpsertEach(db, existing, customer, items[..n]).Err? ==>
      UpsertEach(db, existing, customer, items) == UpsertEach(db, existing, customer, items[..n])
    decreases |items|
  {
    if n < |items| {
      var front := items[..|items| - 1];
      UpsertStops(db, existing, customer, front, n);
      assert front[..n] == items[..n];
    } else {
      assert items[..n] == items;
    }
  }

  lemma NothingAssigned(db: Db, existing: map<int, int>, customer: int, items: seq<ConfigInput>)
    requires forall s :: s in existing ==> existing[s] in db.configs
    ensures UpsertEach(db, existing, customer, items[..0]) == Ok(db)
  {
  }

  /** One more config of a bulk request; a failure is the failure of the whole. */
  lemma UpsertNext(db: Db, now: Db, existing: map<int, int>, customer: int, items: seq<ConfigInput>, i: nat)
    requires i < |items| && forall s :: s in existing ==> existing[s] in db.configs
    requires UpsertEach(db, existing, customer, items[..i]) == Ok(now)
    ensures forall s :: s in existing ==> existing[s] in now.configs
    ensures var step := UpsertConfig(now, existing, customer, items[i]);
      && UpsertEach(db, existing, customer, items[..i + 1]) == step
      && (step.Err? ==> UpsertEach(db, existing, customer, items) == step)
      && (step.Ok? ==> step.value == now.(configs := step.value.configs, nextConfig := step.value.nextConfig))
  {
    hide UpsertConfig;
    assert items[..i + 1][..i] == items[..i];
    UpsertStops(db, existing, customer, items, i + 1);
    UpsertTouches(now, existing, customer, items[i]);
  }

  lemma UpsertTouches(db: Db, existing: map<int, int>, customer: int, item: ConfigInput)
    requires forall s :: s in existing ==> existing[s] in db.configs
    ensures var r := UpsertConfig(db, existing, customer, item);
      r.Ok? ==> r.value == db.(configs := r.value.configs, nextConfig := r.value.nextConfig)
  {
  }

  lemma ItemsPush(first: int, purchase: int, selections: seq<Joined>, i: nat)
    requires i < |selections|
    ensures ItemsFor(first, purchase, selections[..i + 1]) ==
      ItemsFor(first, purchase, selections[..i]) + [ItemFor(first + i, purchase, selections[i])]
  {
  }
}
