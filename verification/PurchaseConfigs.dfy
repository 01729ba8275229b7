/** What a change of service configs writes, and when it is refused. */
module PurchaseConfigs {
  import opened Prelude
  import opened PricingTree
  import opened Purchases
  import opened PurchaseTheory
  import opened PurchaseRuns

  predicate PriceFits(price: int) {
    0 <= price <= 0x7FFF_FFFF_FFFF_FFFF
  }

  // ---- One config ----

  /** What an edit leaves of a config: each attribute as given, or as it was. */
  predicate Edited(c: Config, d: Config, enabled: Option<Option<bool>>, sale: Option<Option<int>>,
      support: Option<Option<int>>)
  {
    && d.id == c.id && d.customer == c.customer && d.service == c.service
    && (match enabled case Some(Some(b)) => d.enabled == b case _ => d.enabled == c.enabled)
    && (match sale case Some(price) => d.salePrice == price case None => d.salePrice == c.salePrice)
    && (match support case Some(Some(price)) => d.supportPrice == price case _ => d.supportPrice == c.supportPrice)
  }

  /**
   An edit goes through exactly for a config that exists, without a null for a column that takes none, and with
   prices that fit; it writes that config only.
   */
  lemma UpdateConfigIff(db: Db, id: int, enabled: Option<Option<bool>>, sale: Option<Option<int>>,
      support: Option<Option<int>>)
    ensures UpdateConfig(db, id, enabled, sale, support).Ok? <==>
      && id in db.configs && enabled != Some(None) && support != Some(None)
      && (match sale case Some(Some(price)) => PriceFits(price) case _ => true)
      && (match support case Some(Some(price)) => PriceFits(price) case _ => true)
    ensures UpdateConfig(db, id, enabled, sale, support).Ok? ==>
      var after := UpdateConfig(db, id, enabled, sale, support).value;
      && id in after.configs && after == db.(configs := db.configs[id := after.configs[id]])
      && Edited(db.configs[id], after.configs[id], enabled, sale, support)
  {
  }

  /** A config is deleted exactly when it exists and no item of any purchase refers to it; nothing else goes. */
  lemma DeleteConfigIff(db: Db, id: int)
    requires Valid(db)
    ensures DeleteConfig(db, id).Ok? <==>
      id in db.configs && forall i :: 0 <= i < |db.items| ==> db.items[i].config != id
    ensures DeleteConfig(db, id).Ok? ==> DeleteConfig(db, id).value == db.(configs := db.configs - {id})
  {
    hide ValidItems;
    hide ValidPurchases;
    if id in db.configs {
      assert ValidConfig(db, id, db.configs[id]);
    }
    if DeleteConfig(db, id).Ok? {
      assert DeleteConfig(db, id).value.configs == db.configs - {id};
    }
  }

  // ---- Many configs ----

  /** The customer's config for a service holds what the input says. */
  predicate Configured(c: Config, customer: int, item: ConfigInput) {
    && c.customer == customer && c.service == item.service && c.enabled == item.enabled
    && c.salePrice == item.salePrice && c.supportPrice == item.supportPrice
  }

  predicate HasConfig(configs: map<int, Config>, customer: int, item: ConfigInput) {
    exists k :: k in configs && Configured(configs[k], customer, item)
  }

  predicate Asked(items: seq<ConfigInput>, service: int) {
    exists i :: 0 <= i < |items| && items[i].service == service
  }

  /**
   After the inputs: each is configured, in the customer's config for that service if there was one; configs of other
   customers and other services are as they were, and there are no further ones.
   */
  ghost predicate Upserted(db: Db, after: Db, customer: int, items: seq<ConfigInput>) {
    && after == db.(configs := after.configs, nextConfig := after.nextConfig)
    && (forall i :: 0 <= i < |items| ==> HasConfig(after.configs, customer, items[i]))
    && (forall k :: k in db.configs ==> k in after.configs && SameConfigKey(db.configs[k], after.configs[k]))
    && (forall k :: k in db.configs && !(db.configs[k].customer == customer && Asked(items, db.configs[k].service)) ==>
          after.configs[k] == db.configs[k])
    && (forall k :: k in after.configs && k !in db.configs ==>
          after.configs[k].customer == customer && Asked(items, after.configs[k].service))
  }

  /** The customer has a config for the service, or the service is active. */
  predicate MayConfigure(db: Db, customer: int, service: int) {
    || (exists k :: k in db.configs && db.configs[k].customer == customer && db.configs[k].service == service)
    || (service in db.services && db.services[service].active)
  }

  lemma ExistingIff(db: Db, customer: int, service: int)
    requires UniqueConfigs(db.configs)
    ensures var existing := ExistingConfigs(db.configs, customer);
      && (service in existing <==>
            exists k :: k in db.configs && db.configs[k].customer == customer && db.configs[k].service == service)
      && (service in existing ==>
            && existing[service] in db.configs && db.configs[existing[service]].customer == customer
            && db.configs[existing[service]].service == service)
  {
  }

  lemma AskedPush(items: seq<ConfigInput>, item: ConfigInput, service: int)
    ensures Asked(items + [item], service) <==> Asked(items, service) || service == item.service
  {
    var all := items + [item];
    assert all[|items|] == item;
    if i :| 0 <= i < |items| && items[i].service == service {
      assert all[i] == items[i];
    }
  }

  lemma {:induction false} UpsertEachIff(db: Db, customer: int, items: seq<ConfigInput>)
    requires UniqueConfigs(db.configs)
    ensures UpsertEach(db, ExistingConfigs(db.configs, customer), customer, items).Ok? <==>
      forall i :: 0 <= i < |items| ==> MayConfigure(db, customer, items[i].service)
    ensures var r := UpsertEach(db, ExistingConfigs(db.configs, customer), customer, items);
      r.Ok? ==> r.value == db.(configs := r.value.configs, nextConfig := r.value.nextConfig)
  {
    hide ExistingConfigs;
    hide MayConfigure;
    if items != [] {
      var n := |items| - 1;
      UpsertEachIff(db, customer, items[..n]);
      assert forall i :: 0 <= i < n ==> items[..n][i] == items[i];
      MayUpsert(db, customer, items[n]);
    }
  }

  lemma MayUpsert(db: Db, customer: int, item: ConfigInput)
    requires UniqueConfigs(db.configs)
    ensures MayConfigure(db, customer, item.service) <==>
      item.service in ExistingConfigs(db.configs, customer)
      || (item.service in db.services && db.services[item.service].active)
  {
    ExistingIff(db, customer, item.service);
  }

  lemma {:induction false} UpsertEachWrites(db: Db, customer: int, items: seq<ConfigInput>)
    requires Valid(db) && customer in db.customers && Distinct(ServicesOf(items))
    requires forall i :: 0 <= i < |items| ==> InputFits(items[i])
    requires UpsertEach(db, ExistingConfigs(db.configs, customer), customer, items).Ok?
    ensures Upserted(db, UpsertEach(db, ExistingConfigs(db.configs, customer), customer, items).value, customer, items)
  {
    hide Valid;
    hide Upserted;
    hide UpsertConfig;
    hide InputFits;
    ValidParts(db);
    var existing := ExistingConfigs(db.configs, customer);
    if items == [] {
      NothingWritten(db, customer);
    } else {
      var n := |items| - 1;
      var front, item := items[..n], items[n];
      ServicesFront(items);
      AskedIsService(front, item.service);
      hide ServicesOf;
      hide Distinct;
      UpsertEachWrites(db, customer, front);
      UpsertEachValid(db, customer, front);
      UpsertOneWrites(db, UpsertEach(db, existing, customer, front).value, customer, front, item);
      assert front + [item] == items;
    }
  }

  lemma NothingWritten(db: Db, customer: int)
    ensures Upserted(db, db, customer, [])
  {
  }

  lemma AskedIsService(items: seq<ConfigInput>, service: int)
    ensures Asked(items, service) <==> service in ServicesOf(items)
  {
    if i :| 0 <= i < |items| && items[i].service == service {
      assert ServicesOf(items)[i] == service;
    }
  }

  /** The config an input is written to: the customer's for that service, or a new one where there was none. */
  predicate Target(db: Db, u: Db, customer: int, service: int, k: int) {
    if k in db.configs then db.configs[k].customer == customer && db.configs[k].service == service
    else k !in u.configs
  }

  lemma UpsertOneWrites(db: Db, u: Db, customer: int, done: seq<ConfigInput>, item: ConfigInput)
    requires Valid(db) && Upserted(db, u, customer, done) && ValidConfigs(u) && !Asked(done, item.service)
    requires forall s :: s in ExistingConfigs(db.configs, customer) ==>
      ExistingConfigs(db.configs, customer)[s] in u.configs
    requires UpsertConfig(u, ExistingConfigs(db.configs, customer), customer, item).Ok?
    ensures var next := UpsertConfig(u, ExistingConfigs(db.configs, customer), customer, item).value;
      Upserted(db, next, customer, done + [item])
  {
    hide Valid;
    hide Upserted;
    hide Asked;
    hide ExistingConfigs;
    ValidParts(db);
    var next := UpsertConfig(u, ExistingConfigs(db.configs, customer), customer, item).value;
    ExistingIff(db, customer, item.service);
    UpsertedKeys(db, u, customer, done);
    if item.service in ExistingConfigs(db.configs, customer) {
      PutWrites(db, u, next, customer, done, item, ExistingConfigs(db.configs, customer)[item.service]);
    } else {
      NewId(u);
      PutWrites(db, u, next, customer, done, item, u.nextConfig);
    }
  }

  lemma UpsertedKeys(db: Db, u: Db, customer: int, done: seq<ConfigInput>)
    requires Upserted(db, u, customer, done)
    ensures forall k :: k in db.configs ==> k in u.configs && SameConfigKey(db.configs[k], u.configs[k])
  {
  }

  lemma NewId(u: Db)
    requires ValidConfigs(u)
    ensures u.nextConfig !in u.configs
  {
    forall k | k in u.configs ensures k < u.nextConfig {
      assert ValidConfig(u, k, u.configs[k]);
    }
  }

  lemma PutWrites(db: Db, u: Db, next: Db, customer: int, done: seq<ConfigInput>, item: ConfigInput, k: int)
    requires Upserted(db, u, customer, done) && !Asked(done, item.service)
    requires next == u.(configs := next.configs, nextConfig := next.nextConfig)
    requires k in next.configs && next.configs == u.configs[k := next.configs[k]]
    requires Configured(next.configs[k], customer, item) && Target(db, u, customer, item.service, k)
    ensures Upserted(db, next, customer, done + [item])
  {
    var all := done + [item];
    forall service ensures Asked(all, service) <==> Asked(done, service) || service == item.service {
      AskedPush(done, item, service);
    }
    forall i | 0 <= i < |all| ensures HasConfig(next.configs, customer, all[i]) {
      if i == |done| {
        assert all[i] == item;
      } else {
        EarlierConfigured(db, u, next, customer, done, item, k, i);
        assert all[i] == done[i];
      }
    }
    hide Asked;
  }

  lemma EarlierConfigured(db: Db, u: Db, next: Db, customer: int, done: seq<ConfigInput>, item: ConfigInput, k: int,
      i: nat)
    requires Upserted(db, u, customer, done) && !Asked(done, item.service) && i < |done|
    requires k in next.configs && next.configs == u.configs[k := next.configs[k]]
    requires Target(db, u, customer, item.service, k)
    ensures HasConfig(next.configs, customer, done[i])
  {
    assert HasConfig(u.configs, customer, done[i]);
    var j :| j in u.configs && Configured(u.configs[j], customer, done[i]);
    assert done[i].service != item.service;
    assert j != k && next.configs[j] == u.configs[j];
  }

  // ---- The whole request ----

  /**
   A bulk upsert goes through exactly for a known customer and a non-empty list of inputs for different services,
   with prices that fit, each for a service that is active or already configured.
   */
  lemma BulkUpsertIff(db: Db, customer: int, items: seq<ConfigInput>)
    requires Valid(db)
    ensures BulkUpsert(db, customer, items).Ok? <==>
      && items != [] && customer in db.customers
      && (forall i, j :: 0 <= i < j < |items| ==> items[i].service != items[j].service)
      && (forall i :: 0 <= i < |items| ==>
            && (items[i].salePrice.Some? ==> PriceFits(items[i].salePrice.value)) && PriceFits(items[i].supportPrice)
            && MayConfigure(db, customer, items[i].service))
    ensures BulkUpsert(db, customer, items).Ok? ==>
      Upserted(db, BulkUpsert(db, customer, items).value, customer, items)
  {
    hide UpsertEach;
    hide ExistingConfigs;
    hide MayConfigure;
    hide Upserted;
    hide ValidItems;
    hide ValidPurchases;
    hide ValidConfig;
    UpsertEachIff(db, customer, items);
    ServicesDistinct(items);
    if BulkUpsert(db, customer, items).Ok? {
      UpsertEachWrites(db, customer, items);
    }
  }

  lemma ServicesDistinct(items: seq<ConfigInput>)
    ensures Distinct(ServicesOf(items)) <==>
      forall i, j :: 0 <= i < j < |items| ==> items[i].service != items[j].service
  {
    assert forall i :: 0 <= i < |items| ==> ServicesOf(items)[i] == items[i].service;
    if Distinct(ServicesOf(items)) {
      forall i, j | 0 <= i < j < |items| ensures items[i].service != items[j].service {
        assert ServicesOf(items)[i] != ServicesOf(items)[j];
      }
    }
  }

  // ---- Why a change is refused ----

  predicate NegativePrice(price: Option<int>) {
    price.Some? && price.value < 0
  }

  /** An edit is refused for the first check that fails: a negative price, no such config, a null, a price too large. */
  lemma EditRefusal(db: Db, id: int, enabled: Option<Option<bool>>, sale: Option<Option<int>>,
      support: Option<Option<int>>)
    requires UpdateConfig(db, id, enabled, sale, support).Err?
    ensures UpdateConfig(db, id, enabled, sale, support).error ==
      if (sale.Some? && NegativePrice(sale.value)) || (support.Some? && NegativePrice(support.value)) then PriceNegative
      else if id !in db.configs then ConfigNotFound
      else if support == Some(None) then SupportPriceNull
      else if enabled == Some(None) then Conflict
      else OutOfRange
  {
  }

  predicate FirstUnconfigurable(db: Db, customer: int, items: seq<ConfigInput>, i: int) {
    && 0 <= i < |items| && !MayConfigure(db, customer, items[i].service)
    && forall j :: 0 <= j < i ==> MayConfigure(db, customer, items[j].service)
  }

  lemma ExistingKnown(db: Db, customer: int)
    requires UniqueConfigs(db.configs)
    ensures var existing := ExistingConfigs(db.configs, customer);
      forall s :: s in existing ==> existing[s] in db.configs
  {
  }

  lemma {:induction false} UpsertEachRefusal(db: Db, customer: int, items: seq<ConfigInput>) returns (i: int)
    requires UniqueConfigs(db.configs)
    requires UpsertEach(db, ExistingConfigs(db.configs, customer), customer, items).Err?
    ensures FirstUnconfigurable(db, customer, items, i)
    ensures UpsertEach(db, ExistingConfigs(db.configs, customer), customer, items).error ==
      if items[i].service in db.services then ServiceInactive else ServiceInvalid
  {
    hide ExistingConfigs;
    hide MayConfigure;
    var n := |items| - 1;
    ExistingKnown(db, customer);
    UpsertEachIff(db, customer, items[..n]);
    MayUpsert(db, customer, items[n]);
    if UpsertEach(db, ExistingConfigs(db.configs, customer), customer, items[..n]).Err? {
      i := UpsertEachRefusal(db, customer, items[..n]);
      assert forall j :: 0 <= j <= i ==> items[..n][j] == items[j];
    } else {
      i := n;
      assert forall j :: 0 <= j < n ==> items[..n][j] == items[j];
    }
  }

  /** A bulk upsert is refused for the first check that fails; the first service that cannot be configured decides. */
  lemma BulkRefusal(db: Db, customer: int, items: seq<ConfigInput>)
    requires Valid(db) && BulkUpsert(db, customer, items).Err?
    ensures var error := BulkUpsert(db, customer, items).error;
      if exists i :: 0 <= i < |items| && (NegativePrice(items[i].salePrice) || items[i].supportPrice < 0)
      then error == PriceNegative
      else if items == [] then error == EmptyItems
      else if customer !in db.customers then error == CustomerNotFound
      else if exists i, j :: 0 <= i < j < |items| && items[i].service == items[j].service
      then error == DuplicateService
      else if error == OutOfRange
      then forall i :: 0 <= i < |items| ==> MayConfigure(db, customer, items[i].service)
      else exists i ::
        FirstUnconfigurable(db, customer, items, i)
        && error == if items[i].service in db.services then ServiceInactive else ServiceInvalid
  {
    hide UpsertEach;
    hide ExistingConfigs;
    hide MayConfigure;
    hide ValidItems;
    hide ValidPurchases;
    hide ValidConfig;
    ExistingKnown(db, customer);
    ServicesDistinct(items);
    UpsertEachIff(db, customer, items);
    if UpsertEach(db, ExistingConfigs(db.configs, customer), customer, items).Err? {
      var i := UpsertEachRefusal(db, customer, items);
    }
  }
}
