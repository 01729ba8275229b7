/** Price edits, disabling, deletion and catalog changes never disturb a stored purchase. */
module PurchaseRuns {
  import opened Prelude
  import opened PricingTree
  import opened Purchases
  import opened PurchaseTheory

  // ---- Configuration changes ----

  /** A change of configs alone that keeps each config's key keeps purchases and items valid. */
  ghost predicate ConfigsExtend(db: Db, u: Db) {
    && u == db.(configs := u.configs, nextConfig := u.nextConfig)
    && forall k :: k in db.configs ==> k in u.configs && SameConfigKey(db.configs[k], u.configs[k])
  }

  lemma ExtendedConfigsKeepPurchases(db: Db, u: Db)
    requires Valid(db) && ConfigsExtend(db, u) && ValidConfigs(u)
    ensures Valid(u)
  {
    hide Own;
    hide Consistent;
    forall i | 0 <= i < |u.items| ensures ValidItem(u, u.items[i]) {
      assert ValidItem(db, db.items[i]);
    }
  }

  lemma UpdateConfigKeepsValid(db: Db, id: int, enabled: Option<Option<bool>>, sale: Option<Option<int>>,
      support: Option<Option<int>>)
    requires Valid(db) && UpdateConfig(db, id, enabled, sale, support).Ok?
    ensures Valid(UpdateConfig(db, id, enabled, sale, support).value)
  {
    var u := UpdateConfig(db, id, enabled, sale, support).value;
    forall k | k in u.configs ensures ValidConfig(u, k, u.configs[k]) {
      assert ValidConfig(db, k, db.configs[k]);
    }
    ExtendedConfigsKeepPurchases(db, u);
  }

  /** Deletion is refused exactly while some item still refers to the config. */
  lemma DeleteConfigKeepsValid(db: Db, id: int)
    requires Valid(db) && id in db.configs
    ensures DeleteConfig(db, id) == Err(ConfigInUse) <==> exists i :: 0 <= i < |db.items| && db.items[i].config == id
    ensures DeleteConfig(db, id).Ok? ==> Valid(DeleteConfig(db, id).value)
  {
    hide Own;
    hide Consistent;
    assert ValidConfig(db, id, db.configs[id]);
    assert JoinOf(db, db.configs[id]).Some?;
    if DeleteConfig(db, id).Ok? {
      var u := DeleteConfig(db, id).value;
      forall k | k in u.configs ensures ValidConfig(u, k, u.configs[k]) {
        assert ValidConfig(db, k, db.configs[k]);
      }
      forall i | 0 <= i < |u.items| ensures ValidItem(u, u.items[i]) {
        assert ValidItem(db, db.items[i]);
      }
    }
  }

  predicate InputFits(i: ConfigInput) {
    !Negative(i.salePrice) && !TooLarge(i.salePrice) && 0 <= i.supportPrice <= MaxBigInt
  }

  /** While upserting: a config of the customer is one from the start or one for a service already worked through. */
  ghost predicate Upserting(db: Db, u: Db, customer: int, done: seq<ConfigInput>) {
    && ConfigsExtend(db, u) && ValidConfigs(u)
    && forall k :: k in u.configs && u.configs[k].customer == customer && k !in db.configs ==>
         u.configs[k].service in ServicesOf(done)
  }

  lemma ServicesFront(items: seq<ConfigInput>)
    requires items != [] && Distinct(ServicesOf(items))
    ensures var n := |items| - 1;
      && ServicesOf(items) == ServicesOf(items[..n]) + [items[n].service]
      && Distinct(ServicesOf(items[..n])) && items[n].service !in ServicesOf(items[..n])
  {
    var n := |items| - 1;
    assert ServicesOf(items) == ServicesOf(items[..n]) + [items[n].service];
    assert ServicesOf(items)[..n] == ServicesOf(items[..n]);
  }

  lemma {:induction false} UpsertEachValid(db: Db, customer: int, items: seq<ConfigInput>)
    requires Valid(db) && customer in db.customers && Distinct(ServicesOf(items))
    requires forall i :: 0 <= i < |items| ==> InputFits(items[i])
    requires UpsertEach(db, ExistingConfigs(db.configs, customer), customer, items).Ok?
    ensures Upserting(db, UpsertEach(db, ExistingConfigs(db.configs, customer), customer, items).value, customer, items)
  {
    hide Valid;
    hide Upserting;
    hide UpsertConfig;
    hide InputFits;
    ValidParts(db);
    NothingUpserted(db, customer);
    var existing := ExistingConfigs(db.configs, customer);
    if items != [] {
      var n := |items| - 1;
      var front, item := items[..n], items[n];
      ServicesFront(items);
      hide ServicesOf;
      hide Distinct;
      UpsertEachValid(db, customer, front);
      UpsertOneValid(db, UpsertEach(db, existing, customer, front).value, customer, front, item);
      assert front + [item] == items;
    }
  }

  lemma NothingUpserted(db: Db, customer: int)
    requires Valid(db)
    ensures Upserting(db, db, customer, [])
  {
    hide ValidItems;
    hide ValidPurchases;
  }

  lemma UpsertOneValid(db: Db, u: Db, customer: int, done: seq<ConfigInput>, item: ConfigInput)
    requires Valid(db) && customer in db.customers && Upserting(db, u, customer, done)
    requires InputFits(item) && item.service !in ServicesOf(done)
    requires UpsertConfig(u, ExistingConfigs(db.configs, customer), customer, item).Ok?
    ensures var next := UpsertConfig(u, ExistingConfigs(db.configs, customer), customer, item).value;
      Upserting(db, next, customer, done + [item])
  {
    hide Valid;
    hide Upserting;
    hide ServicesOf;
    ValidParts(db);
    var existing := ExistingConfigs(db.configs, customer);
    if item.service in existing {
      UpsertExisting(db, u, customer, done, item, existing[item.service]);
    } else {
      UpsertNew(db, u, customer, done, item);
    }
  }

  lemma UpsertExisting(db: Db, u: Db, customer: int, done: seq<ConfigInput>, item: ConfigInput, k: int)
    requires Upserting(db, u, customer, done) && InputFits(item) && k in db.configs
    ensures k in u.configs
    ensures var c :=
      u.configs[k].(enabled := item.enabled, salePrice := item.salePrice, supportPrice := item.supportPrice);
      Upserting(db, u.(configs := u.configs[k := c]), customer, done + [item])
  {
    var c := u.configs[k].(enabled := item.enabled, salePrice := item.salePrice, supportPrice := item.supportPrice);
    var w := u.(configs := u.configs[k := c]);
    assert ServicesOf(done + [item]) == ServicesOf(done) + [item.service];
    forall j | j in w.configs ensures ValidConfig(w, j, w.configs[j]) {
      assert ValidConfig(u, j, u.configs[j]);
    }
  }

  lemma UpsertNew(db: Db, u: Db, customer: int, done: seq<ConfigInput>, item: ConfigInput)
    requires Valid(db) && customer in db.customers && Upserting(db, u, customer, done)
    requires InputFits(item) && item.service !in ServicesOf(done) && item.service in u.services
    requires item.service !in ExistingConfigs(db.configs, customer)
    ensures var c := Config(u.nextConfig, customer, item.service, item.enabled, item.salePrice, item.supportPrice);
      Upserting(db, u.(configs := u.configs[u.nextConfig := c], nextConfig := u.nextConfig + 1), customer, done
        + [item])
  {
    hide ValidItems;
    hide ValidPurchases;
    hide ServicesOf;
    hide ExistingConfigs;
    hide UniqueConfigs;
    var c := Config(u.nextConfig, customer, item.service, item.enabled, item.salePrice, item.supportPrice);
    var w := u.(configs := u.configs[u.nextConfig := c], nextConfig := u.nextConfig + 1);
    ServicesPush(done, item);
    forall j | j in u.configs
      ensures j < u.nextConfig && ValidConfig(w, j, u.configs[j]) && !SameConfigKey(u.configs[j], c)
    {
      assert ValidConfig(u, j, u.configs[j]);
      if j in db.configs {
        assert SameConfigKey(db.configs[j], u.configs[j]);
        ExistingHas(db.configs, customer, j);
      }
    }
    UniqueAdd(u.configs, u.nextConfig, c);
  }

  lemma ExistingHas(configs: map<int, Config>, customer: int, j: int)
    requires UniqueConfigs(configs) && j in configs
    ensures configs[j].customer == customer ==> configs[j].service in ExistingConfigs(configs, customer)
  {
  }

  lemma UniqueAdd(configs: map<int, Config>, k: int, c: Config)
    requires UniqueConfigs(configs) && k !in configs && forall j :: j in configs ==> !SameConfigKey(configs[j], c)
    ensures UniqueConfigs(configs[k := c])
  {
  }

  lemma ServicesPush(done: seq<ConfigInput>, item: ConfigInput)
    ensures forall s :: s in ServicesOf(done + [item]) <==> s in ServicesOf(done) || s == item.service
  {
    assert ServicesOf(done + [item]) == ServicesOf(done) + [item.service];
  }

  lemma BulkUpsertKeepsValid(db: Db, customer: int, items: seq<ConfigInput>)
    requires Valid(db) && BulkUpsert(db, customer, items).Ok?
    ensures Valid(BulkUpsert(db, customer, items).value)
  {
    UpsertEachValid(db, customer, items);
    ExtendedConfigsKeepPurchases(db, BulkUpsert(db, customer, items).value);
  }

  // ---- Every run ----

  datatype Event =
    | Create(user: User, customer: int, notes: Option<string>, ids: seq<int>)
    | Update(user: User, purchase: int, newNotes: Option<Option<string>>, newIds: Option<seq<int>>)
    | Deactivate(user: User, purchase: int)
    | Upsert(customer: int, items: seq<ConfigInput>)
    | Edit(config: int, enabled: Option<Option<bool>>, sale: Option<Option<int>>, support: Option<Option<int>>)
    | Delete(config: int)
    | SetService(service: Service)
    | SetGroup(group: Group)
    | SetProject(project: Project)
    | SetCustomer(customer: int, active: bool)

  function OrSame(db: Db, r: Result<Db, Error>): Db {
    if r.Ok? then r.value else db
  }

  /** An operation that fails leaves the database as it was. */
  function Perform(db: Db, e: Event): Db
    requires UniqueConfigs(db.configs)
  {
    match e
    case Create(user, customer, notes, ids) => OrSame(db, CreatePurchase(db, user, customer, notes, ids))
    case Update(user, id, notes, ids) => OrSame(db, UpdatePurchase(db, user, id, notes, ids))
    case Deactivate(user, id) => OrSame(db, DeactivatePurchase(db, user, id))
    case Upsert(customer, items) => OrSame(db, BulkUpsert(db, customer, items))
    case Edit(id, enabled, sale, support) => OrSame(db, UpdateConfig(db, id, enabled, sale, support))
    case Delete(id) => OrSame(db, DeleteConfig(db, id))
    case SetService(s) => OrSame(db, PutService(db, s))
    case SetGroup(g) => db.(groups := db.groups[g.id := g])
    case SetProject(p) => db.(projects := db.projects[p.id := p])
    case SetCustomer(c, active) => db.(customers := db.customers[c := active])
  }

  lemma CatalogKeepsValid(db: Db, u: Db)
    requires Valid(db) && ValidCatalog(u)
    requires u == db.(customers := u.customers, projects := u.projects, groups := u.groups, services := u.services)
    requires (forall c :: c in db.customers ==> c in u.customers) && (forall s :: s in db.services ==> s in u.services)
    ensures Valid(u)
  {
    hide Own;
    hide Consistent;
    forall k | k in u.configs ensures ValidConfig(u, k, u.configs[k]) {
      assert ValidConfig(db, k, db.configs[k]);
    }
    forall i | 0 <= i < |u.items| ensures ValidItem(u, u.items[i]) {
      assert ValidItem(db, db.items[i]);
    }
  }

  lemma PerformKeepsValid(db: Db, e: Event)
    requires Valid(db)
    ensures Valid(Perform(db, e))
  {
    hide Valid;
    hide CreatePurchase;
    hide UpdatePurchase;
    hide DeactivatePurchase;
    hide BulkUpsert;
    hide UpdateConfig;
    ValidParts(db);
    match e {
      case Create(user, customer, notes, ids) =>
        if CreatePurchase(db, user, customer, notes, ids).Ok? {
          CreateCorrect(db, user, customer, notes, ids);
        }
      case Update(user, id, notes, ids) =>
        if UpdatePurchase(db, user, id, notes, ids).Ok? {
          UpdateKeepsValid(db, user, id, notes, ids);
        }
      case Deactivate(user, id) =>
        if DeactivatePurchase(db, user, id).Ok? {
          DeactivateKeepsValid(db, user, id);
        }
      case Upsert(customer, items) =>
        if BulkUpsert(db, customer, items).Ok? {
          BulkUpsertKeepsValid(db, customer, items);
        }
      case Edit(id, enabled, sale, support) =>
        if UpdateConfig(db, id, enabled, sale, support).Ok? {
          UpdateConfigKeepsValid(db, id, enabled, sale, support);
        }
      case Delete(id) =>
        if id in db.configs {
          DeleteConfigKeepsValid(db, id);
        }
      case SetService(s) => CatalogKeepsValid(db, Perform(db, e));
      case SetGroup(g) => CatalogKeepsValid(db, Perform(db, e));
      case SetProject(p) => CatalogKeepsValid(db, Perform(db, e));
      case SetCustomer(c, active) => CatalogKeepsValid(db, Perform(db, e));
    }
  }

  lemma ValidParts(db: Db)
    requires Valid(db)
    ensures UniqueConfigs(db.configs) && ValidCatalog(db)
  {
  }

  const Empty := Db(map[], map[], map[], map[], map[], map[], [], 1, 1, 1)

  function Run(events: seq<Event>): (db: Db)
    ensures Valid(db)
  {
    if events == [] then Empty else
      var before := Run(events[..|events| - 1]);
      ValidParts(before);
      PerformKeepsValid(before, events[|events| - 1]);
      Perform(before, events[|events| - 1])
  }

  /**
   In every reachable state the stored count and totals of a purchase are those of its stored items, its configs are
   distinct, exist and are its own customer's, whatever happened to prices, configs and the catalog since.
   */
  lemma EveryRunKeepsPurchases(events: seq<Event>, id: int)
    requires id in Run(events).purchases
    ensures var db := Run(events); var own := Own(db.items, id);
      && Consistent(db.purchases[id], own)
      && forall i :: 0 <= i < |own| ==>
           own[i].config in db.configs && db.configs[own[i].config].customer == db.purchases[id].customer
  {
    hide Perform;
    hide Consistent;
    var db := Run(events);
    var own := Own(db.items, id);
    forall i | 0 <= i < |own| ensures ValidItem(db, own[i]) && own[i].purchase == id {
      OwnMember(db.items, id, own[i]);
      var k :| 0 <= k < |db.items| && db.items[k] == own[i];
    }
  }
}
