/** Purchases of configured services: what each operation does to the database. */
module Purchases {
  import opened Prelude
  import opened PricingTree

  datatype Purchase = Purchase(
    customer: int, createdBy: int, notes: Option<string>,
    saleTotal: int, supportTotal: int, grandTotal: int, selectedCount: int, active: bool)

  /** An item keeps the names and prices of the moment it was selected. */
  datatype Item = Item(
    id: int, purchase: int, config: int, service: int, project: int, projectName: string,
    group: int, groupName: string, serviceName: string, salePrice: Option<int>, supportPrice: int)

  /** Customers map to whether they are active; items stand in the order of their ids. */
  datatype Db = Db(
    customers: map<int, bool>, projects: map<int, Project>, groups: map<int, Group>, services: map<int, Service>,
    configs: map<int, Config>, purchases: map<int, Purchase>, items: seq<Item>,
    nextConfig: int, nextPurchase: int, nextItem: int)

  datatype Role = Admin | Customer | Other

  datatype User = User(id: Option<int>, role: Role, customer: Option<int>)

  datatype Error =
    | EmptyItems | LocalUserRequired | CustomerNotFound | AccessDenied | PurchaseNotFound
    | DuplicateSelection | SelectionInvalid | NotPurchasable | OutOfRange
    | ConfigNotFound | ConfigInUse | SupportPriceNull | DuplicateService | ServiceInvalid
    | ServiceInactive | PriceNegative | Conflict

  // ---- Selection ----

  /** The inner join of a config with its service, group and project. */
  function JoinOf(db: Db, c: Config): Option<Joined> {
    if c.service !in db.services then None else
      var s := db.services[c.service];
      if s.group in db.groups && s.project in db.projects
      then Some(Joined(c, s, db.groups[s.group], db.projects[s.project])) else None
  }

  function Selection(db: Db, customer: int, id: int): Option<Joined> {
    if id in db.configs && db.configs[id].customer == customer then JoinOf(db, db.configs[id]) else None
  }

  predicate Purchasable(r: Joined) {
    r.config.enabled && r.service.active && r.group.active && r.project.active
  }

  /** The selections in the order asked for, or the error of the first that fails. */
  function ResolveEach(db: Db, customer: int, ids: seq<int>): Result<seq<Joined>, Error> {
    if ids == [] then Ok([]) else
      var front := ResolveEach(db, customer, ids[..|ids| - 1]);
      var last := Selection(db, customer, ids[|ids| - 1]);
      if front.Err? then front
      else if last.None? then Err(SelectionInvalid)
      else if !Purchasable(last.value) then Err(NotPurchasable)
      else Ok(front.value + [last.value])
  }

  function Resolve(db: Db, customer: int, ids: seq<int>): Result<seq<Joined>, Error> {
    if !Distinct(ids) then Err(DuplicateSelection) else ResolveEach(db, customer, ids)
  }

  function PriceOrZero(p: Option<int>): int {
    if p.None? then 0 else p.value
  }

  function SaleOf(selections: seq<Joined>): int {
    if selections == [] then 0
    else SaleOf(selections[..|selections| - 1]) + PriceOrZero(selections[|selections| - 1].config.salePrice)
  }

  function SupportOf(selections: seq<Joined>): int {
    if selections == [] then 0
    else SupportOf(selections[..|selections| - 1]) + selections[|selections| - 1].config.supportPrice
  }

  // ---- Items ----

  function ItemFor(id: int, purchase: int, r: Joined): Item {
    Item(id, purchase, r.config.id, r.service.id, r.project.id, r.project.name, r.group.id, r.group.name,
      r.service.name,
         r.config.salePrice, r.config.supportPrice)
  }

  function ItemsFor(first: int, purchase: int, selections: seq<Joined>): (items: seq<Item>)
    ensures |items| == |selections|
    ensures forall i :: 0 <= i < |items| ==> items[i] == ItemFor(first + i, purchase, selections[i])
  {
    seq(|selections|, i requires 0 <= i < |selections| => ItemFor(first + i, purchase, selections[i]))
  }

  function Own(items: seq<Item>, purchase: int): seq<Item> {
    if items == [] then [] else
      var n := |items| - 1;
      Own(items[..n], purchase) + if items[n].purchase == purchase then [items[n]] else []
  }

  function Without(items: seq<Item>, purchase: int): seq<Item> {
    if items == [] then [] else
      var n := |items| - 1;
      Without(items[..n], purchase) + if items[n].purchase == purchase then [] else [items[n]]
  }

  const MaxBigInt := 0x7FFF_FFFF_FFFF_FFFF

  /** Totals must be non-negative and fit the column. */
  predicate TotalsFit(p: Purchase) {
    0 <= p.saleTotal <= MaxBigInt && 0 <= p.supportTotal <= MaxBigInt && 0 <= p.grandTotal <= MaxBigInt
      && 0 <= p.selectedCount
  }

  function WithTotals(p: Purchase, selections: seq<Joined>): Purchase {
    var sale, support := SaleOf(selections), SupportOf(selections);
    p.(selectedCount := |selections|, saleTotal := sale, supportTotal := support, grandTotal := sale + support)
  }

  /** _replace_purchase_items and the commit that follows. */
  function ReplaceItems(db: Db, id: int, p: Purchase, ids: seq<int>): Result<Db, Error> {
    var r := Resolve(db, p.customer, ids);
    if r.Err? then Err(r.error)
    else if !TotalsFit(WithTotals(p, r.value)) then Err(OutOfRange)
    else Ok(db.(
      purchases := db.purchases[id := WithTotals(p, r.value)],
      items := Without(db.items, id) + ItemsFor(db.nextItem, id, r.value),
      nextItem := db.nextItem + |r.value|))
  }

  // ---- Purchase operations ----

  predicate ActiveCustomer(db: Db, customer: int) {
    customer in db.customers && db.customers[customer]
  }

  predicate MayAccess(user: User, customer: int) {
    user.role == Admin || (user.role == Customer && user.customer == Some(customer))
  }

  function CreatePurchase(db: Db, user: User, customer: int, notes: Option<string>, ids: seq<int>): Result<Db, Error> {
    if ids == [] then Err(EmptyItems)
    else if user.id.None? then Err(LocalUserRequired)
    else if !ActiveCustomer(db, customer) then Err(CustomerNotFound)
    else if !MayAccess(user, customer) then Err(AccessDenied)
    else
      var p := Purchase(customer, user.id.value, notes, 0, 0, 0, 0, true);
      ReplaceItems(db.(nextPurchase := db.nextPurchase + 1), db.nextPurchase, p, ids)
  }

  /** The checks every change of a purchase makes. */
  function CheckPurchase(db: Db, user: User, id: int): Result<Purchase, Error> {
    if id !in db.purchases || !db.purchases[id].active then Err(PurchaseNotFound)
    else if !ActiveCustomer(db, db.purchases[id].customer) then Err(CustomerNotFound)
    else if !MayAccess(user, db.purchases[id].customer) then Err(AccessDenied)
    else Ok(db.purchases[id])
  }

  /** Fields that are not given stay as they are. */
  function UpdatePurchase(db: Db, user: User, id: int, notes: Option<Option<string>>,
      ids: Option<seq<int>>): Result<Db, Error>
  {
    if ids == Some([]) then Err(EmptyItems) else
      var found := CheckPurchase(db, user, id);
      if found.Err? then Err(found.error) else
        var p := if notes.Some? then found.value.(notes := notes.value) else found.value;
        if ids.Some? then ReplaceItems(db, id, p, ids.value)
        else Ok(db.(purchases := db.purchases[id := p]))
  }

  function DeactivatePurchase(db: Db, user: User, id: int): Result<Db, Error> {
    var found := CheckPurchase(db, user, id);
    if found.Err? then Err(found.error) else Ok(db.(purchases := db.purchases[id := found.value.(active := false)]))
  }

  // ---- Configuration operations ----

  datatype ConfigInput = ConfigInput(service: int, enabled: bool, salePrice: Option<int>, supportPrice: int)

  predicate Negative(price: Option<int>) {
    price.Some? && price.value < 0
  }

  predicate TooLarge(price: Option<int>) {
    price.Some? && price.value > MaxBigInt
  }

  /** (customer, service) is unique. */
  ghost predicate UniqueConfigs(configs: map<int, Config>) {
    forall j, k :: j in configs && k in configs && SameConfigKey(configs[j], configs[k]) ==> j == k
  }

  predicate SameConfigKey(a: Config, b: Config) {
    a.customer == b.customer && a.service == b.service
  }

  /** get_existing_config_map. */
  function ExistingConfigs(configs: map<int, Config>, customer: int): map<int, int>
    requires UniqueConfigs(configs)
  {
    map k | k in configs && configs[k].customer == customer :: configs[k].service := k
  }

  function UpsertConfig(db: Db, existing: map<int, int>, customer: int, item: ConfigInput): Result<Db, Error>
    requires forall s :: s in existing ==> existing[s] in db.configs
  {
    if item.service in existing then
      var k := existing[item.service];
      Ok(db.(configs :=
        db.configs[k :=
          db.configs[k].(enabled := item.enabled, salePrice := item.salePrice, supportPrice := item.supportPrice)]))
    else if item.service !in db.services then Err(ServiceInvalid)
    else if !db.services[item.service].active then Err(ServiceInactive)
    else
      var c := Config(db.nextConfig, customer, item.service, item.enabled, item.salePrice, item.supportPrice);
      Ok(db.(configs := db.configs[db.nextConfig := c], nextConfig := db.nextConfig + 1))
  }

  function UpsertEach(db: Db, existing: map<int, int>, customer: int, items: seq<ConfigInput>): (r: Result<Db, Error>)
    requires forall s :: s in existing ==> existing[s] in db.configs
    ensures r.Ok? ==> forall k :: k in db.configs ==> k in r.value.configs
  {
    if items == [] then Ok(db) else
      var front := UpsertEach(db, existing, customer, items[..|items| - 1]);
      if front.Err? then front else UpsertConfig(front.value, existing, customer, items[|items| - 1])
  }

  function ServicesOf(items: seq<ConfigInput>): seq<int> {
    Map((i: ConfigInput) => i.service, items)
  }

  function BulkUpsert(db: Db, customer: int, items: seq<ConfigInput>): Result<Db, Error>
    requires UniqueConfigs(db.configs)
  {
    if exists i :: 0 <= i < |items| && (Negative(items[i].salePrice) || items[i].supportPrice < 0)
      then Err(PriceNegative)
    else if items == [] then Err(EmptyItems)
    else if customer !in db.customers then Err(CustomerNotFound)
    else if !Distinct(ServicesOf(items)) then Err(DuplicateService)
    else
      var r := UpsertEach(db, ExistingConfigs(db.configs, customer), customer, items);
      if r.Err? then r
      else if exists i :: 0 <= i < |items| && (TooLarge(items[i].salePrice) || items[i].supportPrice > MaxBigInt)
        then Err(OutOfRange)
      else r
  }

  /** update_single: a field that is given as NULL is a value, except where the column forbids it. */
  function UpdateConfig(db: Db, id: int, enabled: Option<Option<bool>>, sale: Option<Option<int>>,
      support: Option<Option<int>>): Result<Db, Error>
  {
    if (sale.Some? && Negative(sale.value)) || (support.Some? && Negative(support.value)) then Err(PriceNegative)
    else if id !in db.configs then Err(ConfigNotFound)
    else if support == Some(None) then Err(SupportPriceNull)
    else if enabled == Some(None) then Err(Conflict)
    else if (sale.Some? && TooLarge(sale.value)) || (support.Some? && TooLarge(support.value)) then Err(OutOfRange)
    else
      var c := db.configs[id];
      Ok(db.(configs := db.configs[id := c.(
        enabled := if enabled.Some? then enabled.value.value else c.enabled,
        salePrice := if sale.Some? then sale.value else c.salePrice,
        supportPrice := if support.Some? then support.value.value else c.supportPrice)]))
  }

  /** delete_single: the foreign key of the items refuses a config that was ever selected and still is. */
  function DeleteConfig(db: Db, id: int): Result<Db, Error> {
    if id !in db.configs || JoinOf(db, db.configs[id]).None? then Err(ConfigNotFound)
    else if exists i :: 0 <= i < |db.items| && db.items[i].config == id then Err(ConfigInUse)
    else Ok(db.(configs := map k | k in db.configs && k != id :: db.configs[k]))
  }

  // ---- Catalog changes ----

  /** Services, groups and projects are added, renamed, moved and deactivated, never deleted. */
  function PutService(db: Db, s: Service): Result<Db, Error> {
    if s.project !in db.projects || s.group !in db.groups then Err(Conflict)
      else Ok(db.(services := db.services[s.id := s]))
  }
}
