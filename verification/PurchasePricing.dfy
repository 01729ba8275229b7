/** The tree, the summary and a purchase of everything enabled come to the same totals. */
module PurchasePricing {
  import opened Prelude
  import opened Ordering
  import opened PricingTree
  import opened Purchases
  import opened PurchaseTheory

  predicate Listable(r: Joined) {
    r.service.active && r.group.active && r.project.active
  }

  ghost predicate DistinctRows(rows: seq<Joined>) {
    forall i, j :: 0 <= i < j < |rows| ==> rows[i].config.id != rows[j].config.id
  }

  /**
   The rows both pricing queries read: every config of the customer whose service, group and project are active,
   once, in some order.
   */
  ghost predicate IsListing(db: Db, customer: int, rows: seq<Joined>) {
    && DistinctRows(rows)
    && forall r :: r in rows <==> Selection(db, customer, r.config.id) == Some(r) && Listable(r)
  }

  /** The configs of the rows that are enabled. */
  ghost predicate EnabledConfigs(rows: seq<Joined>, ids: seq<int>) {
    Distinct(ids) && forall k :: k in ids <==> exists r :: r in rows && r.config.id == k && r.config.enabled
  }

  function EnabledRows(rows: seq<Joined>): seq<Joined> {
    if rows == [] then [] else
      var n := |rows| - 1;
      EnabledRows(rows[..n]) + if rows[n].config.enabled then [rows[n]] else []
  }

  lemma {:induction false} EnabledRowsMember(rows: seq<Joined>, r: Joined)
    ensures r in EnabledRows(rows) <==> r in rows && r.config.enabled
  {
    if rows != [] {
      var n := |rows| - 1;
      EnabledRowsMember(rows[..n], r);
      assert rows == rows[..n] + [rows[n]];
    }
  }

  lemma {:induction false} EnabledRowsDistinct(rows: seq<Joined>)
    requires DistinctRows(rows)
    ensures Distinct(EnabledRows(rows))
  {
    if rows != [] {
      var n := |rows| - 1;
      var front := rows[..n];
      forall i, j | 0 <= i < j < n ensures front[i].config.id != front[j].config.id {
        assert rows[i].config.id != rows[j].config.id;
      }
      EnabledRowsDistinct(front);
      forall i | 0 <= i < |EnabledRows(front)| ensures EnabledRows(front)[i] != rows[n] {
        EnabledRowsMember(front, EnabledRows(front)[i]);
        var k :| 0 <= k < n && front[k] == EnabledRows(front)[i];
        assert rows[k].config.id != rows[n].config.id;
      }
    }
  }

  /** Disabled rows count as configured and add no money. */
  lemma {:induction false} EnabledTotals(rows: seq<Joined>)
    ensures var t, e := TotalsOf(rows), TotalsOf(EnabledRows(rows));
      t.sale == e.sale && t.support == e.support && t.grand == e.grand && t.enabled == |EnabledRows(rows)|
  {
    if rows != [] {
      var n := |rows| - 1;
      EnabledTotals(rows[..n]);
      TotalsPush(EnabledRows(rows[..n]), rows[n]);
      assert EnabledRows(rows[..n]) + [] == EnabledRows(rows[..n]);
    }
  }

  /** The purchase's accumulator and the tree's agree on enabled rows. */
  lemma {:induction false} SelectionTotals(selections: seq<Joined>)
    requires forall i :: 0 <= i < |selections| ==> selections[i].config.enabled
    ensures TotalsOf(selections).sale == SaleOf(selections) && TotalsOf(selections).support == SupportOf(selections)
  {
    if selections != [] {
      var n := |selections| - 1;
      SelectionTotals(selections[..n]);
    }
  }

  lemma EnabledResolve(db: Db, customer: int, rows: seq<Joined>, ids: seq<int>)
    requires IsListing(db, customer, rows) && EnabledConfigs(rows, ids)
    ensures Resolve(db, customer, ids).Ok?
  {
    hide ResolveEach;
    ResolveSucceeds(db, customer, ids);
    forall i | 0 <= i < |ids|
      ensures Selection(db, customer, ids[i]).Some? && Purchasable(Selection(db, customer, ids[i]).value)
    {
      assert ids[i] in ids;
      var r :| r in rows && r.config.id == ids[i] && r.config.enabled;
    }
  }

  /** Selecting the enabled configs selects the enabled rows. */
  lemma EnabledSelections(db: Db, customer: int, rows: seq<Joined>, ids: seq<int>)
    requires ValidConfigs(db) && IsListing(db, customer, rows) && EnabledConfigs(rows, ids)
    ensures Resolve(db, customer, ids).Ok?
    ensures multiset(Resolve(db, customer, ids).value) == multiset(EnabledRows(rows))
  {
    EnabledResolve(db, customer, rows, ids);
    var r := Resolve(db, customer, ids).value;
    ResolvedSelections(db, customer, ids);
    forall i | 0 <= i < |ids| ensures r[i].config.id == ids[i] {
      assert Selection(db, customer, ids[i]) == Some(r[i]);
      assert ValidConfig(db, ids[i], db.configs[ids[i]]);
    }
    EnabledRowsDistinct(rows);
    forall x ensures x in r <==> x in EnabledRows(rows) {
      EnabledRowsMember(rows, x);
      if x in r {
        var i :| 0 <= i < |r| && r[i] == x;
        assert Selection(db, customer, ids[i]) == Some(x) && Purchasable(x);
      }
      if x in EnabledRows(rows) {
        assert x.config.id in ids;
        var i :| 0 <= i < |ids| && ids[i] == x.config.id;
        assert Selection(db, customer, ids[i]) == Some(r[i]);
      }
    }
    assert Distinct(ids);
    SameElementsPermute(r, EnabledRows(rows));
  }

  /**
   A purchase of exactly the enabled configs comes to the totals of the pricing tree, whatever order the rows
   and the selection are in.
   */
  lemma PurchaseMatchesTree(db: Db, user: User, customer: int, notes: Option<string>, rows: seq<Joined>, ids: seq<int>)
    requires Valid(db) && IsListing(db, customer, rows) && EnabledConfigs(rows, ids)
    requires CreatePurchase(db, user, customer, notes, ids).Ok?
    ensures var p := CreatePurchase(db, user, customer, notes, ids).value.purchases;
      var id := db.nextPurchase;
      var t := TotalsOf(rows);
      && id in p && p[id].saleTotal == t.sale && p[id].supportTotal == t.support && p[id].grandTotal == t.grand
      && p[id].selectedCount == t.enabled
  {
    hide CreatePurchase;
    hide Own;
    CreateCorrect(db, user, customer, notes, ids);
    EnabledSelections(db, customer, rows, ids);
    var r := Resolve(db, customer, ids).value;
    ResolvedSelections(db, customer, ids);
    SelectionTotals(r);
    TotalsPermute(r, EnabledRows(rows));
    EnabledTotals(rows);
    assert |multiset(r)| == |r| && |multiset(EnabledRows(rows))| == |EnabledRows(rows)|;
    var u := CreatePurchase(db, user, customer, notes, ids).value;
    assert Consistent(u.purchases[db.nextPurchase], Own(u.items, db.nextPurchase));
  }
}
