/** What each node of the pricing tree holds, and in which order nodes and rows come. */
module PricingOrder {
  import opened Prelude
  import opened PricingTree
  import opened PricingSummary
  import opened PricingTheory

  /** The positions in the listing at which the part's rows stand, one after the other. */
  ghost predicate StandsAt(rows: seq<Joined>, part: seq<Joined>, at: seq<int>) {
    && |at| == |part|
    && (forall i :: 0 <= i < |part| ==> 0 <= at[i] < |rows| && rows[at[i]] == part[i])
    && forall i, j :: 0 <= i < j < |part| ==> at[i] < at[j]
  }

  ghost predicate InListingOrder(rows: seq<Joined>, part: seq<Joined>) {
    exists at :: StandsAt(rows, part, at)
  }

  lemma {:induction false} HavingInOrder<K(!new)>(rows: seq<Joined>, key: Joined -> K, k: K) returns (at: seq<int>)
    ensures StandsAt(rows, Having(rows, key, k), at)
  {
    if rows == [] {
      at := [];
    } else {
      var n := |rows| - 1;
      at := HavingInOrder(rows[..n], key, k);
      if key(rows[n]) == k {
        at := at + [n];
      }
    }
  }

  lemma {:induction false} FirstSeenInOrder<K>(keys: seq<K>, i: nat, j: nat)
    requires i < j < |FirstSeen(keys)|
    ensures var f := FirstSeen(keys); f[i] in keys && f[j] in keys && IndexOf(keys, f[i]) < IndexOf(keys, f[j])
  {
    var n := |keys| - 1;
    var front, last := keys[..n], keys[n];
    var f := FirstSeen(front);
    assert keys == front + [last];
    SeenBefore(front);
    if j < |f| {
      FirstSeenInOrder(front, i, j);
      IndexStays(front, last, f[i]);
      IndexStays(front, last, f[j]);
    } else {
      IndexStays(front, last, f[i]);
      assert keys[IndexOf(keys, last)] == last;
    }
  }

  lemma {:induction false} SeenBefore<K>(keys: seq<K>)
    ensures forall i :: 0 <= i < |FirstSeen(keys)| ==> FirstSeen(keys)[i] in keys
    ensures forall i :: 0 <= i < |keys| ==> keys[i] in FirstSeen(keys)
  {
    if keys != [] {
      SeenBefore(keys[..|keys| - 1]);
    }
  }

  lemma {:induction false} IndexStays<K>(front: seq<K>, last: K, k: K)
    requires k in front
    ensures k in front + [last] && IndexOf(front + [last], k) == IndexOf(front, k)
  {
    assert (front + [last])[0] == front[0];
    if front[0] != k {
      assert (front + [last])[1..] == front[1..] + [last];
      IndexStays(front[1..], last, k);
    }
  }

  /** The node of a group: its rows in listing order, its totals theirs, its group that of its first row. */
  lemma GroupNodeHolds(rows: seq<Joined>, j: nat)
    requires j < |GroupNodesOf(rows)|
    ensures var g := GroupNodesOf(rows)[j];
      && g.rows != [] && g.group == g.rows[0].group && g.totals == TotalsOf(g.rows) && InListingOrder(rows, g.rows)
  {
    KeyHasRows(rows, GroupKey, j);
    var at := HavingInOrder(rows, GroupKey, GroupKeys(rows)[j]);
  }

  lemma OrderWithin(rows: seq<Joined>, part: seq<Joined>, own: seq<Joined>)
    requires InListingOrder(rows, part) && InListingOrder(part, own)
    ensures InListingOrder(rows, own)
  {
    var at :| StandsAt(rows, part, at);
    var within :| StandsAt(part, own, within);
    var all := seq(|own|, i requires 0 <= i < |own| => at[within[i]]);
    assert StandsAt(rows, own, all);
  }

  /**
   Every node of the tree: a group's rows are in listing order and its totals are theirs; a project's totals are those
   of its rows; each carries the project or group of one of its rows.
   */
  lemma TreeNodesHold(rows: seq<Joined>, i: nat, j: nat)
    requires i < |TreeOf(rows)| && j < |TreeOf(rows)[i].groups|
    ensures var p, g := TreeOf(rows)[i], TreeOf(rows)[i].groups[j];
      && g.rows != [] && g.group == g.rows[0].group && g.totals == TotalsOf(g.rows) && InListingOrder(rows, g.rows)
      && p.totals == TotalsOf(RowsOfProject(p)) && exists r :: r in rows && r.project == p.project
  {
    hide TotalsOf;
    hide GroupNodesOf;
    hide FirstSeen;
    KeyHasRows(rows, ProjectKey, i);
    var k := ProjectKeys(rows)[i];
    var own := Having(rows, ProjectKey, k);
    assert TreeOf(rows)[i] == ProjectNodeOf(rows, k);
    GroupNodeHolds(own, j);
    var at := HavingInOrder(rows, ProjectKey, k);
    OrderWithin(rows, own, GroupNodesOf(own)[j].rows);
    HavingMember(rows, ProjectKey, k, own[0]);
    GroupsShareRows(own);
    TotalsPermute(RowsOfProject(TreeOf(rows)[i]), own);
  }

  /** Projects come in the order in which the listing first names them. */
  lemma ProjectsInListingOrder(rows: seq<Joined>, i: nat, j: nat)
    requires i < j < |TreeOf(rows)|
    ensures var keys, p, q := Map(ProjectKey, rows), TreeOf(rows)[i].project.id, TreeOf(rows)[j].project.id;
      p in keys && q in keys && IndexOf(keys, p) < IndexOf(keys, q)
  {
    NodeNamesKey(rows, ProjectKey, i);
    NodeNamesKey(rows, ProjectKey, j);
    FirstSeenInOrder(Map(ProjectKey, rows), i, j);
  }

  /** Groups of a project come in the order in which its rows first name them. */
  lemma GroupsInListingOrder(rows: seq<Joined>, i: nat, j: nat)
    requires i < j < |GroupNodesOf(rows)|
    ensures var keys, g, h := Map(GroupKey, rows), GroupNodesOf(rows)[i].group.id, GroupNodesOf(rows)[j].group.id;
      g in keys && h in keys && IndexOf(keys, g) < IndexOf(keys, h)
  {
    NodeNamesKey(rows, GroupKey, i);
    NodeNamesKey(rows, GroupKey, j);
    FirstSeenInOrder(Map(GroupKey, rows), i, j);
  }

  /** Entries of the summary come in the order in which the listing first names their pairs. */
  lemma SummaryInListingOrder(rows: seq<Joined>, i: nat, j: nat)
    requires i < j < |SummaryOf(rows)|
    ensures var keys, e, f := Map(PairKey, rows), SummaryOf(rows)[i], SummaryOf(rows)[j];
      && (e.project.id, e.group.id) in keys && (f.project.id, f.group.id) in keys
      && IndexOf(keys, (e.project.id, e.group.id)) < IndexOf(keys, (f.project.id, f.group.id))
  {
    NodeNamesKey(rows, PairKey, i);
    NodeNamesKey(rows, PairKey, j);
    FirstSeenInOrder(Map(PairKey, rows), i, j);
  }

  /** An entry carries the project and group of its rows and their totals. */
  lemma EntryHolds(rows: seq<Joined>, i: nat)
    requires i < |SummaryOf(rows)|
    ensures var e := SummaryOf(rows)[i]; var t := TotalsOf(e.rows);
      && e.rows != [] && e.project == e.rows[0].project && e.group == e.rows[0].group
      && e.sale == t.sale && e.support == t.support && e.grand == t.grand && InListingOrder(rows, e.rows)
  {
    KeyHasRows(rows, PairKey, i);
    var at := HavingInOrder(rows, PairKey, PairKeys(rows)[i]);
  }
}
