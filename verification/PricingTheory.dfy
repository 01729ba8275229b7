/** The tree holds every row once, its totals add up, and the summary agrees with it. */
module PricingTheory {
  import opened Prelude
  import opened PricingTree
  import opened PricingSummary

  function RowsOfGroup(n: GroupNode): seq<Joined> { n.rows }

  function RowsOfProject(n: ProjectNode): seq<Joined> {
    Concat(Map(RowsOfGroup, n.groups))
  }

  function AllRows(tree: seq<ProjectNode>): seq<Joined> {
    Concat(Map(RowsOfProject, tree))
  }

  function GroupTotals(n: GroupNode): Totals { n.totals }

  function ProjectTotals(n: ProjectNode): Totals { n.totals }

  lemma KeysCover<K(!new)>(rows: seq<Joined>, key: Joined -> K)
    ensures Distinct(FirstSeen(Map(key, rows)))
    ensures forall r :: r in rows ==> key(r) in FirstSeen(Map(key, rows))
  {
    FirstSeenKeys(Map(key, rows));
    forall r | r in rows ensures key(r) in FirstSeen(Map(key, rows)) {
      var i :| 0 <= i < |rows| && rows[i] == r;
      assert Map(key, rows)[i] == key(r);
    }
  }

  /** The groups of a project share out its rows. */
  lemma GroupsShareRows(rows: seq<Joined>)
    ensures var nodes := GroupNodesOf(rows);
      && Map(RowsOfGroup, nodes) == Parts(rows, GroupKey, GroupKeys(rows))
      && multiset(Concat(Map(RowsOfGroup, nodes))) == multiset(rows)
      && SumTotals(Map(GroupTotals, nodes)) == TotalsOf(rows)
  {
    hide TotalsOf;
    hide Having;
    hide FirstSeen;
    var nodes, parts := GroupNodesOf(rows), Parts(rows, GroupKey, GroupKeys(rows));
    KeysCover(rows, GroupKey);
    forall i | 0 <= i < |nodes| ensures nodes[i].rows == parts[i] && nodes[i].totals == TotalsOf(parts[i]) {
      KeyHasRows(rows, GroupKey, i);
    }
    assert Map(RowsOfGroup, nodes) == parts;
    assert Map(GroupTotals, nodes) == Map(TotalsOf, parts);
    GroupsPartition(rows, GroupKey, GroupKeys(rows));
    TotalsOfParts(parts);
    TotalsPermute(Concat(parts), rows);
  }

  lemma {:induction false} ConcatPermute(a: seq<seq<Joined>>, b: seq<seq<Joined>>)
    requires |a| == |b| && forall i :: 0 <= i < |a| ==> multiset(a[i]) == multiset(b[i])
    ensures multiset(Concat(a)) == multiset(Concat(b))
  {
    if a != [] {
      var n := |a| - 1;
      forall i | 0 <= i < n ensures multiset(a[..n][i]) == multiset(b[..n][i]) {
        assert a[..n][i] == a[i] && b[..n][i] == b[i];
      }
      ConcatPermute(a[..n], b[..n]);
    }
  }

  /** Every row is in exactly one node of the tree, and totals add up from groups to projects to the whole. */
  lemma TreeSharesRows(rows: seq<Joined>)
    ensures var tree := TreeOf(rows);
      && multiset(AllRows(tree)) == multiset(rows)
      && (forall i :: 0 <= i < |tree| ==> SumTotals(Map(GroupTotals, tree[i].groups)) == tree[i].totals)
      && SumTotals(Map(ProjectTotals, tree)) == TotalsOf(rows)
  {
    hide TotalsOf;
    hide Having;
    hide FirstSeen;
    hide GroupNodesOf;
    var tree, parts := TreeOf(rows), Parts(rows, ProjectKey, ProjectKeys(rows));
    KeysCover(rows, ProjectKey);
    forall i | 0 <= i < |tree|
      ensures multiset(RowsOfProject(tree[i])) == multiset(parts[i])
      ensures tree[i].totals == TotalsOf(parts[i]) == SumTotals(Map(GroupTotals, tree[i].groups))
    {
      KeyHasRows(rows, ProjectKey, i);
      GroupsShareRows(parts[i]);
    }
    GroupsPartition(rows, ProjectKey, ProjectKeys(rows));
    ConcatPermute(Map(RowsOfProject, tree), parts);
    assert Map(ProjectTotals, tree) == Map(TotalsOf, parts);
    TotalsOfParts(parts);
    TotalsPermute(Concat(parts), rows);
  }

  lemma GroupNodesPlace(rows: seq<Joined>, j: nat)
    requires j < |GroupNodesOf(rows)|
    ensures var g := GroupNodesOf(rows)[j]; forall r :: r in g.rows <==> r in rows && r.group.id == g.group.id
    ensures forall k :: 0 <= k < |GroupNodesOf(rows)| && k != j ==>
      GroupNodesOf(rows)[k].group.id != GroupNodesOf(rows)[j].group.id
  {
    hide Having;
    hide TotalsOf;
    hide FirstSeen;
    var keys := GroupKeys(rows);
    KeysCover(rows, GroupKey);
    forall k | 0 <= k < |keys| ensures GroupNodesOf(rows)[k].group.id == keys[k] {
      NodeNamesKey(rows, GroupKey, k);
    }
    forall r ensures r in GroupNodesOf(rows)[j].rows <==> r in rows && r.group.id == keys[j] {
      KeyHasRows(rows, GroupKey, j);
      HavingMember(rows, GroupKey, keys[j], r);
    }
  }

  lemma ProjectNodesPlace(rows: seq<Joined>, i: nat)
    requires i < |TreeOf(rows)|
    ensures var own := Having(rows, ProjectKey, TreeOf(rows)[i].project.id); TreeOf(rows)[i].groups == GroupNodesOf(own)
    ensures forall k :: 0 <= k < |TreeOf(rows)| && k != i ==> TreeOf(rows)[k].project.id != TreeOf(rows)[i].project.id
  {
    hide Having;
    hide TotalsOf;
    hide FirstSeen;
    hide GroupNodesOf;
    var keys := ProjectKeys(rows);
    KeysCover(rows, ProjectKey);
    forall k | 0 <= k < |keys| ensures TreeOf(rows)[k].project.id == keys[k] {
      NodeNamesKey(rows, ProjectKey, k);
    }
    KeyHasRows(rows, ProjectKey, i);
  }

  /** A row stands under its own project and its own group, and no project or group has two nodes. */
  lemma TreePlacesRows(rows: seq<Joined>, i: nat, j: nat)
    requires i < |TreeOf(rows)| && j < |TreeOf(rows)[i].groups|
    ensures var p, g := TreeOf(rows)[i], TreeOf(rows)[i].groups[j];
      && (forall r :: r in g.rows <==> r in rows && r.project.id == p.project.id && r.group.id == g.group.id)
      && (forall k :: 0 <= k < |TreeOf(rows)| && k != i ==> TreeOf(rows)[k].project.id != p.project.id)
      && (forall k :: 0 <= k < |p.groups| && k != j ==> p.groups[k].group.id != g.group.id)
  {
    hide TreeOf;
    hide GroupNodesOf;
    ProjectNodesPlace(rows, i);
    var own := Having(rows, ProjectKey, TreeOf(rows)[i].project.id);
    GroupNodesPlace(own, j);
    forall r ensures r in own <==> r in rows && r.project.id == TreeOf(rows)[i].project.id {
      HavingMember(rows, ProjectKey, TreeOf(rows)[i].project.id, r);
    }
  }

  lemma NodeNamesKey<K(!new)>(rows: seq<Joined>, key: Joined -> K, i: nat)
    requires i < |FirstSeen(Map(key, rows))|
    ensures var own := Having(rows, key, FirstSeen(Map(key, rows))[i]);
      own != [] && key(own[0]) == FirstSeen(Map(key, rows))[i]
  {
    KeyHasRows(rows, key, i);
    var k := FirstSeen(Map(key, rows))[i];
    HavingMember(rows, key, k, Having(rows, key, k)[0]);
  }

  // ---- The summary ----

  function RowsOfEntry(n: SummaryGroup): seq<Joined> { n.rows }

  function EntryTotals(n: SummaryGroup): Totals {
    TotalsOf(n.rows)
  }

  /** The summary shares out the same rows, and its entries add up to the same totals. */
  lemma SummarySharesRows(rows: seq<Joined>)
    ensures var groups := SummaryOf(rows);
      && multiset(Concat(Map(RowsOfEntry, groups))) == multiset(rows)
      && SumTotals(Map(EntryTotals, groups)) == TotalsOf(rows)
      && forall i :: 0 <= i < |groups| ==>
           groups[i].sale == EntryTotals(groups[i]).sale && groups[i].support == EntryTotals(groups[i]).support
           && groups[i].grand == groups[i].sale + groups[i].support
  {
    hide TotalsOf;
    hide Having;
    hide FirstSeen;
    var groups, parts := SummaryOf(rows), Parts(rows, PairKey, PairKeys(rows));
    KeysCover(rows, PairKey);
    forall i | 0 <= i < |groups| ensures groups[i].rows == parts[i] {
      KeyHasRows(rows, PairKey, i);
    }
    assert Map(RowsOfEntry, groups) == parts;
    assert Map(EntryTotals, groups) == Map(TotalsOf, parts);
    GroupsPartition(rows, PairKey, PairKeys(rows));
    TotalsOfParts(parts);
    TotalsPermute(Concat(parts), rows);
  }

  lemma {:induction false} HavingTwice(rows: seq<Joined>, p: int, g: int)
    ensures Having(Having(rows, ProjectKey, p), GroupKey, g) == Having(rows, PairKey, (p, g))
  {
    if rows != [] {
      var n := |rows| - 1;
      HavingTwice(rows[..n], p, g);
      var own := Having(rows[..n], ProjectKey, p);
      HavingPush(own, GroupKey, g, rows[n]);
      assert own + [] == own;
    }
  }

  /** The entry of a group node: the same rows, perhaps in another order, and the same totals. */
  ghost predicate EntryIs(e: SummaryGroup, p: int, g: GroupNode) {
    && e.project.id == p && e.group.id == g.group.id && multiset(e.rows) == multiset(g.rows)
    && e.sale == g.totals.sale && e.support == g.totals.support && e.grand == g.totals.grand
  }

  /** Tree and summary read the same query in two orders: one entry for every group of the tree, with equal totals. */
  lemma SummaryMatchesTree(rows: seq<Joined>, other: seq<Joined>, i: nat, j: nat)
    requires multiset(rows) == multiset(other)
    requires i < |TreeOf(rows)| && j < |TreeOf(rows)[i].groups|
    ensures TotalsOf(rows) == TotalsOf(other)
    ensures var p, g := TreeOf(rows)[i], TreeOf(rows)[i].groups[j];
      exists e :: e in SummaryOf(other) && EntryIs(e, p.project.id, g)
  {
    TotalsPermute(rows, other);
    var keys := ProjectKeys(rows);
    var own := Having(rows, ProjectKey, keys[i]);
    KeyHasRows(rows, ProjectKey, i);
    KeyHasRows(own, GroupKey, j);
    NodeNamesKey(rows, ProjectKey, i);
    NodeNamesKey(own, GroupKey, j);
    var g := TreeOf(rows)[i].groups[j];
    var pair := (keys[i], GroupKeys(own)[j]);
    HavingTwice(rows, pair.0, pair.1);
    HavingPermute(rows, other, PairKey, pair);
    TotalsPermute(Having(rows, PairKey, pair), Having(other, PairKey, pair));
    PairHasEntry(other, pair);
    assert EntryIs(SummaryGroupOf(other, pair), keys[i], g);
  }

  /** No project and group have two entries. */
  lemma OneEntryPerPair(rows: seq<Joined>, k: nat, l: nat)
    requires k < |SummaryOf(rows)| && l < |SummaryOf(rows)|
    requires SummaryOf(rows)[k].project.id == SummaryOf(rows)[l].project.id
    requires SummaryOf(rows)[k].group.id == SummaryOf(rows)[l].group.id
    ensures k == l
  {
    hide Having;
    hide FirstSeen;
    hide TotalsOf;
    KeysCover(rows, PairKey);
    NodeNamesKey(rows, PairKey, k);
    NodeNamesKey(rows, PairKey, l);
  }

  /** Where a row stands in the tree. */
  lemma RowHasNode(rows: seq<Joined>, r: Joined) returns (i: nat, j: nat)
    requires r in rows
    ensures i < |TreeOf(rows)| && TreeOf(rows)[i].project.id == r.project.id
    ensures j < |TreeOf(rows)[i].groups| && TreeOf(rows)[i].groups[j].group.id == r.group.id
  {
    hide Having;
    hide FirstSeen;
    hide TotalsOf;
    KeysCover(rows, ProjectKey);
    i := IndexOf(ProjectKeys(rows), r.project.id);
    NodeNamesKey(rows, ProjectKey, i);
    HavingMember(rows, ProjectKey, r.project.id, r);
    var own := Having(rows, ProjectKey, r.project.id);
    KeysCover(own, GroupKey);
    j := IndexOf(GroupKeys(own), r.group.id);
    NodeNamesKey(own, GroupKey, j);
  }

  /**
   The other way round: every entry of the summary is the entry of one group of the tree, and no two are of one
   group.
   */
  lemma EveryEntryHasNode(rows: seq<Joined>, other: seq<Joined>, k: nat)
    requires multiset(rows) == multiset(other) && k < |SummaryOf(other)|
    ensures var e := SummaryOf(other)[k];
      && (exists i, j :: 0 <= i < |TreeOf(rows)| && 0 <= j < |TreeOf(rows)[i].groups|
            && EntryIs(e, TreeOf(rows)[i].project.id, TreeOf(rows)[i].groups[j]))
      && forall l :: 0 <= l < |SummaryOf(other)| && l != k ==>
           SummaryOf(other)[l].project.id != e.project.id || SummaryOf(other)[l].group.id != e.group.id
  {
    hide TreeOf;
    hide SummaryOf;
    hide EntryIs;
    forall l | 0 <= l < |SummaryOf(other)| && l != k
      ensures SummaryOf(other)[l].project.id != SummaryOf(other)[k].project.id
        || SummaryOf(other)[l].group.id != SummaryOf(other)[k].group.id
    {
      if SummaryOf(other)[l].project.id == SummaryOf(other)[k].project.id
        && SummaryOf(other)[l].group.id == SummaryOf(other)[k].group.id {
        OneEntryPerPair(other, l, k);
      }
    }
    var e := SummaryOf(other)[k];
    var r := EntryNamesRow(other, k);
    assert r in multiset(other);
    var i, j := RowHasNode(rows, r);
    SummaryMatchesTree(rows, other, i, j);
    var f :| f in SummaryOf(other) && EntryIs(f, TreeOf(rows)[i].project.id, TreeOf(rows)[i].groups[j]);
    EntryNames(f, TreeOf(rows)[i].project.id, TreeOf(rows)[i].groups[j]);
  }

  lemma EntryNames(e: SummaryGroup, p: int, g: GroupNode)
    requires EntryIs(e, p, g)
    ensures e.project.id == p && e.group.id == g.group.id
  {
  }

  /** A row of the project and group an entry is for. */
  lemma EntryNamesRow(rows: seq<Joined>, k: nat) returns (r: Joined)
    requires k < |SummaryOf(rows)|
    ensures r in rows && SummaryOf(rows)[k].project.id == r.project.id && SummaryOf(rows)[k].group.id == r.group.id
  {
    KeyHasRows(rows, PairKey, k);
    r := Having(rows, PairKey, PairKeys(rows)[k])[0];
    HavingMember(rows, PairKey, PairKeys(rows)[k], r);
  }

  lemma PairHasEntry(rows: seq<Joined>, pair: (int, int))
    requires Having(rows, PairKey, pair) != []
    ensures SummaryGroupOf(rows, pair) in SummaryOf(rows)
    ensures SummaryGroupOf(rows, pair).project.id == pair.0 && SummaryGroupOf(rows, pair).group.id == pair.1
  {
    var r := Having(rows, PairKey, pair)[0];
    HavingMember(rows, PairKey, pair, r);
    KeysCover(rows, PairKey);
    var k := IndexOf(PairKeys(rows), pair);
    NodeNamesKey(rows, PairKey, k);
    assert SummaryOf(rows)[k] == SummaryGroupOf(rows, pair);
  }

  lemma {:induction false} HavingPermute<K>(a: seq<Joined>, b: seq<Joined>, key: Joined -> K, k: K)
    requires multiset(a) == multiset(b)
    ensures multiset(Having(a, key, k)) == multiset(Having(b, key, k))
  {
    forall r ensures multiset(Having(a, key, k))[r] == multiset(Having(b, key, k))[r] {
      HavingCount(a, key, k, r);
      HavingCount(b, key, k, r);
    }
  }

  lemma {:induction false} HavingCount<K>(rows: seq<Joined>, key: Joined -> K, k: K, r: Joined)
    ensures multiset(Having(rows, key, k))[r] == if key(r) == k then multiset(rows)[r] else 0
  {
    if rows != [] {
      var n := |rows| - 1;
      HavingCount(rows[..n], key, k, r);
      assert rows == rows[..n] + [rows[n]];
    }
  }
}
