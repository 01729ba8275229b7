/** The two passes that price a customer's services, and what their totals have to do with each other. */
module PricingSummary {
  import opened Prelude
  import opened PricingTree

  function Lookup<K(==)>(bucket: map<K, nat>, key: K): Option<nat> {
    if key in bucket then Some(bucket[key]) else None
  }

  // ---- Where nodes stand ----

  /** The position of a project among those first seen. */
  function ProjectPlace(rows: seq<Joined>, p: int): Option<nat> {
    Position(ProjectKeys(rows), p)
  }

  /** The position of a group among those of its project. */
  function GroupPlace(rows: seq<Joined>, p: int, g: int): Option<nat> {
    if p in ProjectKeys(rows) then Position(GroupKeys(Having(rows, ProjectKey, p)), g) else None
  }

  lemma PositionAppend<K(!new)>(keys: seq<K>, added: K, k: K)
    requires added !in keys
    ensures Position(keys + [added], k) == if k == added then Some(|keys|) else Position(keys, k)
  {
    var all := keys + [added];
    if k in keys {
      assert all[IndexOf(keys, k)] == k;
    } else if k == added {
      assert all[|keys|] == k;
    }
  }

  lemma PositionPush<K(!new)>(rows: seq<Joined>, key: Joined -> K, r: Joined, k: K)
    ensures var keys := FirstSeen(Map(key, rows));
      Position(FirstSeen(Map(key, rows + [r])), k) ==
        if k == key(r) && k !in keys then Some(|keys|) else Position(keys, k)
  {
    var keys, all := FirstSeen(Map(key, rows)), FirstSeen(Map(key, rows + [r]));
    FirstSeenPush(rows, key, r);
    FirstSeenKeys(Map(key, rows + [r]));
    FirstSeenKeys(Map(key, rows));
    hide FirstSeen;
    hide Map;
    if key(r) !in keys {
      PositionAppend(keys, key(r), k);
    }
  }

  lemma GroupPlacePush(rows: seq<Joined>, r: Joined, p: int, g: int)
    ensures GroupPlace(rows + [r], p, g) ==
      if p == r.project.id && g == r.group.id && GroupPlace(rows, p, g).None?
      then Some(|GroupKeys(Having(rows, ProjectKey, p))|) else GroupPlace(rows, p, g)
  {
    PositionPush(rows, ProjectKey, r, p);
    HavingPush(rows, ProjectKey, p, r);
    var own := Having(rows, ProjectKey, p);
    PositionPush(own, GroupKey, r, g);
    assert own + [] == own;
    if p !in ProjectKeys(rows) {
      NewKeyHasNoRows(rows, ProjectKey, p);
    }
  }

  /** The buckets lead to the nodes. */
  ghost predicate Buckets(rows: seq<Joined>, projectBucket: map<int, nat>, groupBucket: map<(int, int), nat>) {
    && (forall p :: Lookup(projectBucket, p) == ProjectPlace(rows, p))
    && (forall p, g :: Lookup(groupBucket, (p, g)) == GroupPlace(rows, p, g))
  }

  lemma BucketsPush(rows: seq<Joined>, r: Joined, projectBucket: map<int, nat>, groupBucket: map<(int, int), nat>)
    requires Buckets(rows, projectBucket, groupBucket)
    ensures var p, g := r.project.id, r.group.id;
      Buckets(rows + [r],
              if ProjectPlace(rows, p).None? then projectBucket[p := |ProjectKeys(rows)|] else projectBucket,
              if GroupPlace(rows, p, g).None? then groupBucket[(p, g) := |GroupKeys(Having(rows, ProjectKey, p))|]
                else groupBucket)
  {
    hide Having;
    hide FirstSeen;
    hide GroupPlace;
    var p, g := r.project.id, r.group.id;
    var pb := if ProjectPlace(rows, p).None? then projectBucket[p := |ProjectKeys(rows)|] else projectBucket;
    var gb := if GroupPlace(rows, p, g).None? then groupBucket[(p, g) := |GroupKeys(Having(rows, ProjectKey, p))|]
      else groupBucket;
    forall q ensures Lookup(pb, q) == ProjectPlace(rows + [r], q) {
      PositionPush(rows, ProjectKey, r, q);
      assert Lookup(projectBucket, q) == ProjectPlace(rows, q);
    }
    forall q, h ensures Lookup(gb, (q, h)) == GroupPlace(rows + [r], q, h) {
      GroupPlacePush(rows, r, q, h);
      assert Lookup(groupBucket, (q, h)) == GroupPlace(rows, q, h);
    }
  }

  lemma NoBuckets()
    ensures TreeOf([]) == [] && Buckets([], map[], map[])
  {
    forall p: int ensures ProjectPlace([], p) == None {
      assert p !in ProjectKeys([]);
    }
  }

  /** Places are within the tree, and a new node goes to the end. */
  lemma PlacesInTree(rows: seq<Joined>, r: Joined)
    ensures var at := ProjectPlace(rows, r.project.id); var groupAt := GroupPlace(rows, r.project.id, r.group.id);
      && |TreeOf(rows)| == |ProjectKeys(rows)| && groupAt == GroupPosition(rows, r)
      && (at.Some? ==> at.value < |TreeOf(rows)|)
      && (at.Some? ==> |TreeOf(rows)[at.value].groups| == |GroupKeys(Having(rows, ProjectKey, r.project.id))|)
      && (at.None? ==> groupAt.None? && |GroupKeys(Having(rows, ProjectKey, r.project.id))| == 0)
  {
    if ProjectPlace(rows, r.project.id).None? {
      NewKeyHasNoRows(rows, ProjectKey, r.project.id);
    }
  }

  // ---- The pass that builds the tree ----

  method GetTree(rows: seq<Joined>) returns (projects: seq<ProjectNode>, overall: Totals)
    ensures projects == TreeOf(rows) && overall == TotalsOf(rows)
  {
    hide TreeOf;
    hide TotalsOf;
    hide Buckets;
    hide Position;
    hide ProjectKeys;
    hide GroupPlace;
    hide Having;
    hide LineOf;
    hide Add;
    projects, overall := [], NoTotals;
    var projectBucket: map<int, nat>, groupBucket: map<(int, int), nat> := map[], map[];
    NoBuckets();
    NoRowsTotal();
    for i := 0 to |rows|
      invariant projects == TreeOf(rows[..i]) && overall == TotalsOf(rows[..i])
      invariant Buckets(rows[..i], projectBucket, groupBucket)
    {
      var r := rows[i];
      ghost var done, before := rows[..i], projects;
      assert rows[..i + 1] == done + [r];
      BucketsFind(done, r, projectBucket, groupBucket);
      PlacesInTree(done, r);
      BucketsPush(done, r, projectBucket, groupBucket);
      var p := Lookup(projectBucket, r.project.id);
      if p.None? {
        p := Some(|projects|);
        projectBucket := projectBucket[r.project.id := |projects|];
        projects := projects + [ProjectNode(r.project, NoTotals, [])];
      }
      var node := projects[p.value];
      ghost var had := node.groups;
      var g := Lookup(groupBucket, (r.project.id, r.group.id));
      if g.None? {
        g := Some(|node.groups|);
        groupBucket := groupBucket[(r.project.id, r.group.id) := |node.groups|];
        node := node.(groups := node.groups + [GroupNode(r.group, NoTotals, [])]);
      }
      var groupNode := node.groups[g.value];
      groupNode := groupNode.(rows := groupNode.rows + [r]);
      groupNode := groupNode.(totals := Add(groupNode.totals, LineOf(r)));
      node := node.(groups := node.groups[g.value := groupNode], totals := Add(node.totals, LineOf(r)));
      assert node.groups == PushGroup(had, GroupPosition(done, r), r);
      projects := projects[p.value := node];
      overall := Add(overall, LineOf(r));
      TreePush(done, r);
      TotalsPush(done, r);
      assert projects == PushProject(before, ProjectPlace(done, r.project.id), GroupPosition(done, r), r);
    }
    assert rows[..|rows|] == rows;
  }

  lemma NoRowsTotal()
    ensures TotalsOf([]) == NoTotals
  {
  }

  lemma BucketsFind(rows: seq<Joined>, r: Joined, projectBucket: map<int, nat>, groupBucket: map<(int, int), nat>)
    requires Buckets(rows, projectBucket, groupBucket)
    ensures Lookup(projectBucket, r.project.id) == ProjectPlace(rows, r.project.id)
    ensures Lookup(groupBucket, (r.project.id, r.group.id)) == GroupPlace(rows, r.project.id, r.group.id)
  {
  }

  // ---- The pass that builds the summary ----

  datatype SummaryGroup = SummaryGroup(project: Project, group: Group, rows: seq<Joined>, sale: int, support: int,
    grand: int)

  function SummaryGroupOf(rows: seq<Joined>, k: (int, int)): SummaryGroup
    requires Having(rows, PairKey, k) != []
  {
    var own := Having(rows, PairKey, k);
    var t := TotalsOf(own);
    SummaryGroup(own[0].project, own[0].group, own, t.sale, t.support, t.grand)
  }

  function PairKeys(rows: seq<Joined>): seq<(int, int)> {
    FirstSeen(Map(PairKey, rows))
  }

  /** One entry per (project, group), in the order first seen. */
  function SummaryOf(rows: seq<Joined>): seq<SummaryGroup> {
    seq(|PairKeys(rows)|, i requires 0 <= i < |PairKeys(rows)| =>
      KeyHasRows(rows, PairKey, i); SummaryGroupOf(rows, PairKeys(rows)[i]))
  }

  function AddToSummary(n: SummaryGroup, r: Joined): SummaryGroup {
    var l := LineOf(r);
    n.(rows := n.rows + [r], sale := n.sale + l.sale, support := n.support + l.support, grand := n.grand + l.grand)
  }

  lemma SummaryGroupPush(rows: seq<Joined>, r: Joined, k: (int, int))
    requires Having(rows, PairKey, k) != []
    ensures Having(rows + [r], PairKey, k) != []
    ensures SummaryGroupOf(rows + [r], k) ==
      if PairKey(r) == k then AddToSummary(SummaryGroupOf(rows, k), r) else SummaryGroupOf(rows, k)
  {
    hide Having;
    hide TotalsOf;
    hide LineOf;
    var own := Having(rows, PairKey, k);
    HavingPush(rows, PairKey, k, r);
    TotalsPush(own, r);
    assert own + [] == own && (own + [r])[0] == own[0];
  }

  lemma SummaryGroupNew(rows: seq<Joined>, r: Joined)
    requires Having(rows, PairKey, PairKey(r)) == []
    ensures Having(rows + [r], PairKey, PairKey(r)) == [r]
    ensures SummaryGroupOf(rows + [r], PairKey(r)) == AddToSummary(SummaryGroup(r.project, r.group, [], 0, 0, 0), r)
  {
    hide Having;
    hide TotalsOf;
    hide LineOf;
    HavingPush(rows, PairKey, PairKey(r), r);
    assert [] + [r] == [r];
    TotalsPush([], r);
    NoRowsTotal();
    var t := LineOf(r);
    assert TotalsOf([r]) == Totals(0 + t.configured, 0 + t.enabled, 0 + t.sale, 0 + t.support, 0 + t.grand);
  }

  function PushSummary(nodes: seq<SummaryGroup>, at: Option<nat>, r: Joined): seq<SummaryGroup>
    requires at.Some? ==> at.value < |nodes|
  {
    if at.None? then nodes + [AddToSummary(SummaryGroup(r.project, r.group, [], 0, 0, 0), r)]
    else nodes[at.value := AddToSummary(nodes[at.value], r)]
  }

  lemma SummaryPush(rows: seq<Joined>, r: Joined)
    ensures SummaryOf(rows + [r]) == PushSummary(SummaryOf(rows), Position(PairKeys(rows), PairKey(r)), r)
  {
    hide AddToSummary;
    hide SummaryGroupOf;
    hide Having;
    hide FirstSeen;
    var keys, all := PairKeys(rows), PairKeys(rows + [r]);
    var at := Position(keys, PairKey(r));
    var before, after := SummaryOf(rows), SummaryOf(rows + [r]);
    FirstSeenPush(rows, PairKey, r);
    FirstSeenKeys(Map(PairKey, rows));
    forall i | 0 <= i < |keys| ensures all[i] == keys[i]
      && after[i] == if keys[i] == PairKey(r) then AddToSummary(before[i], r) else before[i]
    {
      KeyHasRows(rows, PairKey, i);
      SummaryGroupPush(rows, r, keys[i]);
    }
    if at.None? {
      NewKeyHasNoRows(rows, PairKey, PairKey(r));
      SummaryGroupNew(rows, r);
    }
    assert after == PushSummary(before, at, r);
  }

  method GetSummary(rows: seq<Joined>) returns (groups: seq<SummaryGroup>, sale: int, support: int, grand: int)
    ensures groups == SummaryOf(rows)
    ensures sale == TotalsOf(rows).sale && support == TotalsOf(rows).support && grand == TotalsOf(rows).grand
  {
    hide SummaryOf;
    hide TotalsOf;
    hide Position;
    hide FirstSeen;
    groups, sale, support := [], 0, 0;
    var bucket: map<(int, int), nat> := map[];
    EmptySummary();
    NoRowsTotal();
    for i := 0 to |rows|
      invariant groups == SummaryOf(rows[..i])
      invariant sale == TotalsOf(rows[..i]).sale && support == TotalsOf(rows[..i]).support
      invariant forall k :: Lookup(bucket, k) == Position(PairKeys(rows[..i]), k)
    {
      var r := rows[i];
      ghost var done, before := rows[..i], groups;
      assert rows[..i + 1] == done + [r];
      SummarySize(done);
      ghost var at := Position(PairKeys(done), PairKey(r));
      var lineSale := if r.config.enabled then (if r.config.salePrice.None? then 0 else r.config.salePrice.value)
        else 0;
      var lineSupport := if r.config.enabled then r.config.supportPrice else 0;
      var key := (r.project.id, r.group.id);
      var g := Lookup(bucket, key);
      assert g == at;
      if g.None? {
        g := Some(|groups|);
        bucket := bucket[key := |groups|];
        groups := groups + [SummaryGroup(r.project, r.group, [], 0, 0, 0)];
      }
      var entry := groups[g.value];
      entry := entry.(rows := entry.rows + [r]);
      if r.config.enabled {
        entry := entry.(sale := entry.sale + lineSale, support := entry.support + lineSupport,
                        grand := entry.grand + (lineSale + lineSupport));
        sale, support := sale + lineSale, support + lineSupport;
      }
      groups := groups[g.value := entry];
      assert groups == PushSummary(before, at, r);
      SummaryPush(done, r);
      TotalsPush(done, r);
      forall k ensures Lookup(bucket, k) == Position(PairKeys(done + [r]), k) {
        PositionPush(done, PairKey, r, k);
      }
    }
    assert rows[..|rows|] == rows;
    grand := sale + support;
  }

  lemma SummarySize(rows: seq<Joined>)
    ensures |SummaryOf(rows)| == |PairKeys(rows)|
  {
  }

  lemma EmptySummary()
    ensures SummaryOf([]) == [] && forall k :: Position(PairKeys([]), k) == None
  {
    forall k: (int, int) ensures Position(PairKeys([]), k) == None {
      assert k !in PairKeys([]);
    }
  }
}
