/** The pricing tree and the pricing summary of a customer, built in one pass over the joined rows. */
module PricingTree {
  import opened Prelude

  datatype Config = Config(id: int, customer: int, service: int, enabled: bool, salePrice: Option<int>,
    supportPrice: int)

  datatype Service = Service(id: int, project: int, group: int, name: string, active: bool)

  datatype Group = Group(id: int, name: string, active: bool)

  datatype Project = Project(id: int, name: string, active: bool)

  /** One row of the join of configs, services, groups and projects. */
  datatype Joined = Joined(config: Config, service: Service, group: Group, project: Project)

  // ---- Totals ----

  datatype Totals = Totals(configured: int, enabled: int, sale: int, support: int, grand: int)

  const NoTotals := Totals(0, 0, 0, 0, 0)

  /** What a row adds: a missing sale price is 0, and a disabled config adds to the count only. */
  function LineOf(r: Joined): Totals {
    var sale := if !r.config.enabled || r.config.salePrice.None? then 0 else r.config.salePrice.value;
    var support := if r.config.enabled then r.config.supportPrice else 0;
    Totals(1, if r.config.enabled then 1 else 0, sale, support, sale + support)
  }

  function Add(a: Totals, b: Totals): Totals {
    Totals(a.configured + b.configured, a.enabled + b.enabled, a.sale + b.sale, a.support + b.support, a.grand
      + b.grand)
  }

  function TotalsOf(rows: seq<Joined>): (t: Totals)
    ensures t.configured == |rows| && t.grand == t.sale + t.support
  {
    if rows == [] then NoTotals else Add(TotalsOf(rows[..|rows| - 1]), LineOf(rows[|rows| - 1]))
  }

  function SumTotals(ts: seq<Totals>): Totals {
    if ts == [] then NoTotals else Add(SumTotals(ts[..|ts| - 1]), ts[|ts| - 1])
  }

  lemma AddLaws(a: Totals, b: Totals, c: Totals)
    ensures Add(Add(a, b), c) == Add(a, Add(b, c)) && Add(a, b) == Add(b, a)
    ensures Add(a, NoTotals) == a && Add(NoTotals, a) == a
  {
  }

  lemma TotalsPush(rows: seq<Joined>, r: Joined)
    ensures TotalsOf(rows + [r]) == Add(TotalsOf(rows), LineOf(r))
  {
    assert (rows + [r])[..|rows|] == rows;
  }

  lemma {:induction false} TotalsAppend(a: seq<Joined>, b: seq<Joined>)
    ensures TotalsOf(a + b) == Add(TotalsOf(a), TotalsOf(b))
  {
    hide Add;
    hide LineOf;
    if b == [] {
      assert a + b == a;
      AddLaws(TotalsOf(a), NoTotals, NoTotals);
    } else {
      var n := |b| - 1;
      assert a + b == (a + b[..n]) + [b[n]];
      TotalsAppend(a, b[..n]);
      TotalsPush(a + b[..n], b[n]);
      AddLaws(TotalsOf(a), TotalsOf(b[..n]), LineOf(b[n]));
    }
  }

  lemma TotalsWithout(front: seq<Joined>, r: Joined, back: seq<Joined>)
    ensures TotalsOf(front + [r] + back) == Add(TotalsOf(front + back), LineOf(r))
  {
    hide TotalsOf;
    hide LineOf;
    TotalsAppend(front + [r], back);
    TotalsPush(front, r);
    TotalsAppend(front, back);
  }

  lemma RemoveAt<T>(s: seq<T>, i: nat)
    requires i < |s|
    ensures s == s[..i] + [s[i]] + s[i + 1..]
    ensures multiset(s[..i] + s[i + 1..]) == multiset(s) - multiset{s[i]}
  {
    assert s == s[..i] + [s[i]] + s[i + 1..];
  }

  /** Totals do not depend on the order of the rows. */
  lemma {:induction false} TotalsPermute(a: seq<Joined>, b: seq<Joined>)
    requires multiset(a) == multiset(b)
    ensures TotalsOf(a) == TotalsOf(b)
    decreases |a|
  {
    hide LineOf;
    hide Add;
    hide TotalsOf;
    if a == [] {
      assert |multiset(b)| == |b|;
    } else {
      var n, r := |a| - 1, a[|a| - 1];
      assert a == a[..n] + [r];
      assert r in multiset(a);
      var i :| 0 <= i < |b| && b[i] == r;
      RemoveAt(b, i);
      RemoveAt(a, n);
      assert a[..n] + a[n + 1..] == a[..n];
      TotalsPermute(a[..n], b[..i] + b[i + 1..]);
      TotalsPush(a[..n], r);
      TotalsWithout(b[..i], r, b[i + 1..]);
    }
  }

  // ---- Grouping by a key ----

  /** Keys in the order they are first seen. */
  function FirstSeen<K(==)>(keys: seq<K>): seq<K> {
    if keys == [] then [] else
      var front := FirstSeen(keys[..|keys| - 1]);
      if keys[|keys| - 1] in front then front else front + [keys[|keys| - 1]]
  }

  lemma {:induction false} FirstSeenKeys<K(!new)>(keys: seq<K>)
    ensures Distinct(FirstSeen(keys)) && forall k :: k in FirstSeen(keys) <==> k in keys
  {
    if keys != [] {
      var n := |keys| - 1;
      FirstSeenKeys(keys[..n]);
      assert keys == keys[..n] + [keys[n]];
    }
  }

  function ProjectKey(r: Joined): int { r.project.id }

  function GroupKey(r: Joined): int { r.group.id }

  function PairKey(r: Joined): (int, int) { (r.project.id, r.group.id) }

  /** The rows with a key, in order. */
  function Having<K(==)>(rows: seq<Joined>, key: Joined -> K, k: K): seq<Joined> {
    if rows == [] then [] else
      var n := |rows| - 1;
      Having(rows[..n], key, k) + if key(rows[n]) == k then [rows[n]] else []
  }

  lemma {:induction false} HavingMember<K>(rows: seq<Joined>, key: Joined -> K, k: K, r: Joined)
    ensures r in Having(rows, key, k) <==> r in rows && key(r) == k
  {
    if rows != [] {
      var n := |rows| - 1;
      HavingMember(rows[..n], key, k, r);
      assert rows == rows[..n] + [rows[n]];
    }
  }

  function Parts<K(==)>(rows: seq<Joined>, key: Joined -> K, keys: seq<K>): seq<seq<Joined>> {
    seq(|keys|, i requires 0 <= i < |keys| => Having(rows, key, keys[i]))
  }

  function Concat<T>(parts: seq<seq<T>>): seq<T> {
    if parts == [] then [] else Concat(parts[..|parts| - 1]) + parts[|parts| - 1]
  }

  lemma ConcatParts<K>(rows: seq<Joined>, key: Joined -> K, keys: seq<K>)
    requires keys != []
    ensures var n := |keys| - 1;
      Concat(Parts(rows, key, keys)) == Concat(Parts(rows, key, keys[..n])) + Having(rows, key, keys[n])
  {
    var n := |keys| - 1;
    assert Parts(rows, key, keys)[..n] == Parts(rows, key, keys[..n]);
  }

  lemma HavingPush<K>(rows: seq<Joined>, key: Joined -> K, k: K, r: Joined)
    ensures Having(rows + [r], key, k) == Having(rows, key, k) + if key(r) == k then [r] else []
  {
    assert (rows + [r])[..|rows|] == rows;
  }

  /** A row goes to the one part of its key. */
  lemma {:induction false} PartsOfOne<K(!new)>(rows: seq<Joined>, key: Joined -> K, keys: seq<K>, r: Joined)
    requires Distinct(keys)
    ensures multiset(Concat(Parts(rows + [r], key, keys))) ==
      multiset(Concat(Parts(rows, key, keys))) + if key(r) in keys then multiset{r} else multiset{}
  {
    if keys != [] {
      hide Parts;
      hide Concat;
      hide Having;
      hide Distinct;
      var n := |keys| - 1;
      KeyInOne(keys, key(r));
      PartsOfOne(rows, key, keys[..n], r);
      ConcatParts(rows, key, keys);
      ConcatParts(rows + [r], key, keys);
      HavingPush(rows, key, keys[n], r);
      var before, after := Concat(Parts(rows, key, keys[..n])), Concat(Parts(rows + [r], key, keys[..n]));
      JoinGains(before, after, Having(rows, key, keys[n]), r, key(r) in keys[..n], key(r) == keys[n]);
    }
  }

  lemma JoinGains(before: seq<Joined>, after: seq<Joined>, own: seq<Joined>, r: Joined, earlier: bool, here: bool)
    requires multiset(after) == multiset(before) + (if earlier then multiset{r} else multiset{})
    requires !(earlier && here)
    ensures multiset(after + (own + if here then [r] else [])) ==
      multiset(before + own) + if earlier || here then multiset{r} else multiset{}
  {
  }

  /** Among distinct keys a key is the last one or one before it, not both. */
  lemma KeyInOne<K>(keys: seq<K>, k: K)
    requires keys != [] && Distinct(keys)
    ensures var n := |keys| - 1;
      (k in keys <==> k in keys[..n] || k == keys[n]) && !(k in keys[..n] && k == keys[n]) && Distinct(keys[..n])
  {
    assert keys == keys[..|keys| - 1] + [keys[|keys| - 1]];
  }

  /** Grouped by any key, every row is in exactly one group: the groups together are the rows rearranged. */
  lemma {:induction false} GroupsPartition<K(!new)>(rows: seq<Joined>, key: Joined -> K, keys: seq<K>)
    requires Distinct(keys) && forall r :: r in rows ==> key(r) in keys
    ensures multiset(Concat(Parts(rows, key, keys))) == multiset(rows)
  {
    if rows == [] {
      NoRows(key, keys);
    } else {
      hide Parts;
      hide Concat;
      hide Distinct;
      var front, last := rows[..|rows| - 1], rows[|rows| - 1];
      assert rows == front + [last];
      forall r | r in front ensures key(r) in keys {
        assert r in rows;
      }
      assert last in rows;
      GroupsPartition(front, key, keys);
      PartsOfOne(front, key, keys, last);
      assert multiset(front + [last]) == multiset(front) + multiset{last};
    }
  }

  lemma {:induction false} NoRows<K>(key: Joined -> K, keys: seq<K>)
    ensures Concat(Parts([], key, keys)) == []
  {
    if keys != [] {
      var n := |keys| - 1;
      NoRows(key, keys[..n]);
      assert Parts([], key, keys)[..n] == Parts([], key, keys[..n]);
    }
  }

  lemma {:induction false} TotalsOfParts(parts: seq<seq<Joined>>)
    ensures TotalsOf(Concat(parts)) == SumTotals(Map(TotalsOf, parts))
  {
    if parts != [] {
      var n := |parts| - 1;
      TotalsOfParts(parts[..n]);
      assert Map(TotalsOf, parts)[..n] == Map(TotalsOf, parts[..n]);
      TotalsAppend(Concat(parts[..n]), parts[n]);
    }
  }

  // ---- The tree ----

  datatype GroupNode = GroupNode(group: Group, totals: Totals, rows: seq<Joined>)

  datatype ProjectNode = ProjectNode(project: Project, totals: Totals, groups: seq<GroupNode>)

  /** A node's rows name its group; the first of them supplied its description. */
  function GroupNodeOf(rows: seq<Joined>, g: int): GroupNode
    requires Having(rows, GroupKey, g) != []
  {
    var own := Having(rows, GroupKey, g);
    GroupNode(own[0].group, TotalsOf(own), own)
  }

  function GroupNodesOf(rows: seq<Joined>): seq<GroupNode> {
    var keys := FirstSeen(Map(GroupKey, rows));
    seq(|keys|, i requires 0 <= i < |keys| => KeyHasRows(rows, GroupKey, i); GroupNodeOf(rows, keys[i]))
  }

  function ProjectNodeOf(rows: seq<Joined>, p: int): ProjectNode
    requires Having(rows, ProjectKey, p) != []
  {
    var own := Having(rows, ProjectKey, p);
    ProjectNode(own[0].project, TotalsOf(own), GroupNodesOf(own))
  }

  /** Projects in the order first seen, each with its groups in the order first seen, each with its rows in order. */
  function TreeOf(rows: seq<Joined>): seq<ProjectNode> {
    var keys := FirstSeen(Map(ProjectKey, rows));
    seq(|keys|, i requires 0 <= i < |keys| => KeyHasRows(rows, ProjectKey, i); ProjectNodeOf(rows, keys[i]))
  }

  lemma KeyHasRows<K(!new)>(rows: seq<Joined>, key: Joined -> K, i: nat)
    requires i < |FirstSeen(Map(key, rows))|
    ensures Having(rows, key, FirstSeen(Map(key, rows))[i]) != []
  {
    var k := FirstSeen(Map(key, rows))[i];
    FirstSeenKeys(Map(key, rows));
    assert k in Map(key, rows);
    var j :| 0 <= j < |rows| && key(rows[j]) == k;
    HavingMember(rows, key, k, rows[j]);
  }

  lemma FirstSeenPush<K>(rows: seq<Joined>, key: Joined -> K, r: Joined)
    ensures FirstSeen(Map(key, rows + [r])) ==
      var front := FirstSeen(Map(key, rows)); if key(r) in front then front else front + [key(r)]
  {
    assert Map(key, rows + [r]) == Map(key, rows) + [key(r)];
    assert Map(key, rows + [r])[..|rows|] == Map(key, rows);
  }

  function AddRow(n: GroupNode, r: Joined): GroupNode {
    n.(totals := Add(n.totals, LineOf(r)), rows := n.rows + [r])
  }

  function PushGroup(nodes: seq<GroupNode>, at: Option<nat>, r: Joined): seq<GroupNode>
    requires at.Some? ==> at.value < |nodes|
  {
    if at.None? then nodes + [AddRow(GroupNode(r.group, NoTotals, []), r)]
    else nodes[at.value := AddRow(nodes[at.value], r)]
  }

  function AddToProject(n: ProjectNode, groupAt: Option<nat>, r: Joined): ProjectNode
    requires groupAt.Some? ==> groupAt.value < |n.groups|
  {
    n.(totals := Add(n.totals, LineOf(r)), groups := PushGroup(n.groups, groupAt, r))
  }

  function PushProject(nodes: seq<ProjectNode>, at: Option<nat>, groupAt: Option<nat>, r: Joined): seq<ProjectNode>
    requires at.Some? ==> at.value < |nodes|
    requires groupAt.Some? ==> at.Some? && groupAt.value < |nodes[at.value].groups|
  {
    if at.None? then nodes + [AddToProject(ProjectNode(r.project, NoTotals, []), None, r)]
    else nodes[at.value := AddToProject(nodes[at.value], groupAt, r)]
  }

  /** The position of a key among those first seen. */
  function Position<K(==)>(keys: seq<K>, k: K): (i: Option<nat>)
    ensures i.Some? <==> k in keys
    ensures i.Some? ==> i.value < |keys| && keys[i.value] == k
  {
    if k in keys then Some(IndexOf(keys, k)) else None
  }

  function GroupKeys(rows: seq<Joined>): seq<int> {
    FirstSeen(Map(GroupKey, rows))
  }

  function ProjectKeys(rows: seq<Joined>): seq<int> {
    FirstSeen(Map(ProjectKey, rows))
  }

  /** The group of a row gains the row; the others stay as they are. */
  lemma GroupNodePush(rows: seq<Joined>, r: Joined, g: int)
    requires Having(rows, GroupKey, g) != []
    ensures Having(rows + [r], GroupKey, g) != []
    ensures GroupNodeOf(rows + [r], g) == if r.group.id == g then AddRow(GroupNodeOf(rows, g), r)
      else GroupNodeOf(rows, g)
  {
    hide Having;
    hide TotalsOf;
    hide LineOf;
    hide Add;
    var own := Having(rows, GroupKey, g);
    HavingPush(rows, GroupKey, g, r);
    TotalsPush(own, r);
    assert own + [] == own && (own + [r])[0] == own[0];
  }

  lemma GroupNodeNew(rows: seq<Joined>, r: Joined)
    requires Having(rows, GroupKey, r.group.id) == []
    ensures Having(rows + [r], GroupKey, r.group.id) == [r]
    ensures GroupNodeOf(rows + [r], r.group.id) == AddRow(GroupNode(r.group, NoTotals, []), r)
  {
    HavingPush(rows, GroupKey, r.group.id, r);
    assert [] + [r] == [r];
    TotalsPush([], r);
  }

  lemma GroupsPush(rows: seq<Joined>, r: Joined)
    ensures GroupNodesOf(rows + [r]) == PushGroup(GroupNodesOf(rows), Position(GroupKeys(rows), r.group.id), r)
  {
    hide AddRow;
    hide GroupNodeOf;
    hide Having;
    hide FirstSeen;
    var keys, all := GroupKeys(rows), GroupKeys(rows + [r]);
    var at := Position(keys, r.group.id);
    var before, after := GroupNodesOf(rows), GroupNodesOf(rows + [r]);
    FirstSeenPush(rows, GroupKey, r);
    FirstSeenKeys(Map(GroupKey, rows));
    forall i | 0 <= i < |keys| ensures all[i] == keys[i]
      && after[i] == if keys[i] == r.group.id then AddRow(before[i], r) else before[i]
    {
      KeyHasRows(rows, GroupKey, i);
      GroupNodePush(rows, r, keys[i]);
    }
    if at.None? {
      NewKeyHasNoRows(rows, GroupKey, r.group.id);
      GroupNodeNew(rows, r);
    }
    assert after == PushGroup(before, at, r);
  }

  /** The project of a row gains the row; the others stay as they are. */
  lemma ProjectNodePush(rows: seq<Joined>, r: Joined, p: int)
    requires Having(rows, ProjectKey, p) != []
    ensures Having(rows + [r], ProjectKey, p) != []
    ensures ProjectNodeOf(rows + [r], p) ==
      if r.project.id == p then
        AddToProject(ProjectNodeOf(rows, p), Position(GroupKeys(Having(rows, ProjectKey, p)), r.group.id), r)
      else ProjectNodeOf(rows, p)
  {
    hide Having;
    hide TotalsOf;
    hide GroupNodesOf;
    hide PushGroup;
    hide LineOf;
    hide Add;
    var own := Having(rows, ProjectKey, p);
    HavingPush(rows, ProjectKey, p, r);
    TotalsPush(own, r);
    GroupsPush(own, r);
    assert own + [] == own && (own + [r])[0] == own[0];
  }

  lemma ProjectNodeNew(rows: seq<Joined>, r: Joined)
    requires Having(rows, ProjectKey, r.project.id) == []
    ensures Having(rows + [r], ProjectKey, r.project.id) == [r]
    ensures ProjectNodeOf(rows + [r], r.project.id) == AddToProject(ProjectNode(r.project, NoTotals, []), None, r)
  {
    hide Having;
    hide TotalsOf;
    hide LineOf;
    hide Add;
    hide PushGroup;
    HavingPush(rows, ProjectKey, r.project.id, r);
    assert [] + [r] == [r];
    TotalsPush([], r);
    GroupsPush([], r);
    EmptyGroups();
  }

  lemma EmptyGroups()
    ensures GroupNodesOf([]) == [] && TotalsOf([]) == NoTotals && forall g: int :: Position(GroupKeys([]), g) == None
  {
    forall g: int ensures Position(GroupKeys([]), g) == None {
      assert g !in GroupKeys([]);
    }
  }

  /** Where the group of a row stands within its project, if the project is there. */
  function GroupPosition(rows: seq<Joined>, r: Joined): (i: Option<nat>)
    ensures i.Some? ==>
      var at := Position(ProjectKeys(rows), r.project.id); at.Some? && i.value < |TreeOf(rows)[at.value].groups|
  {
    if r.project.id in ProjectKeys(rows) then Position(GroupKeys(Having(rows, ProjectKey, r.project.id)), r.group.id)
      else None
  }

  lemma TreePush(rows: seq<Joined>, r: Joined)
    ensures TreeOf(rows + [r])
      == PushProject(TreeOf(rows), Position(ProjectKeys(rows), r.project.id), GroupPosition(rows, r), r)
  {
    hide AddToProject;
    hide ProjectNodeOf;
    hide Having;
    hide FirstSeen;
    hide GroupNodesOf;
    var keys, all := ProjectKeys(rows), ProjectKeys(rows + [r]);
    var at := Position(keys, r.project.id);
    var before, after := TreeOf(rows), TreeOf(rows + [r]);
    FirstSeenPush(rows, ProjectKey, r);
    FirstSeenKeys(Map(ProjectKey, rows));
    forall i | 0 <= i < |keys| ensures all[i] == keys[i]
      && after[i] == if at.Some? && i == at.value then AddToProject(before[i], GroupPosition(rows, r), r) else before[i]
    {
      KeyHasRows(rows, ProjectKey, i);
      ProjectNodePush(rows, r, keys[i]);
    }
    if at.None? {
      NewKeyHasNoRows(rows, ProjectKey, r.project.id);
      ProjectNodeNew(rows, r);
    }
    assert after == PushProject(before, at, GroupPosition(rows, r), r);
  }

  lemma NewKeyHasNoRows<K(!new)>(rows: seq<Joined>, key: Joined -> K, k: K)
    requires k !in FirstSeen(Map(key, rows))
    ensures Having(rows, key, k) == []
  {
    hide FirstSeen;
    hide Having;
    if Having(rows, key, k) != [] {
      var r := Having(rows, key, k)[0];
      HavingMember(rows, key, k, r);
      KeySeen(rows, key, r);
    }
  }

  lemma KeySeen<K(!new)>(rows: seq<Joined>, key: Joined -> K, r: Joined)
    requires r in rows
    ensures key(r) in FirstSeen(Map(key, rows))
  {
    FirstSeenKeys(Map(key, rows));
    var i :| 0 <= i < |rows| && rows[i] == r;
    assert Map(key, rows)[i] == key(r);
  }
}
