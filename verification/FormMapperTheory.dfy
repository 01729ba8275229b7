/** A rendered form shows each of its fields once, under its own parent, in order. */
module FormMapperTheory {
  import opened Prelude
  import opened Ordering
  import opened FormStore
  import opened FormSync
  import opened FormSyncTheory
  import opened FormSyncRuns
  import opened FormMapper

  /** The flat list holds each row of the form once. */
  ghost predicate Lists(fields: seq<Item>, rows: Rows, formId: int) {
    && Distinct(fields)
    && forall x :: x in fields <==> OfForm(x, rows, formId)
  }

  ghost predicate OfForm(x: Item, rows: Rows, formId: int) {
    x.id in rows && x.field == rows[x.id] && x.field.formId == formId
  }

  ghost predicate IsBucketOf(bucket: Bucket, fields: seq<Item>) {
    forall p :: Entry(bucket, p) == WithParent(Sort(Before, fields), p)
  }

  lemma BeforeIsTotal()
    ensures TotalOrder(Before)
  {
  }

  lemma {:induction false} WithParentOrdered(items: seq<Item>, parent: Option<int>)
    requires Sorted(Before, items) && Distinct(items)
    ensures Sorted(Before, WithParent(items, parent)) && Distinct(WithParent(items, parent))
  {
    if items != [] {
      assert Sorted(Before, items[1..]) && Distinct(items[1..]);
      WithParentOrdered(items[1..], parent);
      var rest := WithParent(items[1..], parent);
      forall k | 0 <= k < |rest| ensures Before(items[0], rest[k]) && items[0] != rest[k] {
        WithParentMembers(items[1..], parent, rest[k]);
        var j :| 0 <= j < |items[1..]| && items[1..][j] == rest[k];
        assert items[j + 1] == rest[k];
      }
    }
  }

  lemma IndexesOf(bucket: Bucket, fields: seq<Item>, rows: Rows, formId: int)
    requires Lists(fields, rows, formId) && IsBucketOf(bucket, fields)
    ensures Indexes(bucket, rows, formId)
  {
    var sorted := Sort(Before, fields);
    BeforeIsTotal();
    SortSorted(Before, fields);
    SortPermutes(Before, fields);
    PermutationDistinct(fields, sorted);
    forall p ensures Sorted(Before, Entry(bucket, p)) && Distinct(Entry(bucket, p)) {
      WithParentOrdered(sorted, p);
    }
    forall p, x
      ensures x in Entry(bucket, p) <==> x.id in rows && x.field == rows[x.id] && x.field.Home() == Slot(formId, p)
    {
      WithParentMembers(sorted, p, x);
      SortSameElements(Before, fields);
      assert x in fields <==> OfForm(x, rows, formId);
    }
  }

  ghost predicate BelowBound(items: seq<Item>, rank: map<int, nat>, bound: nat) {
    forall x :: x in items ==> x.id in rank && rank[x.id] <= bound
  }

  lemma {:induction false} BoundOf(items: seq<Item>, rank: map<int, nat>) returns (bound: nat)
    requires forall x :: x in items ==> x.id in rank
    ensures BelowBound(items, rank, bound)
  {
    bound := 0;
    for k := 0 to |items|
      invariant BelowBound(items[..k], rank, bound)
    {
      assert items[k] in items;
      assert items[..k + 1] == items[..k] + [items[k]];
      if rank[items[k].id] > bound {
        bound := rank[items[k].id];
      }
    }
    assert items[..|items|] == items;
  }

  /** Because the table is a forest, rendering it ends. */
  lemma RenderingEnds(bucket: Bucket, fields: seq<Item>, rows: Rows, formId: int)
    returns (rank: map<int, nat>, bound: nat)
    requires Forest(rows) && Lists(fields, rows, formId) && IsBucketOf(bucket, fields)
    ensures Ranked(rows, rank) && Bounded(bucket, rank, bound)
  {
    rank :| Ranked(rows, rank);
    IndexesOf(bucket, fields, rows, formId);
    forall x | x in fields ensures x.id in rank {
      assert OfForm(x, rows, formId);
    }
    bound := BoundOf(fields, rank);
    RanksBounded(bucket, fields, rows, formId, rank, bound);
  }

  lemma RanksBounded(
    bucket: Bucket, fields: seq<Item>, rows: Rows, formId: int, rank: map<int, nat>, bound: nat)
    requires Indexes(bucket, rows, formId) && Ranked(rows, rank) && BelowBound(fields, rank, bound)
    requires forall x :: x in fields <==> OfForm(x, rows, formId)
    ensures Bounded(bucket, rank, bound)
  {
    forall p, x | x in Entry(bucket, p)
      ensures x.id in rank && rank[x.id] <= bound && (p.Some? ==> p.value in rank && rank[p.value] < rank[x.id])
    {
      assert x.field.Home() == Slot(formId, p);
      assert OfForm(x, rows, formId);
    }
  }

  // ---- What a rendered tree contains ----

  /** x is a row of the subtree of one of the items. */
  ghost predicate UnderItems(items: seq<Item>, rows: Rows, x: Item) {
    exists c :: c in items && UnderItem(c, rows, x)
  }

  ghost predicate UnderItem(c: Item, rows: Rows, x: Item) {
    c.id in rows && x.id in rows && x.field == rows[x.id] && InSubtree(rows, c.id, x.id)
  }

  ghost predicate Rendering(bucket: Bucket, rows: Rows, formId: int, rank: map<int, nat>, bound: nat) {
    Indexes(bucket, rows, formId) && ParentsOk(rows) && Ranked(rows, rank) && Bounded(bucket, rank, bound)
  }

  lemma UnderEntry(bucket: Bucket, rows: Rows, formId: int, rank: map<int, nat>, bound: nat, item: Item, x: Item)
    requires Rendering(bucket, rows, formId, rank, bound) && OfForm(item, rows, formId)
    ensures UnderItem(item, rows, x) <==> x == item || UnderItems(Entry(bucket, Some(item.id)), rows, x)
    ensures UnderItems(Entry(bucket, Some(item.id)), rows, x) ==> x != item
  {
    var under := Slot(formId, Some(item.id));
    if UnderItem(item, rows, x) && x != item {
      var c := TopmostUnder(rows, rank, under, x.id);
      assert UnderItem(Item(c, rows[c]), rows, x) && Item(c, rows[c]) in Entry(bucket, Some(item.id));
    }
    if UnderItems(Entry(bucket, Some(item.id)), rows, x) {
      var c :| c in Entry(bucket, Some(item.id)) && UnderItem(c, rows, x);
      BelowChild(rows, rank, under, c.id, x.id);
      BelowRank(rows, rank, under, x.id);
    }
  }

  lemma {:induction false} FlattenRender(
    bucket: Bucket, rows: Rows, formId: int, rank: map<int, nat>, bound: nat, item: Item)
    requires Rendering(bucket, rows, formId, rank, bound) && OfForm(item, rows, formId)
    ensures var flat := Flatten(Render(item, bucket, rank, bound));
      Distinct(flat) && forall x :: x in flat <==> UnderItem(item, rows, x)
    decreases Height(rank, bound, item.id), |Entry(bucket, Some(item.id))| + 1
  {
    var children := Entry(bucket, Some(item.id));
    FlattenRenderAll(bucket, rows, formId, rank, bound, Some(item.id), children);
    forall x ensures UnderItem(item, rows, x) <==> x == item || UnderItems(children, rows, x)
             ensures UnderItems(children, rows, x) ==> x != item {
      UnderEntry(bucket, rows, formId, rank, bound, item, x);
    }
    DistinctConcat([item], FlattenAll(RenderAll(Some(item.id), children, bucket, rank, bound)));
  }

  lemma RenderFirst(bucket: Bucket, rank: map<int, nat>, bound: nat, parent: Option<int>, items: seq<Item>)
    requires Bounded(bucket, rank, bound) && items != [] && forall x :: x in items ==> x in Entry(bucket, parent)
    ensures FlattenAll(RenderAll(parent, items, bucket, rank, bound)) ==
      Flatten(Render(items[0], bucket, rank, bound)) + FlattenAll(RenderAll(parent, items[1..], bucket, rank, bound))
  {
  }

  lemma {:induction false} FlattenRenderAll(
    bucket: Bucket, rows: Rows, formId: int, rank: map<int, nat>, bound: nat, parent: Option<int>, items: seq<Item>)
    requires Rendering(bucket, rows, formId, rank, bound)
    requires Distinct(items) && forall x :: x in items ==> x in Entry(bucket, parent)
    ensures var flat := FlattenAll(RenderAll(parent, items, bucket, rank, bound));
      Distinct(flat) && forall x :: x in flat <==> UnderItems(items, rows, x)
    decreases if parent.Some? then Height(rank, bound, parent.value) else bound + 1, |items|
  {
    if items != [] {
      HeadFacts(bucket, rows, formId, rank, bound, parent, items);
      RenderFirst(bucket, rank, bound, parent, items);
      hide Rendering;
      hide OfForm;
      hide Height;
      hide Distinct;
      hide RenderAll;
      hide FlattenAll;
      hide Flatten;
      hide UnderItem;
      hide UnderItems;
      var head, tail := items[0], items[1..];
      FlattenRender(bucket, rows, formId, rank, bound, head);
      FlattenRenderAll(bucket, rows, formId, rank, bound, parent, tail);
      var a := Flatten(Render(head, bucket, rank, bound));
      var b := FlattenAll(RenderAll(parent, tail, bucket, rank, bound));
      forall x | UnderItem(head, rows, x) ensures !UnderItems(tail, rows, x) {
        HeadApart(bucket, rows, formId, rank, bound, parent, items, x);
      }
      FlatJoined(items, rows, a, b);
    }
  }

  lemma HeadFacts(
    bucket: Bucket, rows: Rows, formId: int, rank: map<int, nat>, bound: nat, parent: Option<int>, items: seq<Item>)
    requires Rendering(bucket, rows, formId, rank, bound) && items != []
    requires Distinct(items) && forall x :: x in items ==> x in Entry(bucket, parent)
    ensures OfForm(items[0], rows, formId) && Bounded(bucket, rank, bound)
    ensures Height(rank, bound, items[0].id) < if parent.Some? then Height(rank, bound, parent.value) else bound + 1
    ensures Distinct(items[1..]) && forall x :: x in items[1..] ==> x in Entry(bucket, parent)
  {
    assert items[0] in Entry(bucket, parent);
    ChildrenAreDeeper(bucket, rows, formId, rank, bound, parent);
    forall x | x in items[1..] ensures x in items {
    }
  }

  lemma FlatJoined(items: seq<Item>, rows: Rows, a: seq<Item>, b: seq<Item>)
    requires items != [] && Distinct(a) && Distinct(b)
    requires forall x :: x in a <==> UnderItem(items[0], rows, x)
    requires forall x :: x in b <==> UnderItems(items[1..], rows, x)
    requires forall x :: UnderItem(items[0], rows, x) ==> !UnderItems(items[1..], rows, x)
    ensures Distinct(a + b) && forall x :: x in a + b <==> UnderItems(items, rows, x)
  {
    hide UnderItem;
    hide UnderItems;
    hide Distinct;
    forall x ensures x in a + b <==> UnderItems(items, rows, x) {
      UnderItemsSplit(items, rows, x);
    }
    DistinctConcat(a, b);
  }

  lemma UnderItemsSplit(items: seq<Item>, rows: Rows, x: Item)
    requires items != []
    ensures UnderItems(items, rows, x) <==> UnderItem(items[0], rows, x) || UnderItems(items[1..], rows, x)
  {
    if UnderItems(items, rows, x) {
      var c :| c in items && UnderItem(c, rows, x);
      assert c == items[0] || c in items[1..];
    }
    if UnderItems(items[1..], rows, x) {
      var c :| c in items[1..] && UnderItem(c, rows, x);
      assert c in items;
    }
  }

  /** The subtree of the first sibling shares nothing with those of the others. */
  lemma HeadApart(
    bucket: Bucket, rows: Rows, formId: int, rank: map<int, nat>, bound: nat, parent: Option<int>, items: seq<Item>,
      x: Item)
    requires Rendering(bucket, rows, formId, rank, bound) && items != []
    requires Distinct(items) && forall y :: y in items ==> y in Entry(bucket, parent)
    requires UnderItem(items[0], rows, x)
    ensures !UnderItems(items[1..], rows, x)
  {
    if UnderItems(items[1..], rows, x) {
      var c :| c in items[1..] && UnderItem(c, rows, x);
      assert c in items && items[0] in items;
      assert c != items[0] by {
        var k :| 0 <= k < |items[1..]| && items[1..][k] == c;
        assert items[k + 1] == c;
      }
      SiblingsDisjoint(rows, rank, Slot(formId, parent), items[0].id, c.id, x.id);
    }
  }

  lemma DistinctConcat<T>(a: seq<T>, b: seq<T>)
    requires Distinct(a) && Distinct(b) && forall x | x in a :: x !in b
    ensures Distinct(a + b)
  {
    forall i, j | 0 <= i < j < |a + b| ensures (a + b)[i] != (a + b)[j] {
      if i < |a| <= j {
        assert a[i] in a && b[j - |a|] in b;
      }
    }
  }

  /** Every field hangs under its own parent, siblings in order. */
  ghost predicate WellNested(outs: seq<FieldOut>, parent: Option<int>)
    decreases outs
  {
    && (forall k :: 0 <= k < |outs| ==>
         outs[k].field.parentId == parent && WellNested(outs[k].subFields, Some(outs[k].id)))
    && forall j, k :: 0 <= j < k < |outs| ==>
      || outs[j].field.orderIndex < outs[k].field.orderIndex
      || (outs[j].field.orderIndex == outs[k].field.orderIndex && outs[j].id < outs[k].id)
  }

  lemma {:induction false} RenderNests(
    bucket: Bucket, rows: Rows, formId: int, rank: map<int, nat>, bound: nat, parent: Option<int>)
    requires Rendering(bucket, rows, formId, rank, bound)
    ensures WellNested(RenderAll(parent, Entry(bucket, parent), bucket, rank, bound), parent)
    decreases if parent.Some? then Height(rank, bound, parent.value) else bound + 1
  {
    assert Indexes(bucket, rows, formId) && Bounded(bucket, rank, bound);
    var items := Entry(bucket, parent);
    OrderedItems(bucket, rows, formId, parent);
    ChildrenAreDeeper(bucket, rows, formId, rank, bound, parent);
    hide Rendering;
    hide Indexes;
    hide Before;
    hide Height;
    var outs := RenderAll(parent, items, bucket, rank, bound);
    hide RenderAll;
    RenderAllAt(bucket, rank, bound, parent, items);
    forall k | 0 <= k < |outs|
      ensures outs[k].field.parentId == parent && WellNested(outs[k].subFields, Some(outs[k].id))
    {
      assert items[k] in Entry(bucket, parent);
      RenderNests(bucket, rows, formId, rank, bound, Some(items[k].id));
    }
    forall k | 0 <= k < |outs| ensures Item(outs[k].id, outs[k].field) == items[k] {
      assert outs[k] == Render(items[k], bucket, rank, bound);
    }
    SameOrder(items, outs);
  }

  lemma ChildrenAreDeeper(
    bucket: Bucket, rows: Rows, formId: int, rank: map<int, nat>, bound: nat, parent: Option<int>)
    requires Indexes(bucket, rows, formId) && Bounded(bucket, rank, bound)
    ensures forall x :: x in Entry(bucket, parent) ==>
      && x.field.parentId == parent
      && Height(rank, bound, x.id) < if parent.Some? then Height(rank, bound, parent.value) else bound + 1
  {
  }

  lemma SameOrder(items: seq<Item>, outs: seq<FieldOut>)
    requires |items| == |outs| && forall k :: 0 <= k < |outs| ==> Item(outs[k].id, outs[k].field) == items[k]
    requires forall j, k :: 0 <= j < k < |items| ==>
      || items[j].field.orderIndex < items[k].field.orderIndex
      || (items[j].field.orderIndex == items[k].field.orderIndex && items[j].id < items[k].id)
    ensures forall j, k :: 0 <= j < k < |outs| ==>
      || outs[j].field.orderIndex < outs[k].field.orderIndex
      || (outs[j].field.orderIndex == outs[k].field.orderIndex && outs[j].id < outs[k].id)
  {
  }

  lemma OrderedItems(bucket: Bucket, rows: Rows, formId: int, parent: Option<int>)
    requires Indexes(bucket, rows, formId)
    ensures var items := Entry(bucket, parent);
      forall j, k :: 0 <= j < k < |items| ==>
        || items[j].field.orderIndex < items[k].field.orderIndex
        || (items[j].field.orderIndex == items[k].field.orderIndex && items[j].id < items[k].id)
  {
    var items := Entry(bucket, parent);
    forall j, k | 0 <= j < k < |items| ensures Before(items[j], items[k]) && items[j].id != items[k].id {
      assert items[j] in items && items[k] in items;
    }
  }

  lemma {:induction false} RenderAllAt(
    bucket: Bucket, rank: map<int, nat>, bound: nat, parent: Option<int>, items: seq<Item>)
    requires Bounded(bucket, rank, bound) && forall x :: x in items ==> x in Entry(bucket, parent)
    ensures var outs := RenderAll(parent, items, bucket, rank, bound);
      forall k :: 0 <= k < |items| ==> outs[k] == Render(items[k], bucket, rank, bound)
    decreases |items|
  {
    if items != [] {
      RenderAllAt(bucket, rank, bound, parent, items[1..]);
    }
  }

  /** to_form_out: the top-level fields rendered from the bucket. */
  function RenderForm(bucket: Bucket, ghost rank: map<int, nat>, ghost bound: nat): seq<FieldOut>
    requires Bounded(bucket, rank, bound)
  {
    RenderAll(None, Entry(bucket, None), bucket, rank, bound)
  }

  /**
   Rendering a form of a forest: the rows of the rendered tree are a permutation of the
   form's rows, each under its own parent, siblings by (order_index, id).
   */
  lemma RenderFormCorrect(
    bucket: Bucket, fields: seq<Item>, rows: Rows, formId: int, rank: map<int, nat>, bound: nat)
    requires Forest(rows) && Lists(fields, rows, formId) && IsBucketOf(bucket, fields)
    requires Ranked(rows, rank) && Bounded(bucket, rank, bound)
    ensures var outs := RenderForm(bucket, rank, bound);
      multiset(FlattenAll(outs)) == multiset(fields) && WellNested(outs, None)
  {
    IndexesOf(bucket, fields, rows, formId);
    var tops := Entry(bucket, None);
    FlattenRenderAll(bucket, rows, formId, rank, bound, None, tops);
    RenderNests(bucket, rows, formId, rank, bound, None);
    var flat := FlattenAll(RenderForm(bucket, rank, bound));
    forall x ensures x in flat <==> x in fields {
      AllHangUnderTops(bucket, rows, formId, rank, bound, x);
      assert x in fields <==> OfForm(x, rows, formId);
    }
    SameElementsPermute(flat, fields);
  }

  lemma AllHangUnderTops(bucket: Bucket, rows: Rows, formId: int, rank: map<int, nat>, bound: nat, x: Item)
    requires Rendering(bucket, rows, formId, rank, bound)
    ensures UnderItems(Entry(bucket, None), rows, x) <==> OfForm(x, rows, formId)
  {
    var top := Slot(formId, None);
    if OfForm(x, rows, formId) {
      FormIsTopSubtree(rows, rank, x.id);
      var c := TopmostUnder(rows, rank, top, x.id);
      assert Item(c, rows[c]) in Entry(bucket, None) && UnderItem(Item(c, rows[c]), rows, x);
    }
    if UnderItems(Entry(bucket, None), rows, x) {
      var c :| c in Entry(bucket, None) && UnderItem(c, rows, x);
      BelowChild(rows, rank, top, c.id, x.id);
      BelowRank(rows, rank, top, x.id);
    }
  }

  // ---- Rendering what was synchronised ----

  /** Among siblings the effective order_index rises with the position, at every depth. */
  ghost predicate Increasing(ps: seq<Node>)
    decreases ps
  {
    && (forall j, k :: 0 <= j < k < |ps| ==>
          (if ps[j].orderIndex.Some? then ps[j].orderIndex.value else j)
            < if ps[k].orderIndex.Some? then ps[k].orderIndex.value else k)
    && forall k :: 0 <= k < |ps| ==> Increasing(ps[k].subFields)
  }

  /** The rendered trees are the payload trees, node for node and in order. */
  ghost predicate Reads(outs: seq<FieldOut>, ps: seq<Node>)
    decreases ps
  {
    && |outs| == |ps|
    && forall k :: 0 <= k < |ps| ==> Agrees(outs[k].field, ps[k], k) && Reads(outs[k].subFields, ps[k].subFields)
  }

  /** The children of a matched container, read off in payload order. */
  ghost function InPayloadOrder(rows: Rows, slot: Slot, ps: seq<Node>): (items: seq<Item>)
    requires Matches(rows, slot, ps) && Increasing(ps)
    requires forall j, k :: 0 <= j < k < |ps| ==> ps[j].key != ps[k].key
    ensures |items| == |ps|
    ensures forall k :: 0 <= k < |ps| ==>
      && items[k].id in Children(rows, slot) && items[k].field == rows[items[k].id]
      && RealisedBy(rows, slot, ps[k], k, items[k].id)
  {
    assert forall k :: 0 <= k < |ps| ==> Last(ps, |ps|, k);
    assert forall k :: 0 <= k < |ps| ==> Realised(rows, slot, ps[k], k);
    seq(|ps|, k requires 0 <= k < |ps| && Realised(rows, slot, ps[k], k) => RealisingItem(rows, slot, ps[k], k))
  }

  ghost function RealisingItem(rows: Rows, slot: Slot, node: Node, k: nat): (item: Item)
    requires Realised(rows, slot, node, k)
    ensures item.id in Children(rows, slot) && item.field == rows[item.id] && RealisedBy(rows, slot, node, k, item.id)
  {
    var i :| i in Children(rows, slot) && RealisedBy(rows, slot, node, k, i);
    Item(i, rows[i])
  }

  lemma EntryOrdered(bucket: Bucket, rows: Rows, formId: int, parent: Option<int>)
    requires Indexes(bucket, rows, formId)
    ensures Sorted(Before, Entry(bucket, parent)) && Distinct(Entry(bucket, parent))
    ensures Decides(Before, Entry(bucket, parent))
  {
  }

  lemma SameSorted(a: seq<Item>, b: seq<Item>)
    requires Sorted(Before, a) && Distinct(a) && Sorted(Before, b) && Distinct(b) && Decides(Before, a)
    requires forall x :: x in a <==> x in b
    ensures a == b
  {
    SameElementsPermute(a, b);
    BeforeIsTotal();
    SortedUnique(Before, a, b);
  }

  /** The children of a container that realise a payload, in its order, are the container's bucket entry. */
  lemma RealisedIsEntry(
    bucket: Bucket, rows: Rows, formId: int, parent: Option<int>, ps: seq<Node>, items: seq<Item>)
    requires Indexes(bucket, rows, formId) && KeysUnique(rows) && Increasing(ps)
    requires Realises(rows, Slot(formId, parent), ps, items)
    requires forall i :: i in Children(rows, Slot(formId, parent)) ==> HasKey(ps, rows[i].key)
    ensures Entry(bucket, parent) == items
  {
    hide Indexes;
    hide KeysUnique;
    hide Increasing;
    hide Realises;
    hide HasKey;
    EntryOrdered(bucket, rows, formId, parent);
    PayloadOrderSorted(rows, Slot(formId, parent), ps, items);
    forall x ensures x in Entry(bucket, parent) <==> x in items {
      SameChildItems(bucket, rows, formId, parent, ps, items, x);
    }
    SameSorted(Entry(bucket, parent), items);
  }

  /** The bucket lists a matched container's children in payload order. */
  lemma EntryInPayloadOrder(bucket: Bucket, rows: Rows, formId: int, parent: Option<int>, ps: seq<Node>)
    requires Indexes(bucket, rows, formId) && KeysUnique(rows)
    requires Matches(rows, Slot(formId, parent), ps) && Increasing(ps)
    requires forall j, k :: 0 <= j < k < |ps| ==> ps[j].key != ps[k].key
    ensures Entry(bucket, parent) == InPayloadOrder(rows, Slot(formId, parent), ps)
  {
    RealisedIsEntry(bucket, rows, formId, parent, ps, InPayloadOrder(rows, Slot(formId, parent), ps));
  }

  ghost predicate Realises(rows: Rows, slot: Slot, ps: seq<Node>, items: seq<Item>) {
    && |items| == |ps|
    && forall k :: 0 <= k < |ps| ==>
      && items[k].id in Children(rows, slot) && items[k].field == rows[items[k].id]
      && RealisedBy(rows, slot, ps[k], k, items[k].id)
  }

  lemma PayloadOrderSorted(rows: Rows, slot: Slot, ps: seq<Node>, items: seq<Item>)
    requires Realises(rows, slot, ps, items) && Increasing(ps)
    ensures Sorted(Before, items) && Distinct(items)
  {
    forall j, k | 0 <= j < k < |items| ensures items[j].field.orderIndex < items[k].field.orderIndex {
      assert RealisedBy(rows, slot, ps[j], j, items[j].id) && RealisedBy(rows, slot, ps[k], k, items[k].id);
    }
  }

  lemma SameChildItems(
    bucket: Bucket, rows: Rows, formId: int, parent: Option<int>, ps: seq<Node>, items: seq<Item>, x: Item)
    requires Indexes(bucket, rows, formId) && KeysUnique(rows)
    requires Realises(rows, Slot(formId, parent), ps, items)
    requires forall i :: i in Children(rows, Slot(formId, parent)) ==> HasKey(ps, rows[i].key)
    ensures x in Entry(bucket, parent) <==> x in items
  {
    if x in Entry(bucket, parent) {
      assert x.id in Children(rows, Slot(formId, parent));
      var k :| 0 <= k < |ps| && ps[k].key == rows[x.id].key;
      assert RealisedBy(rows, Slot(formId, parent), ps[k], k, items[k].id);
      assert items[k] == x;
    }
  }

  /**
   Round trip: after a synchronisation whose siblings have distinct keys and rising order,
   rendering gives the payload back.
   */
  lemma {:induction false} RenderReadsPayload(
    bucket: Bucket, rows: Rows, formId: int, rank: map<int, nat>, bound: nat, parent: Option<int>, ps: seq<Node>)
    requires Rendering(bucket, rows, formId, rank, bound) && KeysUnique(rows)
    requires Matches(rows, Slot(formId, parent), ps) && Increasing(ps) && SiblingsDistinct(ps)
    ensures Reads(RenderAll(parent, Entry(bucket, parent), bucket, rank, bound), ps)
    decreases ps
  {
    var entry := Entry(bucket, parent);
    EntryInPayloadOrder(bucket, rows, formId, parent, ps);
    RenderAllAt(bucket, rank, bound, parent, entry);
    var outs := RenderAll(parent, entry, bucket, rank, bound);
    forall k | 0 <= k < |ps| ensures Agrees(outs[k].field, ps[k], k) && Reads(outs[k].subFields, ps[k].subFields) {
      assert RealisedBy(rows, Slot(formId, parent), ps[k], k, entry[k].id);
      RenderReadsPayload(bucket, rows, formId, rank, bound, Some(entry[k].id), ps[k].subFields);
    }
  }
}
