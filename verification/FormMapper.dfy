/** Rendering a form's flat list of fields as a tree through a bucket index. */
module FormMapper {
  import opened Prelude
  import opened Ordering
  import opened FormStore

  /** A row with its id, as the field list holds it. */
  datatype Item = Item(id: int, field: Field)

  datatype FieldOut = FieldOut(id: int, field: Field, subFields: seq<FieldOut>)

  type Bucket = map<Option<int>, seq<Item>>

  /** Field order: order_index, then id. */
  predicate Before(a: Item, b: Item) {
    a.field.orderIndex < b.field.orderIndex || (a.field.orderIndex == b.field.orderIndex && a.id <= b.id)
  }

  function WithParent(items: seq<Item>, parent: Option<int>): seq<Item> {
    if items == [] then [] else IfUnder(items[0], parent) + WithParent(items[1..], parent)
  }

  function IfUnder(item: Item, parent: Option<int>): seq<Item> {
    if item.field.parentId == parent then [item] else []
  }

  lemma {:induction false} WithParentAppend(a: seq<Item>, b: seq<Item>, parent: Option<int>)
    ensures WithParent(a + b, parent) == WithParent(a, parent) + WithParent(b, parent)
  {
    if a == [] {
      assert a + b == b;
    } else {
      hide IfUnder;
      assert (a + b)[1..] == a[1..] + b && (a + b)[0] == a[0];
      WithParentAppend(a[1..], b, parent);
      var first, rest, more := IfUnder(a[0], parent), WithParent(a[1..], parent), WithParent(b, parent);
      assert first + (rest + more) == (first + rest) + more;
    }
  }

  lemma {:induction false} WithParentMembers(items: seq<Item>, parent: Option<int>, x: Item)
    ensures x in WithParent(items, parent) <==> x in items && x.field.parentId == parent
  {
    if items != [] {
      WithParentMembers(items[1..], parent, x);
      assert x in items <==> x == items[0] || x in items[1..];
    }
  }

  function Entry(bucket: Bucket, parent: Option<int>): seq<Item> {
    if parent in bucket then bucket[parent] else []
  }

  lemma BucketStep(bucket: Bucket, done: seq<Item>, item: Item, q: Option<int>)
    requires Entry(bucket, q) == WithParent(done, q)
    ensures var p := item.field.parentId;
      Entry(bucket[p := Entry(bucket, p) + [item]], q) == WithParent(done + [item], q)
  {
    WithParentAppend(done, [item], q);
    assert WithParent([item], q) == IfUnder(item, q) + WithParent([], q);
  }

  /** Group the sorted fields by parent. */
  method BuildFieldBucket(fields: seq<Item>) returns (bucket: Bucket)
    ensures forall p :: Entry(bucket, p) == WithParent(Sort(Before, fields), p)
  {
    var sorted := Sort(Before, fields);
    bucket := map[];
    for k := 0 to |sorted|
      invariant forall p :: Entry(bucket, p) == WithParent(sorted[..k], p)
    {
      var p := sorted[k].field.parentId;
      ghost var before := bucket;
      bucket := bucket[p := Entry(bucket, p) + [sorted[k]]];
      assert sorted[..k + 1] == sorted[..k] + [sorted[k]];
      forall q ensures Entry(bucket, q) == WithParent(sorted[..k + 1], q) {
        BucketStep(before, sorted[..k], sorted[k], q);
      }
    }
    assert sorted[..|sorted|] == sorted;
  }

  /** The bucket index of a forest's fields: entries hold the rows hanging under their key. */
  ghost predicate Indexes(bucket: Bucket, rows: Rows, formId: int) {
    && (forall p, x :: x in Entry(bucket, p) <==>
         x.id in rows && x.field == rows[x.id] && x.field.Home() == Slot(formId, p))
    && (forall p :: Sorted(Before, Entry(bucket, p)) && Distinct(Entry(bucket, p)))
  }

  // ---- Rendering ----

  ghost function Height(rank: map<int, nat>, bound: nat, id: int): nat {
    if id in rank && rank[id] <= bound then bound - rank[id] else 0
  }

  /** Ranks rise towards the leaves and stay below the bound: rendering ends. */
  ghost predicate Bounded(bucket: Bucket, rank: map<int, nat>, bound: nat) {
    forall p, x :: x in Entry(bucket, p) ==>
      x.id in rank && rank[x.id] <= bound && (p.Some? ==> p.value in rank && rank[p.value] < rank[x.id])
  }

  function Render(item: Item, bucket: Bucket, ghost rank: map<int, nat>, ghost bound: nat): FieldOut
    requires Bounded(bucket, rank, bound)
    decreases Height(rank, bound, item.id), |Entry(bucket, Some(item.id))| + 1
  {
    FieldOut(item.id, item.field, RenderAll(Some(item.id), Entry(bucket, Some(item.id)), bucket, rank, bound))
  }

  function RenderAll(parent: Option<int>, items: seq<Item>, bucket: Bucket, ghost rank: map<int, nat>,
      ghost bound: nat): (r: seq<FieldOut>)
    requires Bounded(bucket, rank, bound)
    requires forall x :: x in items ==> x in Entry(bucket, parent)
    ensures |r| == |items|
    decreases if parent.Some? then Height(rank, bound, parent.value) else bound + 1, |items|
  {
    if items == [] then []
    else [Render(items[0], bucket, rank, bound)] + RenderAll(parent, items[1..], bucket, rank, bound)
  }

  /** The rows of a rendered tree, top first. */
  function Flatten(out: FieldOut): seq<Item> {
    [Item(out.id, out.field)] + FlattenAll(out.subFields)
  }

  function FlattenAll(outs: seq<FieldOut>): seq<Item> {
    if outs == [] then [] else Flatten(outs[0]) + FlattenAll(outs[1..])
  }
}
