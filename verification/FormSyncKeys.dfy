/**
 Exactly when a synchronisation meets no key of its payload that is still held: a row of the subtree keeps its
 key until the flush after the container that does not name it is done.
 */
module FormSyncKeys {
  import opened Prelude
  import opened FormStore
  import opened FormSync
  import opened FormSyncTheory
  import opened FormSyncRuns

  // ---- The condition, on the table before the synchronisation ----

  /** The row hangs under the container through the child a, or is a. */
  ghost predicate Under(rows: Rows, slot: Slot, a: int, r: int) {
    a in Children(rows, slot) && InSubtree(rows, a, r)
  }

  /**
   A row that the payload does not name still waits to be deleted when its container is done: one of the
   containers that end there does not name the child it hangs under.
   */
  ghost predicate Waits(rows: Rows, slot: Slot, ps: seq<Node>, r: int)
    decreases ps, 1
  {
    exists a :: Under(rows, slot, a, r) && WaitsUnder(rows, slot, ps, a, r)
  }

  ghost predicate WaitsUnder(rows: Rows, slot: Slot, ps: seq<Node>, a: int, r: int)
    requires a in rows
    decreases ps, 0
  {
    HasKey(ps, rows[a].key) ==>
      rows[a].key == ps[|ps| - 1].key && Waits(rows, Inner(slot, a), ps[|ps| - 1].subFields, r)
  }

  /**
   The row r, whose key the payload names, still holds it when the node with that key is written: r is outside
   the subtree, or hangs under a child that comes later or not at all, or that was done just before and left r
   waiting, or is in the way within the node's own container.
   */
  ghost predicate Blocks(rows: Rows, slot: Slot, ps: seq<Node>, r: int)
    requires r in rows
    decreases ps, 1
  {
    || !Below(rows, slot, r)
    || exists k, a :: 0 <= k < |ps| && rows[r].key in NodeKeys(ps[k]) && Under(rows, slot, a, r)
         && BlocksUnder(rows, slot, ps, k, a, r)
  }

  ghost predicate BlocksUnder(rows: Rows, slot: Slot, ps: seq<Node>, k: nat, a: int, r: int)
    requires k < |ps| && a in rows && r in rows
    decreases ps, 0
  {
    if rows[a].key == ps[k].key then
      rows[r].key != ps[k].key && Blocks(rows, Inner(slot, a), ps[k].subFields, r)
    else if k > 0 && HasKey(ps[..k], rows[a].key) then
      && rows[r].key == ps[k].key && rows[a].key == ps[k - 1].key
      && Waits(rows, Inner(slot, a), ps[k - 1].subFields, r)
    else true
  }

  /** No row of the form that holds one of the keys is in the way. */
  ghost predicate Clear(rows: Rows, slot: Slot, ps: seq<Node>, keys: set<string>) {
    forall r :: r in rows && rows[r].formId == slot.formId && rows[r].key in keys ==> !Blocks(rows, slot, ps, r)
  }

  /** No row of the form is in the way of a key of the payload. */
  ghost predicate Free(rows: Rows, slot: Slot, ps: seq<Node>) {
    Clear(rows, slot, ps, TreeKeys(ps))
  }

  // ---- The child a row hangs under ----

  lemma UnderOne(rows: Rows, slot: Slot, a: int, b: int, r: int)
    requires Tree(rows) && Under(rows, slot, a, r) && Under(rows, slot, b, r)
    ensures a == b
  {
    var rank :| Ranked(rows, rank);
    if a != b {
      SiblingsDisjoint(rows, rank, slot, a, b, r);
    }
  }

  lemma UnderIsBelow(rows: Rows, slot: Slot, a: int, r: int)
    requires Tree(rows) && Under(rows, slot, a, r)
    ensures Below(rows, slot, r) && (r != a ==> Below(rows, Inner(slot, a), r))
  {
    var rank :| Ranked(rows, rank);
    BelowChild(rows, rank, slot, a, r);
  }

  lemma ChildOver(rows: Rows, slot: Slot, r: int) returns (a: int)
    requires Tree(rows) && Below(rows, slot, r)
    ensures Under(rows, slot, a, r)
  {
    var rank :| Ranked(rows, rank);
    a := TopmostUnder(rows, rank, slot, r);
  }

  lemma WaitsAt(rows: Rows, slot: Slot, ps: seq<Node>, a: int, r: int)
    requires Tree(rows) && Under(rows, slot, a, r)
    ensures Waits(rows, slot, ps, r) <==> WaitsUnder(rows, slot, ps, a, r)
  {
    hide WaitsUnder;
    if b :| Under(rows, slot, b, r) && WaitsUnder(rows, slot, ps, b, r) {
      UnderOne(rows, slot, a, b, r);
    }
  }

  lemma OneNode(ps: seq<Node>, j: nat, k: nat, key: string)
    requires KeysDistinct(ps) && j < |ps| && k < |ps| && key in NodeKeys(ps[j]) && key in NodeKeys(ps[k])
    ensures j == k
  {
    assert forall x, y :: 0 <= x < y < |ps| ==> NodeKeys(ps[x]) !! NodeKeys(ps[y]);
  }

  lemma BlocksAt(rows: Rows, slot: Slot, ps: seq<Node>, k: nat, a: int, r: int)
    requires Tree(rows) && KeysDistinct(ps) && k < |ps| && r in rows && rows[r].key in NodeKeys(ps[k])
    requires Under(rows, slot, a, r)
    ensures a in rows && (Blocks(rows, slot, ps, r) <==> BlocksUnder(rows, slot, ps, k, a, r))
  {
    hide BlocksUnder;
    UnderIsBelow(rows, slot, a, r);
    if j, b :|
        0 <= j < |ps| && rows[r].key in NodeKeys(ps[j]) && Under(rows, slot, b, r)
        && BlocksUnder(rows, slot, ps, j, b, r) {
      OneNode(ps, j, k, rows[r].key);
      UnderOne(rows, slot, a, b, r);
    }
  }

  // ---- The condition only looks at the subtree ----

  lemma {:induction false} UntouchedBelow(old_: Rows, new_: Rows, rank: map<int, nat>, slot: Slot, r: int)
    requires ParentsOk(old_) && Ranked(old_, rank) && Untouched(old_, new_, slot) && Below(old_, slot, r)
    ensures Below(new_, slot, r)
    decreases rank[r]
  {
    assert Unchanged(old_, new_, r);
    BelowUnfold(old_, slot, r);
    BelowUnfold(new_, slot, r);
    if old_[r].Home() != slot {
      UntouchedBelow(old_, new_, rank, slot, old_[r].parentId.value);
    }
  }

  lemma UntouchedSym(old_: Rows, new_: Rows, slot: Slot)
    requires Untouched(old_, new_, slot)
    ensures Untouched(new_, old_, slot)
  {
    forall i | Below(new_, slot, i) || Below(old_, slot, i) ensures Unchanged(new_, old_, i) {
      assert Unchanged(old_, new_, i);
    }
  }

  lemma SameBelow(old_: Rows, new_: Rows, slot: Slot, r: int)
    requires Tree(old_) && Tree(new_) && Untouched(old_, new_, slot)
    ensures Below(old_, slot, r) <==> Below(new_, slot, r)
  {
    var rank :| Ranked(old_, rank);
    var rank' :| Ranked(new_, rank');
    UntouchedSym(old_, new_, slot);
    if Below(old_, slot, r) {
      UntouchedBelow(old_, new_, rank, slot, r);
    }
    if Below(new_, slot, r) {
      UntouchedBelow(new_, old_, rank', slot, r);
    }
  }

  lemma SameUnder(old_: Rows, new_: Rows, slot: Slot, a: int, r: int)
    requires Tree(old_) && Tree(new_) && Untouched(old_, new_, slot) && Under(old_, slot, a, r)
    ensures Under(new_, slot, a, r) && a in old_ && a in new_ && old_[a] == new_[a]
    ensures Untouched(old_, new_, Inner(slot, a))
  {
    UntouchedChildren(old_, new_, slot, a);
    UntouchedInner(old_, new_, slot, a);
    SameBelow(old_, new_, Inner(slot, a), r);
  }

  lemma {:induction false} WaitsStable(old_: Rows, new_: Rows, slot: Slot, ps: seq<Node>, r: int)
    requires Tree(old_) && Tree(new_) && Untouched(old_, new_, slot)
    ensures Waits(old_, slot, ps, r) <==> Waits(new_, slot, ps, r)
    decreases ps
  {
    UntouchedSym(old_, new_, slot);
    if a :| Under(old_, slot, a, r) {
      SameUnder(old_, new_, slot, a, r);
      WaitsAt(old_, slot, ps, a, r);
      WaitsAt(new_, slot, ps, a, r);
      if HasKey(ps, old_[a].key) {
        WaitsStable(old_, new_, Inner(slot, a), ps[|ps| - 1].subFields, r);
      }
    } else if a :| Under(new_, slot, a, r) {
      SameUnder(new_, old_, slot, a, r);
    }
  }

  lemma {:induction false} BlocksStable(old_: Rows, new_: Rows, slot: Slot, ps: seq<Node>, r: int)
    requires Tree(old_) && Tree(new_) && Untouched(old_, new_, slot) && KeysDistinct(ps)
    requires r in old_ && r in new_ && old_[r].key == new_[r].key && old_[r].key in TreeKeys(ps)
    ensures Blocks(old_, slot, ps, r) <==> Blocks(new_, slot, ps, r)
    decreases ps
  {
    SameBelow(old_, new_, slot, r);
    if Below(old_, slot, r) {
      var a := ChildOver(old_, slot, r);
      var k :| 0 <= k < |ps| && old_[r].key in NodeKeys(ps[k]);
      SameUnder(old_, new_, slot, a, r);
      BlocksAt(old_, slot, ps, k, a, r);
      BlocksAt(new_, slot, ps, k, a, r);
      if old_[a].key == ps[k].key {
        if old_[r].key != ps[k].key {
          BlocksStable(old_, new_, Inner(slot, a), ps[k].subFields, r);
        }
      } else if k > 0 && HasKey(ps[..k], old_[a].key) {
        WaitsStable(old_, new_, Inner(slot, a), ps[k - 1].subFields, r);
      }
    }
  }

  // ---- The keys of the nodes done so far ----

  lemma TreeKeysPush(ps: seq<Node>, node: Node)
    ensures TreeKeys(ps + [node]) == TreeKeys(ps) + NodeKeys(node)
  {
    hide NodeKeys;
    var all := ps + [node];
    forall key | key in TreeKeys(all) ensures key in TreeKeys(ps) + NodeKeys(node) {
      var j :| 0 <= j < |all| && key in NodeKeys(all[j]);
      if j < |ps| {
        assert all[j] == ps[j];
      }
    }
    forall key | key in TreeKeys(ps) + NodeKeys(node) ensures key in TreeKeys(all) {
      if key in TreeKeys(ps) {
        var j :| 0 <= j < |ps| && key in NodeKeys(ps[j]);
        assert all[j] == ps[j];
      } else {
        assert all[|ps|] == node;
      }
    }
  }

  lemma HasKeyPush(ps: seq<Node>, node: Node, key: string)
    ensures HasKey(ps + [node], key) <==> HasKey(ps, key) || key == node.key
  {
    var all := ps + [node];
    assert all[|ps|] == node;
    if HasKey(ps, key) {
      var j :| 0 <= j < |ps| && ps[j].key == key;
      assert all[j].key == key;
    }
  }

  lemma KeysBefore(ps: seq<Node>, k: nat, key: string)
    requires KeysDistinct(ps) && k < |ps| && key in NodeKeys(ps[k])
    ensures key !in TreeKeys(ps[..k])
  {
    hide NodeKeys;
    hide KeysDistinct;
    if key in TreeKeys(ps[..k]) {
      var j :| 0 <= j < k && key in NodeKeys(ps[..k][j]);
      OneNode(ps, j, k, key);
    }
  }

  lemma KeysSoFar(ps: seq<Node>, k: nat, key: string)
    requires KeysDistinct(ps) && k < |ps|
    ensures key in TreeKeys(ps[..k + 1]) <==>
      key in TreeKeys(ps[..k]) || key == ps[k].key || key in TreeKeys(ps[k].subFields)
    ensures key == ps[k].key || key in TreeKeys(ps[k].subFields) ==> key !in TreeKeys(ps[..k]) && key in NodeKeys(ps[k])
    ensures HasKey(ps[..k + 1], key) <==> HasKey(ps[..k], key) || key == ps[k].key
    ensures HasKey(ps[..k], key) ==> key in TreeKeys(ps[..k])
    ensures ps[k].key !in TreeKeys(ps[k].subFields)
  {
    hide TreeKeys;
    hide HasKey;
    assert ps[..k + 1] == ps[..k] + [ps[k]];
    TreeKeysPush(ps[..k], ps[k]);
    HasKeyPush(ps[..k], ps[k], key);
    if key in NodeKeys(ps[k]) {
      KeysBefore(ps, k, key);
    }
    if HasKey(ps[..k], key) {
      NamedIsTaken(ps, k, key);
    }
  }

  lemma NamedIsTaken(ps: seq<Node>, k: nat, key: string)
    requires k <= |ps| && HasKey(ps[..k], key)
    ensures key in TreeKeys(ps[..k])
  {
    var j :| 0 <= j < k && ps[j].key == key;
    assert ps[..k][j].key in NodeKeys(ps[..k][j]);
  }
}
