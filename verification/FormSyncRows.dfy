/** Which rows a synchronised payload ends up in, and what they hold where the payload says nothing. */
module FormSyncRows {
  import opened Prelude
  import opened FormStore
  import opened FormSync
  import opened FormSyncTheory
  import opened FormSyncRuns
  import opened FormSyncKeys
  import opened FormSyncOutcome

  /** The columns the node does not supply are as they were. */
  ghost predicate RestKept(before: Field, after: Field, node: Node) {
    forall c :: c !in node.values ==>
      (c in after.values <==> c in before.values) && (c in before.values ==> after.values[c] == before.values[c])
  }

  /** The row of a node: the child that had its key, or a new row where no child had it. */
  ghost predicate HandedRow(old_: Rows, row: Field, slot: Slot, node: Node, i: int) {
    if i in old_ then i in Children(old_, slot) && old_[i].key == node.key && RestKept(old_[i], row, node)
    else Defaulted(row, node) && forall a :: a in Children(old_, slot) ==> old_[a].key != node.key
  }

  /**
   At every depth, a node whose key a child of its container had is in that child's row, with the columns it does
   not supply as they were; any other node is in a new row with the defaults.
   */
  ghost predicate Handed(old_: Rows, new_: Rows, slot: Slot, ps: seq<Node>)
    decreases ps
  {
    forall k, i :: 0 <= k < |ps| && i in Children(new_, slot) && new_[i].key == ps[k].key ==>
      HandedNode(old_, new_, slot, ps[k], i)
  }

  ghost predicate HandedNode(old_: Rows, new_: Rows, slot: Slot, node: Node, i: int)
    requires i in new_
    decreases node, 0
  {
    HandedRow(old_, new_[i], slot, node, i) && Handed(old_, new_, Inner(slot, i), node.subFields)
  }

  // ---- Changes elsewhere ----

  lemma {:induction false} HandedStable(old_: Rows, x: Rows, y: Rows, slot: Slot, ps: seq<Node>)
    requires Tree(x) && Tree(y) && Untouched(x, y, slot) && Handed(old_, x, slot, ps)
    ensures Handed(old_, y, slot, ps)
    decreases ps
  {
    forall k, i | 0 <= k < |ps| && i in Children(y, slot) && y[i].key == ps[k].key
      ensures HandedNode(old_, y, slot, ps[k], i)
    {
      UntouchedChildren(x, y, slot, i);
      UntouchedInner(x, y, slot, i);
      assert HandedNode(old_, x, slot, ps[k], i);
      HandedStable(old_, x, y, Inner(slot, i), ps[k].subFields);
    }
  }

  lemma HandedNodeStable(old_: Rows, x: Rows, y: Rows, slot: Slot, node: Node, i: int)
    requires Tree(x) && Tree(y) && i in x && i in y && x[i] == y[i] && Untouched(x, y, Inner(slot, i))
    requires HandedNode(old_, x, slot, node, i)
    ensures HandedNode(old_, y, slot, node, i)
  {
    HandedStable(old_, x, y, Inner(slot, i), node.subFields);
  }

  lemma NothingUnder(rows: Rows, slot: Slot, i: int)
    requires Tree(rows) && slot.parentId.Some? && slot.parentId.value !in rows
    ensures !Below(rows, slot, i)
  {
    if Below(rows, slot, i) {
      InnerIsChild(rows, slot, i);
    }
  }

  lemma NothingShared(b: Rows, f: Rows, slot: Slot)
    requires Tree(b) && Tree(f) && slot.parentId.Some? && slot.parentId.value !in b && slot.parentId.value !in f
    ensures Untouched(b, f, slot)
  {
    forall i ensures !Below(b, slot, i) && !Below(f, slot, i) {
      NothingUnder(b, slot, i);
      NothingUnder(f, slot, i);
    }
  }

  /** The subtree may as well be compared with an earlier table in which it was the same. */
  lemma {:induction false} HandedFrom(b: Rows, f: Rows, g: Rows, slot: Slot, ps: seq<Node>)
    requires Tree(b) && Tree(f) && Untouched(b, f, slot) && forall i :: i in g && i !in f ==> i !in b
    requires Handed(f, g, slot, ps)
    ensures Handed(b, g, slot, ps)
    decreases ps
  {
    forall k, i | 0 <= k < |ps| && i in Children(g, slot) && g[i].key == ps[k].key
      ensures HandedNode(b, g, slot, ps[k], i)
    {
      assert HandedNode(f, g, slot, ps[k], i);
      forall a ensures a in Children(b, slot) <==> a in Children(f, slot)
        ensures a in Children(b, slot) ==> b[a] == f[a]
      {
        UntouchedChildren(b, f, slot, a);
      }
      if i in f {
        UntouchedInner(b, f, slot, i);
      } else {
        NothingShared(b, f, Inner(slot, i));
      }
      HandedFrom(b, f, g, Inner(slot, i), ps[k].subFields);
    }
  }

  // ---- One node ----

  lemma OverwriteKeepsRest(row: Field, slot: Slot, node: Node, index: nat)
    ensures RestKept(row, Overwrite(row, slot, node, index), node)
  {
  }

  /** The row a node is written to. */
  lemma WrittenRow(
    base: Session, s: Session, f: Session, slot: Slot, existing: map<string, int>, ps: seq<Node>, k: nat, c: int)
    requires k < |ps| && Reached(base, s, slot, existing, ps, k) && c == WrittenId(s, existing, ps[k])
    requires Flush(Write(s, slot, existing, ps[k], k)) == Ok(f) && !HasKey(ps[..k], ps[k].key)
    ensures c in f.live && HandedRow(base.live, f.live[c], slot, ps[k], c)
  {
    hide Progress;
    hide Overwrite;
    hide NewField;
    hide RestKept;
    hide Defaulted;
    hide HasKey;
    WrittenChild(base, s, slot, existing, ps, k, c);
    if c in s.live {
      OverwriteKeepsRest(s.live[c], slot, ps[k], k);
    } else {
      NewFieldHolds(slot, ps[k], k);
    }
    WrittenRowIs(base, s, slot, existing, ps, k, c);
  }

  lemma WrittenRowIs(
    base: Session, s: Session, slot: Slot, existing: map<string, int>, ps: seq<Node>, k: nat, c: int)
    requires k < |ps| && Reached(base, s, slot, existing, ps, k) && c == WrittenId(s, existing, ps[k])
    requires !HasKey(ps[..k], ps[k].key)
    ensures var w := Write(s, slot, existing, ps[k], k).live;
      && c in w && w[c] == (if c in s.live then Overwrite(s.live[c], slot, ps[k], k) else NewField(slot, ps[k], k))
      && (c in s.live ==> c in base.live && s.live[c] == base.live[c])
  {
    hide Overwrite;
    hide NewField;
    hide HasKey;
    WrittenChild(base, s, slot, existing, ps, k, c);
  }

  /** The nodes up to k are handed down. */
  ghost predicate HandedSoFar(old_: Rows, new_: Rows, slot: Slot, ps: seq<Node>, k: nat)
    requires k <= |ps|
  {
    forall j, i :: 0 <= j < k && i in Children(new_, slot) && new_[i].key == ps[j].key ==>
      HandedNode(old_, new_, slot, ps[j], i)
  }

  lemma OwnNodeHanded(
    base: Session, s: Session, f: Session, g: Session, slot: Slot, existing: map<string, int>, ps: seq<Node>, k: nat,
    c: int)
    requires k < |ps| && Reached(base, s, slot, existing, ps, k) && c == WrittenId(s, existing, ps[k])
    requires Flush(Write(s, slot, existing, ps[k], k)) == Ok(f) && !HasKey(ps[..k], ps[k].key)
    requires Flushed(base, s, f, slot, ps[k], c) && Synced(f, g, Inner(slot, c), ps[k].subFields)
    requires Handed(f.live, g.live, Inner(slot, c), ps[k].subFields) && f.Coherent()
    ensures c in g.live && HandedNode(base.live, g.live, slot, ps[k], c)
  {
    hide Reached;
    hide Handed;
    hide HandedRow;
    hide Flush;
    hide Write;
    hide Matches;
    hide HasKey;
    TreeBefore(base, s, slot, existing, ps, k);
    WrittenRow(base, s, f, slot, existing, ps, k, c);
    ChildrenKept(f.live, g.live, slot, c, c);
    OldIds(base, s, f, g, slot, existing, ps, k, c);
    HandedFrom(base.live, f.live, g.live, Inner(slot, c), ps[k].subFields);
  }

  lemma OldIds(
    base: Session, s: Session, f: Session, g: Session, slot: Slot, existing: map<string, int>, ps: seq<Node>, k: nat,
    c: int)
    requires k < |ps| && Reached(base, s, slot, existing, ps, k)
    requires Flushed(base, s, f, slot, ps[k], c) && FreshIds(f, g)
    ensures forall i :: i in g.live && i !in f.live ==> i !in base.live
  {
    hide Told;
    hide Progress;
    assert forall i :: i in base.live ==> i in base.Visible();
  }

  /** A node done earlier is not disturbed. */
  lemma EarlierNodeHanded(
    s: Session, f: Session, g: Session, old_: Rows, slot: Slot, c: int, node: Node, i: int)
    requires Tree(s.live) && Tree(f.live) && Tree(g.live) && OnlyChildWritten(s.live, f.live, slot, c)
    requires Carries(f.live, g.live, Inner(slot, c)) && i in Children(g.live, slot) && i != c
    requires i in Children(s.live, slot) && s.live[i] == g.live[i] ==> HandedNode(old_, s.live, slot, node, i)
    ensures HandedNode(old_, g.live, slot, node, i)
  {
    hide Handed;
    hide HandedRow;
    hide Below;
    ChildrenKept(f.live, g.live, slot, c, i);
    ChildSyncConfined(f.live, g.live, slot, c);
    WrittenConfined(s.live, f.live, slot, c);
    UntouchedTransitive(s.live, f.live, g.live, Inner(slot, i));
    HandedNodeStable(old_, s.live, g.live, slot, node, i);
  }

  lemma OneMoreHanded(
    base: Session, s: Session, f: Session, g: Session, slot: Slot, existing: map<string, int>, ps: seq<Node>, k: nat,
    c: int)
    requires k < |ps| && Reached(base, s, slot, existing, ps, k) && c == WrittenId(s, existing, ps[k])
    requires Flush(Write(s, slot, existing, ps[k], k)) == Ok(f) && KeysDistinct(ps)
    requires Flushed(base, s, f, slot, ps[k], c) && Synced(f, g, Inner(slot, c), ps[k].subFields)
    requires Handed(f.live, g.live, Inner(slot, c), ps[k].subFields) && f.Coherent()
    requires HandedSoFar(base.live, s.live, slot, ps, k)
    ensures HandedSoFar(base.live, g.live, slot, ps, k + 1)
  {
    hide Reached;
    hide Handed;
    hide HandedNode;
    hide Flush;
    hide Write;
    hide Matches;
    hide HasKey;
    hide KeysDistinct;
    hide Below;
    KeysSoFar(ps, k, ps[k].key);
    TreeBefore(base, s, slot, existing, ps, k);
    OwnNodeHanded(base, s, f, g, slot, existing, ps, k, c);
    ChildrenKept(f.live, g.live, slot, c, c);
    forall j, i | 0 <= j < k + 1 && i in Children(g.live, slot) && g.live[i].key == ps[j].key
      ensures HandedNode(base.live, g.live, slot, ps[j], i)
    {
      SameNode(ps, j, k);
      if i == c {
        assert j == k;
      } else {
        KeyOnce(g, slot, c, i);
        EarlierNodeHanded(s, f, g, base.live, slot, c, ps[j], i);
      }
    }
  }

  lemma KeyOnce(g: Session, slot: Slot, c: int, i: int)
    requires Sound(g) && c in Children(g.live, slot) && i in Children(g.live, slot) && i != c
    ensures g.live[i].key != g.live[c].key
  {
  }

  // ---- The whole container ----

  /** Marking the obsolete children leaves the others' rows handed down. */
  lemma EndHanded(base: Session, t: Session, slot: Slot, existing: map<string, int>, ps: seq<Node>)
    requires Reached(base, t, slot, existing, ps, |ps|) && HandedSoFar(base.live, t.live, slot, ps, |ps|)
    ensures Handed(base.live, Doom(t, Obsolete(existing, ps)).live, slot, ps)
  {
    hide HandedNode;
    hide Told;
    hide Sound;
    hide Matches;
    hide Below;
    hide SubtreesOf;
    var tops := Obsolete(existing, ps);
    var left := t.live - SubtreesOf(t.live, tops);
    assert Tree(t.live) && tops <= Children(t.live, slot) by {
      TreeBefore(base, t, slot, existing, ps, |ps|);
    }
    RemovalKeepsTree(t.live, tops);
    forall k, i | 0 <= k < |ps| && i in Children(left, slot) && left[i].key == ps[k].key
      ensures HandedNode(base.live, left, slot, ps[k], i)
    {
      assert HandedNode(base.live, t.live, slot, ps[k], i);
      NamedNotObsolete(t.live, slot, existing, ps, k, i);
      RemovalSparesSibling(t.live, tops, slot, i);
      HandedNodeStable(base.live, t.live, left, slot, ps[k], i);
    }
  }

  lemma NamedNotObsolete(rows: Rows, slot: Slot, existing: map<string, int>, ps: seq<Node>, k: nat, i: int)
    requires k < |ps| && Current(rows, slot, existing) && i in Children(rows, slot) && rows[i].key == ps[k].key
    ensures i !in Obsolete(existing, ps)
  {
  }

  /**
   Whenever a synchronisation goes through, the children a payload without repeated sibling keys names stay in
   their rows, at every depth, with the columns it does not supply as they were; the other nodes get new rows.
   */
  lemma SyncHandsDown(s: Session, slot: Slot, ps: seq<Node>, end: Session)
    requires Sound(s) && s.doomed == map[] && SlotOk(s.live, slot) && SiblingsDistinct(ps)
    requires SyncChildren(s, slot, ps) == Ok(end)
    ensures Handed(s.live, end.live, slot, ps)
  {
    hide SyncChildren;
    hide Matches;
    hide Handed;
    SyncChildrenCorrect(s, slot, ps, end);
    RealisedOnce(end.live, slot, ps);
    SyncHanded(s, slot, ps, end);
  }

  lemma {:induction false} SyncHanded(s: Session, slot: Slot, ps: seq<Node>, end: Session)
    requires Sound(s) && s.doomed == map[] && SlotOk(s.live, slot) && KeysDistinct(ps)
    requires SyncChildren(s, slot, ps) == Ok(end)
    ensures Handed(s.live, end.live, slot, ps)
    decreases ps, |ps| + 1
  {
    hide Reached;
    hide Doom;
    hide Obsolete;
    hide Handed;
    hide HandedNode;
    hide KeysDistinct;
    hide SlotOk;
    var existing := ExistingByKey(s.Visible(), slot);
    StartsReached(s, slot, existing, ps);
    SyncNodesHanded(s, s, slot, existing, ps, 0);
    EndHanded(s, SyncNodes(s, slot, existing, ps, 0).value, slot, existing, ps);
  }

  lemma {:induction false} SyncNodesHanded(
    base: Session, s: Session, slot: Slot, existing: map<string, int>, ps: seq<Node>, k: nat)
    requires k <= |ps| && Reached(base, s, slot, existing, ps, k) && s.Coherent() && KeysDistinct(ps)
    requires HandedSoFar(base.live, s.live, slot, ps, k)
    requires SyncNodes(s, slot, existing, ps, k).Ok?
    ensures var end := SyncNodes(s, slot, existing, ps, k).value;
      Reached(base, end, slot, existing, ps, |ps|) && HandedSoFar(base.live, end.live, slot, ps, |ps|)
    decreases ps, |ps| - k
  {
    hide SyncChildren;
    hide Reached;
    hide HandedSoFar;
    hide Handed;
    hide Flushed;
    hide Free;
    hide Clear;
    hide KeysDistinct;
    hide Supplied;
    hide Settled;
    hide Synced;
    hide Sound;
    hide SlotOk;
    hide Write;
    hide Flush;
    if k < |ps| {
      var c := WrittenId(s, existing, ps[k]);
      var f := Flush(Write(s, slot, existing, ps[k], k)).value;
      NodeReady(base, s, f, slot, existing, ps, k, c);
      var inner := Inner(slot, c);
      assert f.Coherent() by { SoundCoherent(f); }
      var g := SyncChildren(f, inner, ps[k].subFields).value;
      SyncOutcome(f, inner, ps[k].subFields);
      SyncChildrenCorrect(f, inner, ps[k].subFields, g);
      SyncHanded(f, inner, ps[k].subFields, g);
      OneMoreHanded(base, s, f, g, slot, existing, ps, k, c);
      NodeDone(base, s, f, g, slot, existing, ps, k, c);
      SyncNodesHanded(base, g, slot, existing, ps, k + 1);
    }
  }

  lemma SoundCoherent(s: Session)
    requires Sound(s)
    ensures s.Coherent()
  {
  }
}
