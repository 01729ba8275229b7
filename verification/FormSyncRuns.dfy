/** What a second synchronisation does, which keys a synchronisation leaves in use, and one way it fails. */
module FormSyncRuns {
  import opened Prelude
  import opened FormStore
  import opened FormSync
  import opened FormSyncTheory

  // ---- A second synchronisation with the same payload ----

  /** No two fields of one container share a key, at any depth. */
  ghost predicate SiblingsDistinct(ps: seq<Node>)
    decreases ps
  {
    && (forall j, k :: 0 <= j < k < |ps| ==> ps[j].key != ps[k].key)
    && forall k :: 0 <= k < |ps| ==> SiblingsDistinct(ps[k].subFields)
  }

  lemma OverwriteAgreeing(row: Field, slot: Slot, node: Node, index: nat)
    requires Agrees(row, node, index) && row.Home() == slot
    ensures Overwrite(row, slot, node, index) == row
  {
    assert row.values + node.values == row.values;
  }

  lemma RewriteIsIdentity(s: Session, slot: Slot, node: Node, k: nat, i: int)
    requires Sound(s) && s.doomed == map[]
    requires i in Children(s.live, slot) && Agrees(s.live[i], node, k)
    ensures var existing := ExistingByKey(s.Visible(), slot);
      Write(s, slot, existing, node, k) == s && WrittenId(s, existing, node) == i
  {
    assert s.Visible() == s.live;
    var existing := ExistingByKey(s.live, slot);
    assert s.live[i].key in existing && existing[node.key] == i;
    OverwriteAgreeing(s.live[i], slot, node, k);
    assert s.live[i := s.live[i]] == s.live;
  }

  lemma ChildRealising(rows: Rows, slot: Slot, ps: seq<Node>, k: nat) returns (i: int)
    requires k < |ps| && Matches(rows, slot, ps) && SiblingsDistinct(ps)
    ensures i in Children(rows, slot) && Agrees(rows[i], ps[k], k)
    ensures Matches(rows, Inner(slot, i), ps[k].subFields)
  {
    assert Last(ps, |ps|, k);
    assert Realised(rows, slot, ps[k], k);
    i :| i in Children(rows, slot) && RealisedBy(rows, slot, ps[k], k, i);
  }

  lemma FlushOfSound(s: Session)
    requires Sound(s) && s.doomed == map[]
    ensures Flush(s) == Ok(s)
  {
    assert s.Visible() == s.live;
  }

  lemma NothingObsolete(s: Session, slot: Slot, ps: seq<Node>)
    requires Sound(s) && s.doomed == map[] && Matches(s.live, slot, ps)
    ensures Doom(s, Obsolete(ExistingByKey(s.Visible(), slot), ps)) == s
  {
    assert s.Visible() == s.live;
    var existing := ExistingByKey(s.live, slot);
    var tops := Obsolete(existing, ps);
    forall key | key in existing ensures HasKey(ps, key) {
      assert existing[key] in Children(s.live, slot);
    }
    assert tops == {};
    assert SubtreesOf(s.live, tops) == {};
    assert Withdraw(s, {}) == s by {
      assert s.live - {} == s.live;
    }
  }

  /** On a subtree that already is the payload, synchronising changes nothing: same rows, same ids. */
  lemma {:induction false} SyncAgain(s: Session, slot: Slot, ps: seq<Node>)
    requires Sound(s) && s.doomed == map[] && Matches(s.live, slot, ps) && SiblingsDistinct(ps)
    ensures SyncChildren(s, slot, ps) == Ok(s)
    decreases ps, |ps| + 1
  {
    SyncNodesAgain(s, slot, ExistingByKey(s.Visible(), slot), ps, 0);
    NothingObsolete(s, slot, ps);
  }

  lemma {:induction false} SyncNodesAgain(s: Session, slot: Slot, existing: map<string, int>, ps: seq<Node>, k: nat)
    requires Sound(s) && s.doomed == map[] && Matches(s.live, slot, ps) && SiblingsDistinct(ps) && k <= |ps|
    requires existing == ExistingByKey(s.Visible(), slot)
    ensures SyncNodes(s, slot, existing, ps, k) == Ok(s)
    decreases ps, |ps| - k
  {
    hide Matches;
    hide Sound;
    hide Write;
    hide Flush;
    hide SyncChildren;
    hide ExistingByKey;
    if k < |ps| {
      var i := ChildRealising(s.live, slot, ps, k);
      RewriteIsIdentity(s, slot, ps[k], k, i);
      FlushOfSound(s);
      SyncAgain(s, Inner(slot, i), ps[k].subFields);
      SyncNodesAgain(s, slot, existing, ps, k + 1);
    }
  }

  // ---- The keys of a payload ----

  ghost function NodeKeys(node: Node): set<string>
    decreases node, 1
  {
    {node.key} + TreeKeys(node.subFields)
  }

  ghost function TreeKeys(ps: seq<Node>): set<string>
    decreases ps, 0
  {
    set k, key | 0 <= k < |ps| && key in NodeKeys(ps[k]) :: key
  }

  /** No key occurs twice anywhere in the payload. */
  ghost predicate KeysDistinct(ps: seq<Node>)
    decreases ps
  {
    && (forall j, k :: 0 <= j < k < |ps| ==> NodeKeys(ps[j]) !! NodeKeys(ps[k]))
    && forall k :: 0 <= k < |ps| ==> ps[k].key !in TreeKeys(ps[k].subFields) && KeysDistinct(ps[k].subFields)
  }

  /** The payload sets every NOT NULL column, as request models and seeds do. */
  ghost predicate Supplied(ps: seq<Node>)
    decreases ps
  {
    forall k :: 0 <= k < |ps| ==>
      && (forall c | c in {Label, Type, Required, Binding} :: c in ps[k].values && ps[k].values[c] != Null)
      && Supplied(ps[k].subFields)
  }

  /** Keys taken in the form, rows still waiting to be deleted included. */
  ghost function Used(s: Session, formId: int): set<string> {
    set i | i in s.Visible() && s.Visible()[i].formId == formId :: s.Visible()[i].key
  }

  lemma WriteUses(s: Session, slot: Slot, existing: map<string, int>, node: Node, k: nat, f: Session, formId: int)
    requires s.Coherent() && Flush(Write(s, slot, existing, node, k)) == Ok(f)
    ensures Used(f, formId) <= Used(s, formId) + {node.key}
  {
    var w := Write(s, slot, existing, node, k);
    WriteChangesOne(s, slot, existing, node, k);
    hide Write;
    forall key | key in Used(f, formId) ensures key in Used(s, formId) + {node.key} {
      var i :| i in f.Visible() && f.Visible()[i].formId == formId && f.Visible()[i].key == key;
      assert i in w.live && w.live[i].key == key;
      if key != node.key {
        LiveIsVisible(s, i);
      }
    }
  }

  lemma WriteChangesOne(s: Session, slot: Slot, existing: map<string, int>, node: Node, k: nat)
    ensures var w := Write(s, slot, existing, node, k);
      forall i :: i in w.live ==> w.live[i].key == node.key || (i in s.live && w.live[i] == s.live[i])
  {
  }

  lemma LiveIsVisible(s: Session, i: int)
    requires s.Coherent() && i in s.live
    ensures i in s.Visible() && s.Visible()[i] == s.live[i]
  {
  }

  lemma NodeKeysOfTree(ps: seq<Node>, k: nat)
    requires k < |ps|
    ensures ps[k].key in NodeKeys(ps[k]) && TreeKeys(ps[k].subFields) <= NodeKeys(ps[k]) <= TreeKeys(ps)
    ensures ps[k].key in TreeKeys(ps)
  {
  }

  /** Synchronising brings in no key but the payload's. */
  lemma {:induction false} SyncUses(s: Session, slot: Slot, ps: seq<Node>, end: Session, formId: int)
    requires s.Coherent() && SyncChildren(s, slot, ps) == Ok(end)
    ensures Used(end, formId) <= Used(s, formId) + TreeKeys(ps)
    decreases ps, |ps| + 1
  {
    var existing := ExistingByKey(s.Visible(), slot);
    var t := SyncNodes(s, slot, existing, ps, 0).value;
    SyncNodesUses(s, slot, existing, ps, 0, t, formId);
    WithdrawKeepsVisible(t, SubtreesOf(t.live, Obsolete(existing, ps)));
  }

  lemma {:induction false} SyncNodesUses(
    s: Session, slot: Slot, existing: map<string, int>, ps: seq<Node>, k: nat, end: Session, formId: int)
    requires s.Coherent() && k <= |ps| && SyncNodes(s, slot, existing, ps, k) == Ok(end)
    ensures Used(end, formId) <= Used(s, formId) + TreeKeys(ps)
    decreases ps, |ps| - k
  {
    hide SyncChildren;
    hide Used;
    hide TreeKeys;
    hide Write;
    hide NodeKeys;
    if k < |ps| {
      NodeKeysOfTree(ps, k);
      var f := Flush(Write(s, slot, existing, ps[k], k)).value;
      WriteUses(s, slot, existing, ps[k], k, f, formId);
      WriteCoherent(s, slot, existing, ps[k], k, f);
      var inner := Inner(slot, WrittenId(s, existing, ps[k]));
      var g := SyncChildren(f, inner, ps[k].subFields).value;
      SyncUses(f, inner, ps[k].subFields, g, formId);
      SyncNodesUses(g, slot, existing, ps, k + 1, end, formId);
    }
  }

  lemma WrittenInnerUntouched(old_: Rows, new_: Rows, slot: Slot, c: int)
    requires Tree(new_) && OnlyChildWritten(old_, new_, slot, c)
    requires c in old_ && Tree(old_)
    ensures Untouched(old_, new_, Inner(slot, c))
  {
    var rank :| Ranked(old_, rank);
    var rank' :| Ranked(new_, rank');
    NotUnderSibling(old_, rank, slot, c, c);
    NotUnderSibling(new_, rank', slot, c, c);
    forall x | Below(old_, Inner(slot, c), x) || Below(new_, Inner(slot, c), x) ensures Unchanged(old_, new_, x) {
      BelowUnfold(old_, Inner(slot, c), x);
      BelowUnfold(new_, Inner(slot, c), x);
    }
  }

  /** A write replaces one live row and leaves the doomed ones. */
  lemma WriteOutcome(s: Session, slot: Slot, existing: map<string, int>, node: Node, k: nat)
    requires Sound(s) && Current(s.live, slot, existing)
    ensures var w, c := Write(s, slot, existing, node, k), WrittenId(s, existing, node);
      && w.doomed == s.doomed && c in w.live && w.live == s.live[c := w.live[c]]
      && c !in s.doomed && w.live[c].formId == slot.formId && w.live[c].key == node.key
      && forall col :: col in node.values ==> col in w.live[c].values && w.live[c].values[col] == node.values[col]
  {
  }

  lemma WrittenComplete(s: Session, w: Session, c: int, node: Node)
    requires AllComplete(s.live) && c in w.live && w.live == s.live[c := w.live[c]]
    requires forall col | col in {Label, Type, Required, Binding} :: col in node.values && node.values[col] != Null
    requires forall col :: col in node.values ==> col in w.live[c].values && w.live[c].values[col] == node.values[col]
    ensures AllComplete(w.live)
  {
  }

  lemma WriteKeepsUnique(s: Session, w: Session, c: int)
    requires s.Coherent() && w.doomed == s.doomed && c in w.live && c !in s.doomed
    requires w.live == s.live[c := w.live[c]]
    requires forall i :: i in s.Visible() && i != c ==>
      s.Visible()[i].formId != w.live[c].formId || s.Visible()[i].key != w.live[c].key
    ensures KeysUnique(w.Visible())
  {
    forall i | i in w.Visible() && i != c ensures i in s.Visible() && s.Visible()[i] == w.Visible()[i] {
    }
    assert w.Visible()[c] == w.live[c];
  }

  /** In a subtree that is the payload, every key of the payload is held by a row of the subtree. */
  lemma {:induction false} PayloadKeyHeld(rows: Rows, slot: Slot, ps: seq<Node>, key: string) returns (i: int)
    requires Tree(rows) && Matches(rows, slot, ps) && SiblingsDistinct(ps) && key in TreeKeys(ps)
    ensures i in rows && Below(rows, slot, i) && rows[i].formId == slot.formId && rows[i].key == key
    decreases ps
  {
    hide Matches;
    hide Below;
    hide InSubtree;
    hide Acyclic;
    var k :| 0 <= k < |ps| && key in NodeKeys(ps[k]);
    i := ChildRealising(rows, slot, ps, k);
    BelowUnfold(rows, slot, i);
    if key != ps[k].key {
      var c := i;
      i := PayloadKeyHeld(rows, Inner(slot, c), ps[k].subFields, key);
      BelowInside(rows, slot, c, i);
    }
  }

  lemma BelowInside(rows: Rows, slot: Slot, c: int, i: int)
    requires Tree(rows) && c in Children(rows, slot) && Below(rows, Inner(slot, c), i)
    ensures Below(rows, slot, i)
  {
    var rank :| Ranked(rows, rank);
    BelowChild(rows, rank, slot, c, i);
  }

  /**
   A key of the payload, at any depth, that a row outside the container's subtree holds in the form fails the
   whole synchronisation.
   */
  lemma KeyHeldOutsideFails(s: Session, slot: Slot, ps: seq<Node>, key: string, holder: int)
    requires Sound(s) && s.doomed == map[] && SlotOk(s.live, slot) && SiblingsDistinct(ps)
    requires key in TreeKeys(ps)
    requires holder in s.live && s.live[holder].formId == slot.formId && s.live[holder].key == key
    requires !Below(s.live, slot, holder)
    ensures SyncChildren(s, slot, ps) == Err(Integrity)
  {
    hide SyncChildren;
    hide Matches;
    hide TreeKeys;
    hide Below;
    if SyncChildren(s, slot, ps).Ok? {
      var end := SyncChildren(s, slot, ps).value;
      SyncChildrenCorrect(s, slot, ps, end);
      var i := PayloadKeyHeld(end.live, slot, ps, key);
      var rank :| Ranked(s.live, rank);
      OutsideKeepsPlace(s.live, end.live, rank, slot, slot, holder);
    }
  }
}
