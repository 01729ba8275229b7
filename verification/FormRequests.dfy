/** When each request on forms and fields commits, and with which error it is refused. */
module FormRequests {
  import opened Prelude
  import opened FormStore
  import opened FormSync
  import opened FormSyncTheory
  import opened FormSyncRuns
  import opened FormSyncKeys
  import opened FormSyncOutcome
  import opened FormOps
  import opened FormOpsTheory

  // ---- Create ----

  /** The proposed parent of a new field is a field of the form, or there is none. */
  predicate ParentInForm(rows: Rows, formId: int, parentId: Option<int>) {
    parentId.Some? ==> parentId.value in rows && rows[parentId.value].formId == formId
  }

  /** Why a parent is refused. */
  predicate ParentRefusal(rows: Rows, parentId: Option<int>, error: Error) {
    error == if parentId.Some? && parentId.value !in rows then NotFound else InvalidParent
  }

  lemma SingleKeys(node: Node)
    ensures KeysDistinct([node]) <==> node.key !in TreeKeys(node.subFields) && KeysDistinct(node.subFields)
    ensures SiblingsDistinct([node]) <==> SiblingsDistinct(node.subFields)
    ensures Supplied([node]) ==> Supplied(node.subFields)
    ensures NodeKeys(node) == {node.key} + TreeKeys(node.subFields)
  {
    assert [node][0] == node;
  }

  /** No row of the form holds one of the keys. */
  predicate KeysUnused(rows: Rows, formId: int, keys: set<string>) {
    forall i :: i in rows && rows[i].formId == formId ==> rows[i].key !in keys
  }

  /** The first flush of a create passes exactly when the key is unused in the form. */
  lemma InsertPassesIff(st: Store, formId: int, parentId: Option<int>, node: Node)
    requires Valid(st) && Supplied([node])
    ensures Flush(Session(st.rows[st.nextField := Created(formId, parentId, node)], map[], st.nextField + 1)).Ok? <==>
      KeysUnused(st.rows, formId, {node.key})
  {
    var live := st.rows[st.nextField := Created(formId, parentId, node)];
    assert [node][0] == node;
    assert Created(formId, parentId, node).Complete();
    NothingDoomed(live, st.nextField + 1);
    assert st.nextField !in st.rows;
    assert KeysUnique(live) <==> KeysUnused(st.rows, formId, {node.key}) by {
      if i :| i in st.rows && st.rows[i].formId == formId && st.rows[i].key == node.key {
        assert live[i] == st.rows[i] && live[st.nextField].key == node.key;
      }
    }
  }

  /** Nothing hangs under the new field, so its nested payload only meets keys used elsewhere in the form. */
  lemma NewLeafFreeIff(st: Store, formId: int, parentId: Option<int>, node: Node, f: Session)
    requires Valid(st) && Tree(f.live) && f.live == st.rows[st.nextField := Created(formId, parentId, node)]
    requires OnlyChildWritten(st.rows, f.live, Slot(formId, parentId), st.nextField)
    ensures Free(f.live, Slot(formId, Some(st.nextField)), node.subFields) <==>
      node.key !in TreeKeys(node.subFields) && KeysUnused(st.rows, formId, TreeKeys(node.subFields))
  {
    hide TreeKeys;
    hide OnlyChildWritten;
    var inner := Slot(formId, Some(st.nextField));
    assert st.nextField !in st.rows;
    StoreParts(st);
    forall i ensures !Below(f.live, inner, i) {
      NewLeafHasNothingBelow(st.rows, f.live, Slot(formId, parentId), st.nextField, i);
    }
    assert f.live[st.nextField].key == node.key && f.live[st.nextField].formId == formId;
    forall i | i in f.live ensures Blocks(f.live, inner, node.subFields, i) {
      OutsideBlocks(f.live, inner, node.subFields, i);
    }
    forall i | i in f.live && i != st.nextField ensures i in st.rows && f.live[i] == st.rows[i] {
    }
    if Free(f.live, inner, node.subFields) {
      forall i | i in st.rows && st.rows[i].formId == formId ensures st.rows[i].key !in TreeKeys(node.subFields) {
        assert i in f.live && f.live[i] == st.rows[i];
      }
    }
  }

  lemma FlushedLive(live: Rows, nextId: int)
    ensures var f := Flush(Session(live, map[], nextId)); f.Ok? ==> f.value == Session(live, map[], nextId)
  {
  }

  /** Once the field itself is inserted, a create commits exactly when its nested payload has free keys. */
  lemma InsertedCreate(st: Store, formId: int, parentId: Option<int>, node: Node)
    requires Valid(st) && formId in st.forms && ValidateParent(st.rows, formId, parentId, None).Ok?
    requires SiblingsDistinct([node]) && Supplied([node]) && KeysUnused(st.rows, formId, {node.key})
    ensures var r := CreateField(st, formId, parentId, node);
      && (r.Ok? <==> KeysDistinct([node]) && KeysUnused(st.rows, formId, TreeKeys(node.subFields)))
      && (r.Err? ==> r.error == Integrity)
  {
    hide Valid;
    hide ValidateParent;
    hide SyncChildren;
    hide Commit;
    hide Flush;
    hide Matches;
    hide Free;
    hide KeysUnused;
    hide KeysDistinct;
    hide SiblingsDistinct;
    hide Supplied;
    hide CreateField;
    hide OnlyChildWritten;
    hide Sound;
    var slot := Slot(formId, Some(st.nextField));
    SingleKeys(node);
    InsertPassesIff(st, formId, parentId, node);
    CreateInSteps(st, formId, parentId, node);
    var f := Flush(Session(st.rows[st.nextField := Created(formId, parentId, node)], map[], st.nextField + 1)).value;
    InsertSound(st, formId, parentId, node, f);
FlushedLive(st.rows[st.nextField := Created(formId, parentId, node)], st.nextField + 1);
    SoundTree(f);
    SyncSucceedsIff(f, slot, node.subFields);
    NewLeafFreeIff(st, formId, parentId, node, f);
    if SyncChildren(f, slot, node.subFields).Ok? {
      SyncedCommits(st, f, slot, node.subFields);
    }
  }

  /** What a synchronisation leaves behind commits. */
  lemma SyncedCommits(st: Store, f: Session, slot: Slot, ps: seq<Node>)
    requires Sound(f) && f.doomed == map[] && SlotOk(f.live, slot) && SyncChildren(f, slot, ps).Ok?
    ensures Commit(st, SyncChildren(f, slot, ps).value).Ok?
  {
    hide SyncChildren;
    hide Matches;
    hide Commit;
    var g := SyncChildren(f, slot, ps).value;
    SyncChildrenCorrect(f, slot, ps, g);
    SyncedSound(f, g, slot, ps);
    CommitSound(st, g);
  }

  /**
   A create whose payload repeats no key among siblings commits exactly when the form exists, the parent is none or
   a field of the form, no key occurs twice in the payload, and the form uses none of its keys.
   */
  lemma CreateFieldIff(st: Store, formId: int, parentId: Option<int>, node: Node)
    requires Valid(st) && SiblingsDistinct([node]) && Supplied([node])
    ensures var r := CreateField(st, formId, parentId, node);
      && (r.Ok? <==>
            && formId in st.forms && ParentInForm(st.rows, formId, parentId)
            && KeysDistinct([node]) && KeysUnused(st.rows, formId, NodeKeys(node)))
      && (r.Err? ==>
            if formId !in st.forms then r.error == NotFound
            else if !ParentInForm(st.rows, formId, parentId) then ParentRefusal(st.rows, parentId, r.error)
            else r.error == Integrity)
  {
    hide SyncChildren;
    hide Commit;
    hide KeysDistinct;
    hide SiblingsDistinct;
    hide Supplied;
    hide TreeKeys;
    SingleKeys(node);
    if formId in st.forms && ParentInForm(st.rows, formId, parentId) {
      if KeysUnused(st.rows, formId, {node.key}) {
        InsertedCreate(st, formId, parentId, node);
      } else {
        InsertPassesIff(st, formId, parentId, node);
        CreateInSteps(st, formId, parentId, node);
      }
    }
  }

  // ---- Update ----

  /** The patch determines the row. */
  lemma RewritesOnly(before: Field, row: Field, p: FieldPatch)
    requires Rewrites(before, row, p)
    ensures row == Patched(before, TargetForm(before, p), TargetParent(before, p), p)
  {
    assert row.values == before.values + p.values;
  }

  /** No other row of the form holds the row's key. */
  predicate KeyFree(rows: Rows, id: int, row: Field) {
    forall j :: j in rows && j != id && rows[j].formId == row.formId ==> rows[j].key != row.key
  }

  /** On a change of form the descendants' keys are unused in the new form, and differ from the field's own. */
  ghost predicate DescendantsFit(rows: Rows, id: int, row: Field)
    requires id in rows
  {
    row.formId != rows[id].formId ==>
      forall d :: d in Descendants(rows, id) ==>
        rows[d].key != row.key && forall j :: j in rows && rows[j].formId == row.formId ==> rows[j].key != rows[d].key
  }

  lemma OwnRowUniqueIff(rows: Rows, id: int, row: Field)
    requires id in rows && KeysUnique(rows) && AllComplete(rows)
    ensures KeysUnique(rows[id := row]) <==> KeyFree(rows, id, row)
    ensures AllComplete(rows[id := row]) <==> row.Complete()
  {
    var live := rows[id := row];
    if j :| j in rows && j != id && rows[j].formId == row.formId && rows[j].key == row.key {
      assert live[j] == rows[j] && live[id] == row;
    }
    assert live[id] == row;
    forall i | i in rows && i != id ensures live[i] == rows[i] {
    }
  }

  lemma RelabelledUniqueIff(rows: Rows, id: int, row: Field)
    requires Tree(rows) && id in rows && KeysUnique(rows) && KeyFree(rows, id, row)
    requires row.formId != rows[id].formId
    ensures KeysUnique(Relabel(rows[id := row], Descendants(rows, id), row.formId)) <==> DescendantsFit(rows, id, row)
  {
    var down := Descendants(rows, id);
    var new_ := Relabel(rows[id := row], down, row.formId);
    DescendantsSameForm(rows, id);
    forall i | i in rows
      ensures i in new_ && new_[i].key == (if i == id then row.key else rows[i].key)
      ensures new_[i].formId == if i == id || i in down then row.formId else rows[i].formId
    {
    }
    assert new_.Keys == rows.Keys;
    if DescendantsFit(rows, id, row) {
      forall i, j | i in new_ && j in new_ && new_[i].formId == new_[j].formId && new_[i].key == new_[j].key
        ensures i == j
      {
        RelabelledPair(rows, id, row, i, j);
      }
    }
    if KeysUnique(new_) {
      forall d | d in down ensures rows[d].key != row.key {
      }
      forall d, j | d in down && j in rows && rows[j].formId == row.formId ensures rows[j].key != rows[d].key {
      }
    }
  }

  lemma DescendantsSameForm(rows: Rows, id: int)
    requires Tree(rows) && id in rows
    ensures forall d :: d in Descendants(rows, id) ==> d in rows && d != id && rows[d].formId == rows[id].formId
  {
    var rank :| Ranked(rows, rank);
    forall d | d in Descendants(rows, id) ensures d in rows && d != id && rows[d].formId == rows[id].formId {
      BelowRank(rows, rank, Slot(rows[id].formId, Some(id)), d);
    }
  }

  lemma RelabelledPair(rows: Rows, id: int, row: Field, i: int, j: int)
    requires Tree(rows) && id in rows && KeysUnique(rows) && KeyFree(rows, id, row)
    requires row.formId != rows[id].formId && DescendantsFit(rows, id, row) && i in rows && j in rows
    requires var down := Descendants(rows, id);
      (if i == id || i in down then row.formId else rows[i].formId)
        == (if j == id || j in down then row.formId else rows[j].formId)
    requires (if i == id then row.key else rows[i].key) == (if j == id then row.key else rows[j].key)
    ensures i == j
  {
    DescendantsSameForm(rows, id);
    hide Descendants;
  }

  lemma ParentIff(rows: Rows, formId: int, parentId: Option<int>, id: int)
    requires id in rows
    ensures var v := ValidateParent(rows, formId, parentId, Some(id));
      && (v.Ok? <==> GoodParent(rows, id, formId, parentId))
      && (v.Err? ==> ParentRefusal(rows, parentId, v.error))
  {
  }

  lemma LiveFlush(live: Rows, nextId: int)
    ensures Flush(Session(live, map[], nextId)) ==
      if KeysUnique(live) && AllComplete(live) then Ok(Session(live, map[], nextId)) else Err(Integrity)
  {
    assert Session(live, map[], nextId).Visible() == live;
  }

  /** The first flush of an update. */
  lemma FlushedUpdateIff(st: Store, id: int, p: FieldPatch, row: Field)
    requires Valid(st) && id in st.rows && Rewrites(st.rows[id], row, p)
    ensures var f := FlushedUpdate(st, id, p);
      if p.formId.SetNull? || row.formId !in st.forms then f == Err(NotFound)
      else if !GoodParent(st.rows, id, row.formId, row.parentId)
      then f.Err? && ParentRefusal(st.rows, row.parentId, f.error)
      else if !p.key.SetNull? && !p.orderIndex.SetNull? && row.Complete() && KeyFree(st.rows, id, row)
      then f == Ok(Session(st.rows[id := row], map[], st.nextField))
      else f == Err(Integrity)
  {
    hide Rewrites;
    hide KeyFree;
    hide KeysUnique;
    hide AllComplete;
    hide GoodParent;
    hide ParentRefusal;
    hide ValidateParent;
    hide Patched;
    hide Flush;
    RewritesOnly(st.rows[id], row, p);
    RewrittenForm(st.rows[id], row, p);
    assert row.parentId == TargetParent(st.rows[id], p) by { PatchedParent(st.rows[id], row, p); }
    StoreParts(st);
    OwnRowUniqueIff(st.rows, id, row);
    ParentIff(st.rows, row.formId, row.parentId, id);
    LiveFlush(st.rows[id := row], st.nextField);
    ValidateParentValue(st.rows, row.formId, row.parentId, id);
  }

  lemma PatchedParent(before: Field, row: Field, p: FieldPatch)
    requires Rewrites(before, row, p)
    ensures row.parentId == TargetParent(before, p)
  {
  }

  lemma ValidateParentValue(rows: Rows, formId: int, parentId: Option<int>, id: int)
    ensures var v := ValidateParent(rows, formId, parentId, Some(id)); v.Ok? ==> v.value == parentId
  {
  }

  /**
   An update commits exactly when the row it asks for has a known form, a parent of that form outside the field's
   own subtree, its NOT NULL columns, and a key no other row of that form holds; on a change of form the keys of the
   descendants must be unused there as well.
   */
  lemma UpdateFieldIff(st: Store, id: int, p: FieldPatch, row: Field)
    requires Valid(st) && id in st.rows && Rewrites(st.rows[id], row, p)
    ensures var r := UpdateField(st, id, p);
      && (r.Ok? <==>
            && !p.formId.SetNull? && row.formId in st.forms && GoodParent(st.rows, id, row.formId, row.parentId)
            && !p.key.SetNull? && !p.orderIndex.SetNull? && row.Complete()
            && KeyFree(st.rows, id, row) && DescendantsFit(st.rows, id, row))
      && (r.Err? ==>
            if p.formId.SetNull? || row.formId !in st.forms then r.error == NotFound
            else if !GoodParent(st.rows, id, row.formId, row.parentId)
            then ParentRefusal(st.rows, row.parentId, r.error)
            else r.error == Integrity)
  {
    hide Rewrites;
    hide KeyFree;
    hide Relabel;
    hide Descendants;
    hide KeysUnique;
    hide AllComplete;
    hide GoodParent;
    hide ParentRefusal;
    hide FlushedUpdate;
    hide Flush;
    hide Valid;
    RewrittenForm(st.rows[id], row, p);
    StoreParts(st);
    FlushedUpdateIff(st, id, p, row);
    OwnRowUniqueIff(st.rows, id, row);
    var live := st.rows[id := row];
    if row.formId == st.rows[id].formId {
      LiveFlush(live, st.nextField);
    } else {
      LiveFlush(Relabel(live, Descendants(st.rows, id), row.formId), st.nextField);
      RelabelComplete(live, Descendants(st.rows, id), row.formId);
      if KeyFree(st.rows, id, row) {
        RelabelledUniqueIff(st.rows, id, row);
      }
    }
  }

  lemma RelabelComplete(rows: Rows, moved: set<int>, formId: int)
    ensures AllComplete(Relabel(rows, moved, formId)) <==> AllComplete(rows)
  {
    var new_ := Relabel(rows, moved, formId);
    forall i | i in rows ensures i in new_ && new_[i].Complete() == rows[i].Complete() {
    }
  }

  /** What an update says about nested fields only refuses it when the list is not empty. */
  lemma UpdateWithIff(st: Store, id: int, p: FieldPatch, subs: SubFields)
    requires Valid(st)
    ensures UpdateWith(st, id, p, subs).Ok? <==> UpdateField(st, id, p).Ok? && subs != Nonempty
  {
    hide Valid;
    hide FlushedUpdate;
    hide Commit;
    hide SyncChildren;
    hide Rewrites;
    var u := UpdateField(st, id, p);
    if u.Ok? {
      UpdateFieldCorrect(st, id, p, u.value);
      UpdateCoherent(st, id, p);
      RewrittenForm(st.rows[id], u.value.rows[id], p);
      EmptyPayloadCommits(u.value, id);
    }
  }

  lemma EmptyPayloadCommits(st: Store, id: int)
    requires Valid(st) && id in st.rows && SessionOf(st).Coherent()
    ensures var t := SyncChildren(SessionOf(st), Slot(st.rows[id].formId, Some(id)), []);
      t.Ok? && Commit(st, t.value).Ok?
  {
    var slot := Slot(st.rows[id].formId, Some(id));
    SessionIsSound(st);
    SyncSucceedsIff(SessionOf(st), slot, []);
    SyncedCommits(st, SessionOf(st), slot, []);
  }

  // ---- Delete ----

  /** A field or a form is deleted exactly when it is there. */
  lemma DeletesIff(st: Store, id: int)
    ensures DeleteField(st, id).Ok? <==> id in st.rows
    ensures DeleteForm(st, id).Ok? <==> id in st.forms
  {
  }

  // ---- Seeds ----

  /**
   A seed is applied exactly when its head has a scope value just where its scope needs one, no key occurs twice in
   its fields, and no row of the form is in the way of one of them.
   */
  lemma UpsertFormIff(st: Store, seed: Seed)
    requires Valid(st) && SiblingsDistinct(seed.fields) && Supplied(seed.fields)
    ensures var r := UpsertForm(st, seed);
      && (r.Ok? <==>
            && (seed.head.scope == Global <==> seed.head.scopeValue == None)
            && KeysDistinct(seed.fields) && Free(st.rows, Slot(SeedTarget(st, seed.head), None), seed.fields))
      && (r.Err? ==> r.error == Integrity)
  {
    hide Valid;
    hide SyncChildren;
    hide SaveForm;
    hide SeedTarget;
    hide Commit;
    hide Free;
    hide KeysDistinct;
    hide SiblingsDistinct;
    hide Supplied;
    var id := SeedTarget(st, seed.head);
    var slot := Slot(id, None);
    SaveFormIff(st, id, seed.head);
    SeedTargetUnique(st, seed.head);
    SessionIsSound(st);
    SyncSucceedsIff(SessionOf(st), slot, seed.fields);
    if SyncChildren(SessionOf(st), slot, seed.fields).Ok? && SaveForm(st, id, seed.head).Ok? {
      SyncedCommits(SaveForm(st, id, seed.head).value, SessionOf(st), slot, seed.fields);
    }
  }

  /** No seed in the list is for the form. */
  predicate Unseeded(head: FormHead, seeds: seq<Seed>) {
    forall k :: 0 <= k < |seeds| ==> !SameIdentity(head, seeds[k].head)
  }

  /** Seeds for other forms leave a form and its fields as they were. */
  lemma {:induction false} SeedsKeepOthers(st: Store, seeds: seq<Seed>, f: int, after: Store)
    requires Valid(st) && ApplySeeds(st, seeds) == Ok(after) && f in st.forms && Unseeded(st.forms[f], seeds)
    ensures Valid(after) && f in after.forms && after.forms[f] == st.forms[f]
    ensures forall i :: i in st.rows && st.rows[i].formId == f ==> i in after.rows && after.rows[i] == st.rows[i]
    ensures forall i :: i in after.rows && after.rows[i].formId == f ==> i in st.rows && st.rows[i] == after.rows[i]
    decreases seeds
  {
    hide Valid;
    hide UpsertForm;
    hide SeedTarget;
    hide Matches;
    hide SameIdentity;
    if seeds != [] {
      var one := UpsertForm(st, seeds[0]).value;
      UpsertFormCorrect(st, seeds[0], one);
      IdentityOfItself(seeds[0].head);
      assert !SameIdentity(st.forms[f], seeds[0].head);
      assert one.forms[f] == st.forms[f];
      assert Unseeded(one.forms[f], seeds[1..]);
      SeedsKeepOthers(one, seeds[1..], f, after);
    }
  }

  lemma IdentityOfItself(head: FormHead)
    ensures SameIdentity(head, head)
  {
  }

  /** Applied together, seeds for different forms each leave their form with its head and exactly its field tree. */
  lemma {:induction false} ApplySeedsCorrect(st: Store, seeds: seq<Seed>, after: Store)
    requires Valid(st) && ApplySeeds(st, seeds) == Ok(after)
    requires forall j, k :: 0 <= j < k < |seeds| ==> !SameIdentity(seeds[j].head, seeds[k].head)
    ensures Valid(after)
    ensures forall k :: 0 <= k < |seeds| ==> Seeded(after, seeds[k])
    decreases seeds
  {
    hide Valid;
    hide UpsertForm;
    hide SeedTarget;
    hide SameIdentity;
    hide Matches;
    if seeds != [] {
      var one := UpsertForm(st, seeds[0]).value;
      var rest := seeds[1..];
      UpsertFormCorrect(st, seeds[0], one);
      assert Unseeded(seeds[0].head, rest);
      ApplySeedsCorrect(one, rest, after);
      SeedStays(one, SeedTarget(st, seeds[0].head), seeds[0], rest, after);
      forall k | 0 <= k < |seeds| ensures Seeded(after, seeds[k]) {
        if k > 0 {
          assert seeds[k] == rest[k - 1];
        }
      }
    }
  }

  /** A stored form is the seed's: same head, same field tree. */
  ghost predicate Seeded(st: Store, seed: Seed) {
    exists f :: f in st.forms && st.forms[f] == seed.head && Matches(st.rows, Slot(f, None), seed.fields)
  }

  lemma SeedStays(st: Store, f: int, seed: Seed, rest: seq<Seed>, after: Store)
    requires Valid(st) && ApplySeeds(st, rest) == Ok(after) && Unseeded(seed.head, rest)
    requires f in st.forms && st.forms[f] == seed.head && Matches(st.rows, Slot(f, None), seed.fields)
    ensures Seeded(after, seed)
  {
    hide ApplySeeds;
    hide Matches;
    SeedsKeepOthers(st, rest, f, after);
    StoreParts(st);
    StoreParts(after);
    FormUntouched(st.rows, after.rows, f);
    MatchesStable(st.rows, after.rows, Slot(f, None), seed.fields);
  }

  lemma FormUntouched(old_: Rows, new_: Rows, f: int)
    requires Tree(old_) && Tree(new_)
    requires forall i :: i in old_ && old_[i].formId == f ==> i in new_ && new_[i] == old_[i]
    requires forall i :: i in new_ && new_[i].formId == f ==> i in old_ && old_[i] == new_[i]
    ensures FormSyncTheory.Untouched(old_, new_, Slot(f, None))
  {
    var rank :| Ranked(old_, rank);
    var rank' :| Ranked(new_, rank');
    forall i | Below(old_, Slot(f, None), i) || Below(new_, Slot(f, None), i) ensures Unchanged(old_, new_, i) {
      BelowUnfold(old_, Slot(f, None), i);
      BelowUnfold(new_, Slot(f, None), i);
      if Below(old_, Slot(f, None), i) {
        BelowRank(old_, rank, Slot(f, None), i);
      } else {
        BelowRank(new_, rank', Slot(f, None), i);
      }
    }
  }
}
