/** Every operation keeps the store a forest; what each one changes and what it leaves alone. */
module FormOpsTheory {
  import opened Prelude
  import opened FormStore
  import opened FormSync
  import opened FormSyncTheory
  import opened FormOps

  lemma SessionIsSound(st: Store)
    requires Valid(st)
    ensures Sound(SessionOf(st))
  {
    assert SessionOf(st).Visible() == st.rows;
  }

  /** Committing a sound session keeps exactly its live rows. */
  lemma CommitSound(st: Store, s: Session)
    requires Sound(s)
    ensures Commit(st, s) == Ok(st.(rows := s.live, nextField := s.nextId))
  {
  }

  /** Rows of a synchronised session stay within the forms of the store. */
  lemma SyncedForms(s: Session, t: Session, slot: Slot, ps: seq<Node>, forms: set<int>)
    requires Tree(s.live) && Synced(s, t, slot, ps) && slot.formId in forms
    requires forall i :: i in s.live ==> s.live[i].formId in forms
    ensures forall i :: i in t.live ==> t.live[i].formId in forms
  {
    var rank :| Ranked(t.live, rank);
    forall i | i in t.live ensures t.live[i].formId in forms {
      if Below(t.live, slot, i) {
        BelowRank(t.live, rank, slot, i);
      }
    }
  }

  // ---- Create ----

  /** The row a create request writes before its nested fields. */
  function Created(formId: int, parentId: Option<int>, node: Node): Field {
    NewField(Slot(formId, parentId), node, 0)
  }

  lemma CreatedHolds(formId: int, parentId: Option<int>, node: Node)
    ensures var row := Created(formId, parentId, node);
      row.formId == formId && row.parentId == parentId && Agrees(row, node, 0) && Defaulted(row, node)
  {
    NewFieldHolds(Slot(formId, parentId), node, 0);
  }

  lemma InsertSound(st: Store, formId: int, parentId: Option<int>, node: Node, f: Session)
    requires Valid(st) && formId in st.forms && ValidateParent(st.rows, formId, parentId, None).Ok?
    requires Flush(Session(st.rows[st.nextField := Created(formId, parentId, node)], map[], st.nextField + 1)) == Ok(f)
    ensures Sound(f) && SlotOk(f.live, Slot(formId, Some(st.nextField)))
    ensures OnlyChildWritten(st.rows, f.live, Slot(formId, parentId), st.nextField)
  {
    var slot := Slot(formId, parentId);
    forall i | i in st.rows ensures st.rows[i].parentId != Some(st.nextField) {
      assert st.rows[i].parentId.Some? ==> st.rows[i].parentId.value in st.rows;
    }
    assert OnlyChildWritten(st.rows, f.live, slot, st.nextField);
    WrittenTree(st.rows, f.live, slot, st.nextField);
    FlushSound(Session(f.live, map[], st.nextField + 1), f);
  }

  /** A create request: insert and flush, synchronise, commit. */
  lemma CreateInSteps(st: Store, formId: int, parentId: Option<int>, node: Node)
    requires Valid(st) && formId in st.forms && ValidateParent(st.rows, formId, parentId, None).Ok?
    ensures var live := st.rows[st.nextField := NewField(Slot(formId, parentId), node, 0)];
      var f := Flush(Session(live, map[], st.nextField + 1));
      if f.Err? then CreateField(st, formId, parentId, node) == Err(Integrity)
      else
        && f.value.Coherent()
        && var g := SyncChildren(f.value, Slot(formId, Some(st.nextField)), node.subFields);
        CreateField(st, formId, parentId, node) == if g.Err? then Err(g.error) else Commit(st, g.value)
  {
    hide Valid;
    hide ValidateParent;
    hide SyncChildren;
    hide Commit;
    hide NewField;
    InsertCoherent(st, formId, parentId, node);
  }

  /** The session after a new row is inserted and flushed, in a create that commits. */
  lemma CreatedSession(st: Store, formId: int, parentId: Option<int>, node: Node, after: Store) returns (f: Session)
    requires Valid(st) && CreateField(st, formId, parentId, node) == Ok(after)
    ensures formId in st.forms && ValidateParent(st.rows, formId, parentId, None).Ok?
    ensures var live := st.rows[st.nextField := Created(formId, parentId, node)];
      && f == Session(live, map[], st.nextField + 1)
      && Flush(f) == Ok(f) && f.Coherent()
    ensures var g := SyncChildren(f, Slot(formId, Some(st.nextField)), node.subFields);
      g.Ok? && Commit(st, g.value) == Ok(after)
  {
    hide Valid;
    hide ValidateParent;
    hide SyncChildren;
    hide Commit;
    hide KeysUnique;
    hide AllComplete;
    InsertCoherent(st, formId, parentId, node);
    f := Session(st.rows[st.nextField := Created(formId, parentId, node)], map[], st.nextField + 1);
  }

  /** The session of a create request: insert, flush, synchronise the nested payload. */
  lemma CreateSteps(st: Store, formId: int, parentId: Option<int>, node: Node, after: Store)
    returns (f: Session, g: Session)
    requires Valid(st) && CreateField(st, formId, parentId, node) == Ok(after)
    ensures Sound(f) && f.doomed == map[] && f.nextId == st.nextField + 1
    ensures f.live == st.rows[st.nextField := Created(formId, parentId, node)]
    ensures OnlyChildWritten(st.rows, f.live, Slot(formId, parentId), st.nextField)
    ensures formId in st.forms
    ensures Synced(f, g, Slot(formId, Some(st.nextField)), node.subFields)
    ensures after == st.(rows := g.live, nextField := g.nextId)
  {
    hide SyncChildren;
    hide Synced;
    hide OnlyChildWritten;
    hide CreateField;
    hide Flush;
    hide Commit;
    hide Valid;
    hide Sound;
    hide SlotOk;
    var id, slot := st.nextField, Slot(formId, Some(st.nextField));
    f := CreatedSession(st, formId, parentId, node, after);
    InsertSound(st, formId, parentId, node, f);
    g := SyncChildren(f, slot, node.subFields).value;
    SyncChildrenCorrect(f, slot, node.subFields, g);
    SyncedSound(f, g, slot, node.subFields);
    CommitSound(st, g);
  }

  lemma SyncedSound(f: Session, g: Session, slot: Slot, ps: seq<Node>)
    requires Synced(f, g, slot, ps)
    ensures Sound(g)
  {
  }

  lemma SoundTree(s: Session)
    requires Sound(s)
    ensures Tree(s.live)
  {
  }

  lemma KnownIds(st: Store, f: Session, formId: int, parentId: Option<int>, node: Node)
    requires Valid(st) && formId in st.forms
    requires f.live == st.rows[st.nextField := Created(formId, parentId, node)]
    ensures st.nextField !in st.rows
    ensures forall i :: i in f.live ==> f.live[i].formId in st.forms
  {
  }

  /** Changes confined under a new leaf leave the leaf and all older rows alone. */
  lemma UnderNewLeaf(old_: Rows, mid: Rows, new_: Rows, slot: Slot, c: int)
    requires Tree(old_) && Tree(mid) && OnlyChildWritten(old_, mid, slot, c) && c !in old_
    requires Carries(mid, new_, Inner(slot, c))
    ensures c in new_ && new_[c] == mid[c]
    ensures forall i :: i in old_ ==> i in new_ && new_[i] == old_[i]
    ensures forall i :: i in new_ && i !in old_ ==> i == c || Below(new_, Inner(slot, c), i)
  {
    forall i ensures !Below(mid, Inner(slot, c), i) {
      NewLeafHasNothingBelow(old_, mid, slot, c, i);
    }
  }

  lemma SessionIsStore(st: Store, after: Store, s: Session)
    requires Sound(s) && Valid(st)
    requires after == st.(rows := s.live, nextField := s.nextId)
    requires forall i :: i in s.live ==> s.live[i].formId in st.forms
    ensures Valid(after)
  {
    assert forall i :: i in s.live ==> i in s.Visible();
  }

  /**
   A committed create leaves every existing row alone, adds the field with its values, and
   hangs the nested payload under it.
   */
  lemma CreateFieldCorrect(st: Store, formId: int, parentId: Option<int>, node: Node, after: Store)
    requires Valid(st) && CreateField(st, formId, parentId, node) == Ok(after)
    ensures Valid(after) && after.forms == st.forms
    ensures forall i :: i in st.rows ==> i in after.rows && after.rows[i] == st.rows[i]
    ensures st.nextField !in st.rows && st.nextField in after.rows
    ensures after.rows[st.nextField].formId == formId && after.rows[st.nextField].parentId == parentId
    ensures Agrees(after.rows[st.nextField], node, 0) && Defaulted(after.rows[st.nextField], node)
    ensures Matches(after.rows, Slot(formId, Some(st.nextField)), node.subFields)
    ensures forall i :: i in after.rows && i !in st.rows ==> InSubtree(after.rows, st.nextField, i)
  {
    hide CreateField;
    hide Matches;
    hide Carries;
    hide Below;
    hide OnlyChildWritten;
    hide Forest;
    hide Acyclic;
    hide NewField;
    hide Agrees;
    hide Defaulted;
    CreatedHolds(formId, parentId, node);
    var f, g := CreateSteps(st, formId, parentId, node, after);
    StoreParts(st);
    SoundTree(f);
    KnownIds(st, f, formId, parentId, node);
    UnderNewLeaf(st.rows, f.live, g.live, Slot(formId, parentId), st.nextField);
    SyncedForms(f, g, Slot(formId, Some(st.nextField)), node.subFields, st.forms.Keys);
    SessionIsStore(st, after, g);
  }

  /** Nothing hangs under a freshly inserted row. */
  lemma NewLeafHasNothingBelow(old_: Rows, new_: Rows, slot: Slot, c: int, i: int)
    requires Tree(old_) && Tree(new_) && OnlyChildWritten(old_, new_, slot, c) && c !in old_
    ensures !Below(new_, Inner(slot, c), i)
  {
    var rank :| Ranked(old_, rank);
    var rank' :| Ranked(new_, rank');
    if Below(new_, Inner(slot, c), i) {
      NotUnderSibling(new_, rank', slot, c, c);
      BelowUnfold(new_, Inner(slot, c), i);
      WrittenPlaces(old_, new_, rank, slot, c, Inner(slot, c), i);
      NothingUnderMissing(old_, rank, Inner(slot, c), i);
    }
  }

  lemma {:induction false} NothingUnderMissing(rows: Rows, rank: map<int, nat>, slot: Slot, i: int)
    requires ParentsOk(rows) && Ranked(rows, rank)
    requires slot.parentId.Some? && slot.parentId.value !in rows
    ensures !Below(rows, slot, i)
    decreases if i in rows then rank[i] else 0
  {
    BelowUnfold(rows, slot, i);
    if i in rows && rows[i].parentId.Some? {
      NothingUnderMissing(rows, rank, slot, rows[i].parentId.value);
    }
  }

  // ---- Update ----

  /** The table after field id is rewritten and, on a change of form, its descendants relabelled. */
  ghost predicate Moved(old_: Rows, new_: Rows, id: int) {
    && id in old_ && new_.Keys == old_.Keys
    && forall i :: i in old_ && i != id ==>
      new_[i] == if i in Descendants(old_, id) then old_[i].(formId := new_[id].formId) else old_[i]
  }

  ghost predicate GoodParent(rows: Rows, id: int, formId: int, parentId: Option<int>)
    requires id in rows
  {
    parentId.Some? ==>
      && parentId.value in rows && rows[parentId.value].formId == formId
      && !InSubtree(rows, id, parentId.value)
  }

  lemma RankShowsAcyclic(rows: Rows, rank: map<int, nat>)
    requires Ranked(rows, rank)
    ensures Acyclic(rows)
  {
  }

  /** Moving a field with its whole subtree under a parent outside that subtree keeps the forest. */
  lemma MovedTree(old_: Rows, new_: Rows, id: int)
    requires Tree(old_) && Moved(old_, new_, id)
    requires GoodParent(old_, id, new_[id].formId, new_[id].parentId)
    ensures Tree(new_)
  {
    var rank :| Ranked(old_, rank);
    var parent := new_[id].parentId;
    var lift: nat := if parent.Some? then rank[parent.value] + 1 else 0;
    var down := Descendants(old_, id);
    var rank': map<int, nat> := map i | i in old_ :: (rank[i] + (if i == id || i in down then lift else 0)) as nat;
    forall i | i in new_ && new_[i].parentId.Some?
      ensures new_[i].parentId.value in new_ && rank'[new_[i].parentId.value] < rank'[i]
      ensures new_[new_[i].parentId.value].formId == new_[i].formId
    {
      var q := new_[i].parentId.value;
      if i != id {
        assert old_[i].parentId == Some(q) && q in old_ && old_[q].formId == old_[i].formId;
        BelowUnfold(old_, Slot(old_[id].formId, Some(id)), i);
        assert i in down <==> (q == id || q in down);
        if i in down {
          BelowRank(old_, rank, Slot(old_[id].formId, Some(id)), i);
        }
      }
    }
    RankShowsAcyclic(new_, rank');
  }

  /** An accepted parent lies in the form and outside the field's own subtree. */
  lemma AcceptedParent(rows: Rows, formId: int, parentId: Option<int>, id: int)
    requires id in rows && ValidateParent(rows, formId, parentId, Some(id)).Ok?
    ensures GoodParent(rows, id, formId, parentId)
  {
  }

  lemma StoreParts(st: Store)
    requires Valid(st)
    ensures Tree(st.rows) && KeysUnique(st.rows) && AllComplete(st.rows)
  {
  }

  /** The session an update leaves behind when it goes through. */
  lemma UpdatedSession(st: Store, id: int, p: FieldPatch)
    requires FlushedUpdate(st, id, p).Ok?
    ensures id in st.rows && TargetForm(st.rows[id], p) in st.forms
    ensures ValidateParent(st.rows, TargetForm(st.rows[id], p), TargetParent(st.rows[id], p), Some(id)).Ok?
    ensures var row := Patched(st.rows[id], TargetForm(st.rows[id], p), TargetParent(st.rows[id], p), p);
      && FlushedUpdate(st, id, p).value == Session(st.rows[id := row], map[], st.nextField)
      && KeysUnique(st.rows[id := row]) && AllComplete(st.rows[id := row])
  {
    var row := Patched(st.rows[id], TargetForm(st.rows[id], p), TargetParent(st.rows[id], p), p);
    NothingDoomed(st.rows[id := row], st.nextField);
  }

  lemma NothingDoomed(live: Rows, nextId: int)
    ensures Session(live, map[], nextId).Visible() == live
  {
  }

  /** The rows an update commits: its own row, and its descendants' form if that changes. */
  lemma UpdatedRows(st: Store, id: int, p: FieldPatch, after: Store)
    requires Valid(st) && UpdateField(st, id, p) == Ok(after)
    ensures FlushedUpdate(st, id, p).Ok? && id in st.rows
    ensures var row := st.rows[id];
      var formId := TargetForm(row, p);
      var live := st.rows[id := Patched(row, formId, TargetParent(row, p), p)];
      after.rows == if formId == row.formId then live else Relabel(live, Descendants(st.rows, id), formId)
    ensures after.forms == st.forms && after.nextField == st.nextField && after.nextForm == st.nextForm
    ensures KeysUnique(after.rows) && AllComplete(after.rows)
  {
    hide Valid;
    hide FlushedUpdate;
    hide ValidateParent;
    hide Relabel;
    hide Patched;
    hide KeysUnique;
    hide AllComplete;
    var f := FlushedUpdate(st, id, p);
    assert f.Ok?;
    UpdatedSession(st, id, p);
    var formId := TargetForm(st.rows[id], p);
    if formId != st.rows[id].formId {
      NothingDoomed(Relabel(f.value.live, Descendants(st.rows, id), formId), st.nextField);
    } else {
      NothingDoomed(f.value.live, st.nextField);
    }
  }

  lemma KnownForm(st: Store, id: int, p: FieldPatch)
    requires FlushedUpdate(st, id, p).Ok?
    ensures id in st.rows && TargetForm(st.rows[id], p) in st.forms
    ensures ValidateParent(st.rows, TargetForm(st.rows[id], p), TargetParent(st.rows[id], p), Some(id)).Ok?
  {
  }

  /** Rewriting a row, and relabelling its descendants if its form changes, moves its subtree. */
  lemma OwnRowMoves(old_: Rows, id: int, row: Field, new_: Rows)
    requires Tree(old_) && id in old_
    requires new_ == (if row.formId == old_[id].formId then old_[id := row]
      else Relabel(old_[id := row], Descendants(old_, id), row.formId))
    ensures Moved(old_, new_, id) && new_[id] == row
  {
    var rank :| Ranked(old_, rank);
    forall i | i in Descendants(old_, id) ensures i != id && old_[i].formId == old_[id].formId {
      BelowRank(old_, rank, Slot(old_[id].formId, Some(id)), i);
    }
  }

  lemma UpdateMoves(st: Store, id: int, p: FieldPatch, after: Store)
    requires Valid(st) && UpdateField(st, id, p) == Ok(after)
    ensures id in st.rows && Moved(st.rows, after.rows, id)
    ensures after.rows[id] == Patched(st.rows[id], TargetForm(st.rows[id], p), TargetParent(st.rows[id], p), p)
    ensures GoodParent(st.rows, id, after.rows[id].formId, after.rows[id].parentId)
    ensures after.forms == st.forms && after.nextField == st.nextField && after.nextForm == st.nextForm
    ensures after.rows[id].formId in st.forms
    ensures KeysUnique(after.rows) && AllComplete(after.rows)
  {
    hide Valid;
    hide UpdateField;
    hide Relabel;
    UpdatedRows(st, id, p, after);
    var row := st.rows[id];
    StoreParts(st);
    OwnRowMoves(st.rows, id, Patched(row, TargetForm(row, p), TargetParent(row, p), p), after.rows);
    KnownForm(st, id, p);
    AcceptedParent(st.rows, TargetForm(row, p), TargetParent(row, p), id);
  }

  lemma NotOwnDescendant(rows: Rows, id: int)
    requires Tree(rows) && id in rows
    ensures id !in Descendants(rows, id)
  {
    var rank :| Ranked(rows, rank);
    if id in Descendants(rows, id) {
      BelowRank(rows, rank, Slot(rows[id].formId, Some(id)), id);
    }
  }

  /** A moved subtree in a known form leaves the store valid, if it leaves a tree with unique keys and complete rows. */
  lemma MovedForms(st: Store, id: int, after: Store)
    requires Valid(st) && Moved(st.rows, after.rows, id) && after.rows[id].formId in st.forms
    requires Tree(after.rows) && KeysUnique(after.rows) && AllComplete(after.rows)
    requires after.forms == st.forms && after.nextField == st.nextField && after.nextForm == st.nextForm
    ensures Valid(after)
  {
    hide Descendants;
    hide Acyclic;
  }

  /** The row after an update: what the patch sets is set, a parent set to null is cleared, and the rest stays. */
  ghost predicate Rewrites(before: Field, after: Field, p: FieldPatch) {
    && after.formId == (if p.formId.SetTo? then p.formId.value else before.formId)
    && (p.parentId.Keep? ==> after.parentId == before.parentId)
    && (p.parentId.SetNull? ==> after.parentId == None)
    && (p.parentId.SetTo? ==> after.parentId == Some(p.parentId.value))
    && after.key == (if p.key.SetTo? then p.key.value else before.key)
    && after.orderIndex == (if p.orderIndex.SetTo? then p.orderIndex.value else before.orderIndex)
    && (forall c :: c in p.values ==> c in after.values && after.values[c] == p.values[c])
    && (forall c :: c !in p.values ==>
          (c in after.values <==> c in before.values) && (c in before.values ==> after.values[c] == before.values[c]))
  }

  lemma PatchRewrites(row: Field, p: FieldPatch)
    ensures Rewrites(row, Patched(row, TargetForm(row, p), TargetParent(row, p), p), p)
  {
  }

  /**
   A committed update rewrites the field, carries its descendants along when the form
   changes, touches no other row, and leaves a forest.
   */
  lemma UpdateFieldCorrect(st: Store, id: int, p: FieldPatch, after: Store)
    requires Valid(st) && UpdateField(st, id, p) == Ok(after)
    ensures Valid(after) && after.forms == st.forms
    ensures id in st.rows && after.rows.Keys == st.rows.Keys
    ensures Rewrites(st.rows[id], after.rows[id], p)
    ensures forall i :: i in st.rows && i in Descendants(st.rows, id) ==>
      i != id && after.rows[i] == st.rows[i].(formId := after.rows[id].formId)
    ensures forall i :: i in st.rows && i != id && i !in Descendants(st.rows, id) ==> after.rows[i] == st.rows[i]
  {
    hide UpdateField;
    hide Patched;
    hide TargetForm;
    hide TargetParent;
    hide GoodParent;
    hide Rewrites;
    UpdateMoves(st, id, p, after);
    PatchRewrites(st.rows[id], p);
    StoreParts(st);
    MovedTree(st.rows, after.rows, id);
    NotOwnDescendant(st.rows, id);
    MovedForms(st, id, after);
  }

  lemma NothingBelow(rows: Rows, slot: Slot, i: int)
    requires Tree(rows) && Matches(rows, slot, [])
    ensures !Below(rows, slot, i)
  {
    assert Children(rows, slot) == {} by {
      forall c | c in Children(rows, slot) ensures HasKey([], rows[c].key) {
      }
    }
    if Below(rows, slot, i) {
      var rank :| Ranked(rows, rank);
      var c := TopmostUnder(rows, rank, slot, i);
    }
  }

  /** Rewriting a field's own row moves nothing in or out of what hangs under it. */
  lemma {:induction false} KeepsBelow(a: Rows, b: Rows, rank: map<int, nat>, slot: Slot, id: int, i: int)
    requires Tree(a) && Ranked(a, rank) && slot.parentId == Some(id) && Below(a, slot, i)
    requires forall j :: j in a && j != id ==> j in b && b[j] == a[j]
    ensures i != id && Below(b, slot, i)
    decreases rank[i]
  {
    BelowUnfold(a, slot, i);
    BelowUnfold(b, slot, i);
    BelowRank(a, rank, slot, i);
    if a[i].Home() != slot {
      KeepsBelow(a, b, rank, slot, id, a[i].parentId.value);
    }
  }

  lemma SameDescendants(a: Rows, b: Rows, slot: Slot, id: int, i: int)
    requires Tree(a) && Tree(b) && slot.parentId == Some(id) && a.Keys == b.Keys
    requires forall j :: j in a && j != id ==> b[j] == a[j]
    ensures Below(a, slot, i) <==> Below(b, slot, i)
  {
    if Below(a, slot, i) {
      var rank :| Ranked(a, rank);
      KeepsBelow(a, b, rank, slot, id, i);
    }
    if Below(b, slot, i) {
      var rank :| Ranked(b, rank);
      KeepsBelow(b, a, rank, slot, id, i);
    }
  }

  /** Without a change of form an update rewrites one row. */
  lemma UpdatedElsewhere(st: Store, id: int, p: FieldPatch, after: Store)
    requires Valid(st) && UpdateField(st, id, p) == Ok(after) && TargetForm(st.rows[id], p) == st.rows[id].formId
    ensures after.rows.Keys == st.rows.Keys && forall j :: j in st.rows && j != id ==> after.rows[j] == st.rows[j]
  {
    UpdateFieldCorrect(st, id, p, after);
    var rank :| Ranked(st.rows, rank);
    forall j | j in Descendants(st.rows, id) ensures st.rows[j].formId == st.rows[id].formId {
      BelowRank(st.rows, rank, Slot(st.rows[id].formId, Some(id)), j);
    }
  }

  /** Synchronising with an empty payload removes what hangs under the container. */
  lemma EmptiedCorrect(st: Store, slot: Slot, after: Store)
    requires Valid(st) && SlotOk(st.rows, slot) && slot.formId in st.forms && SessionOf(st).Coherent()
    requires SyncChildren(SessionOf(st), slot, []).Ok?
      && Commit(st, SyncChildren(SessionOf(st), slot, []).value) == Ok(after)
    ensures Valid(after) && after.forms == st.forms
    ensures forall i :: i in after.rows <==> i in st.rows && !Below(st.rows, slot, i)
    ensures forall i :: i in after.rows ==> after.rows[i] == st.rows[i]
  {
    hide SyncChildren;
    var s := SessionOf(st);
    var t := SyncChildren(s, slot, []).value;
    SessionIsSound(st);
    SyncChildrenCorrect(s, slot, [], t);
    SyncedForms(s, t, slot, [], st.forms.Keys);
    CommitSound(st, t);
    SessionIsStore(st, after, t);
    forall i ensures !Below(t.live, slot, i) {
      NothingBelow(t.live, slot, i);
    }
  }

  /**
   An empty list of nested fields removes every descendant and nothing else, if the form stays; with a change of
   form it is the plain update, descendants included.
   */
  lemma UpdateWithCorrect(st: Store, id: int, p: FieldPatch, subs: SubFields, after: Store)
    requires Valid(st) && UpdateWith(st, id, p, subs) == Ok(after)
    ensures Valid(after) && after.forms == st.forms && id in st.rows && id in after.rows && subs != Nonempty
    ensures Rewrites(st.rows[id], after.rows[id], p)
    ensures forall i :: i in st.rows && i != id && i !in Descendants(st.rows, id) ==>
      i in after.rows && after.rows[i] == st.rows[i]
    ensures forall i :: i in after.rows ==> i in st.rows
    ensures forall i :: i in Descendants(st.rows, id) ==>
      if subs.Emptied? && after.rows[id].formId == st.rows[id].formId then i !in after.rows
      else i in after.rows && after.rows[i] == st.rows[i].(formId := after.rows[id].formId)
  {
    hide SyncChildren;
    hide Commit;
    hide FlushedUpdate;
    hide UpdateField;
    hide Valid;
    hide Rewrites;
    hide TargetForm;
    var mid := UpdateField(st, id, p).value;
    UpdateFieldCorrect(st, id, p, mid);
    RewrittenForm(st.rows[id], mid.rows[id], p);
    if subs.Emptied? && TargetForm(st.rows[id], p) == st.rows[id].formId {
      UpdateCoherent(st, id, p);
      EmptiedRows(st, id, p, mid, after);
    }
  }

  lemma RewrittenForm(row: Field, after: Field, p: FieldPatch)
    requires Rewrites(row, after, p)
    ensures after.formId == TargetForm(row, p)
  {
  }

  lemma EmptiedRows(st: Store, id: int, p: FieldPatch, mid: Store, after: Store)
    requires Valid(st) && UpdateField(st, id, p) == Ok(mid) && id in st.rows
      && TargetForm(st.rows[id], p) == st.rows[id].formId
    requires Valid(mid) && mid.forms == st.forms && id in mid.rows && mid.rows[id].formId == st.rows[id].formId
    requires SessionOf(mid).Coherent()
    requires var t := SyncChildren(SessionOf(mid), Slot(st.rows[id].formId, Some(id)), []);
      t.Ok? && Commit(mid, t.value) == Ok(after)
    ensures Valid(after) && after.forms == st.forms
    ensures forall i :: i in after.rows <==> i in mid.rows && i !in Descendants(st.rows, id)
    ensures forall i :: i in after.rows ==> after.rows[i] == mid.rows[i]
    ensures id !in Descendants(st.rows, id)
  {
    hide SyncChildren;
    hide Commit;
    hide UpdateField;
    var slot := Slot(st.rows[id].formId, Some(id));
    EmptiedCorrect(mid, slot, after);
    UpdatedElsewhere(st, id, p, mid);
    forall i ensures Below(st.rows, slot, i) <==> Below(mid.rows, slot, i) {
      SameDescendants(st.rows, mid.rows, slot, id, i);
    }
    if Below(st.rows, slot, id) {
      var rank :| Ranked(st.rows, rank);
      KeepsBelow(st.rows, st.rows, rank, slot, id, id);
    }
  }

  /** A field cannot be put under itself or under one of its descendants. */
  lemma OwnSubtreeRefused(st: Store, id: int, p: FieldPatch)
    requires Valid(st) && id in st.rows && p.formId.Keep?
    requires p.parentId.SetTo? && p.parentId.value in st.rows && InSubtree(st.rows, id, p.parentId.value)
    ensures UpdateField(st, id, p) == Err(InvalidParent)
  {
    var rank :| Ranked(st.rows, rank);
    if p.parentId.value != id {
      BelowRank(st.rows, rank, Slot(st.rows[id].formId, Some(id)), p.parentId.value);
    }
  }

  // ---- Delete ----

  lemma OneTop(rows: Rows, id: int)
    requires id in rows
    ensures SubtreesOf(rows, {id}) == Subtree(rows, id)
  {
    forall i | i in Subtree(rows, id) ensures InSubtrees(rows, {id}, i) {
      assert id in {id};
    }
  }

  /** Deleting a field removes its subtree, and only that, from the forest. */
  lemma DeleteFieldCorrect(st: Store, id: int, after: Store)
    requires Valid(st) && DeleteField(st, id) == Ok(after)
    ensures Valid(after) && after.forms == st.forms
    ensures forall i :: i in st.rows ==>
      if i == id || i in Descendants(st.rows, id) then i !in after.rows
      else i in after.rows && after.rows[i] == st.rows[i]
    ensures after.rows.Keys <= st.rows.Keys
  {
    OneTop(st.rows, id);
    RemovalKeepsTree(st.rows, {id});
  }

  // ---- Forms ----

  /** Deleting a form removes its head and its fields, and leaves every other form and field. */
  lemma DeleteFormCorrect(st: Store, id: int, after: Store)
    requires Valid(st) && DeleteForm(st, id) == Ok(after)
    ensures Valid(after) && id in st.forms && id !in after.forms
    ensures forall f :: f in st.forms && f != id ==> f in after.forms && after.forms[f] == st.forms[f]
    ensures forall i :: i in st.rows ==>
      if st.rows[i].formId == id then i !in after.rows else i in after.rows && after.rows[i] == st.rows[i]
    ensures after.forms.Keys <= st.forms.Keys && after.rows.Keys <= st.rows.Keys
    ensures after.nextField == st.nextField && after.nextForm == st.nextForm
  {
    var rank :| Ranked(st.rows, rank);
    assert Ranked(after.rows, rank);
  }

  /** Saving a form head sets that head and changes nothing else. */
  lemma SaveFormCorrect(st: Store, id: int, head: FormHead, after: Store)
    requires Valid(st) && SaveForm(st, id, head) == Ok(after)
    ensures Valid(after) && after.rows == st.rows && id in after.forms && after.forms[id] == head
    ensures after.nextField == st.nextField
    ensures forall f :: f in st.forms && f != id ==> f in after.forms && after.forms[f] == st.forms[f]
    ensures forall f :: f in after.forms ==> f == id || f in st.forms
  {
  }

  predicate SameIdentity(a: FormHead, b: FormHead) {
    a.key == b.key && a.scope == b.scope && a.scopeValue == b.scopeValue && a.version == b.version
  }

  /**
   A head is saved exactly when it has a scope value just where its scope needs one, and no other stored form has
   its key, scope and version.
   */
  lemma SaveFormIff(st: Store, id: int, head: FormHead)
    requires Valid(st)
    ensures SaveForm(st, id, head).Ok? <==>
      && (head.scope == Global <==> head.scopeValue == None)
      && forall f :: f in st.forms && f != id ==> !SameIdentity(st.forms[f], head)
    ensures SaveForm(st, id, head).Err? ==> SaveForm(st, id, head).error == Integrity
    ensures UpdateForm(st, id, head) == if id in st.forms then SaveForm(st, id, head) else Err(NotFound)
  {
    var forms := st.forms[id := head];
    if f :| f in st.forms && f != id && SameIdentity(st.forms[f], head) {
      assert forms[f] == st.forms[f] && SameIndexEntry(forms[f], forms[id]);
    }
    if head.scope == Global <==> head.scopeValue == None {
      forall f, g | f in forms && g in forms && SameIndexEntry(forms[f], forms[g])
        ensures f == g || (f == id && SameIdentity(forms[g], head)) || (g == id && SameIdentity(forms[f], head))
      {
      }
    } else {
      assert forms[id] == head;
    }
  }

  /** A new form takes a new id; it is created exactly when its head may be saved. */
  lemma CreateFormCorrect(st: Store, head: FormHead)
    requires Valid(st)
    ensures CreateForm(st, head).Ok? <==>
      && (head.scope == Global <==> head.scopeValue == None)
      && forall f :: f in st.forms ==> !SameIdentity(st.forms[f], head)
    ensures CreateForm(st, head).Ok? ==>
      var after := CreateForm(st, head).value;
      after.rows == st.rows && exists id :: id !in st.forms && after.forms == st.forms[id := head]
  {
    SaveFormIff(st, st.nextForm, head);
    assert st.nextForm !in st.forms;
  }

  /** A seed goes to the one stored form with its key, scope, scope value and version, or to a new form. */
  lemma SeedTargetUnique(st: Store, head: FormHead)
    requires Valid(st)
    ensures var id := SeedTarget(st, head);
      && (id in st.forms ==> SameIdentity(st.forms[id], head))
      && forall f :: f in st.forms && SameIdentity(st.forms[f], head) ==> f == id
  {
    forall f | f in st.forms && SameIdentity(st.forms[f], head) ensures f == SeedTarget(st, head) {
      assert SameForm(st.forms[f], head);
      var g := SeedTarget(st, head);
      assert g in st.forms && SameForm(st.forms[g], head);
      assert SameIndexEntry(st.forms[f], st.forms[g]);
    }
  }

  /**
   A seeded form ends up with exactly the seed's field tree; other forms keep their fields.
   */
  lemma UpsertFormCorrect(st: Store, seed: Seed, after: Store)
    requires Valid(st) && UpsertForm(st, seed) == Ok(after)
    ensures Valid(after)
    ensures var id := SeedTarget(st, seed.head);
      && (id in st.forms ==> SameIdentity(st.forms[id], seed.head))
      && (forall f :: f in st.forms && SameIdentity(st.forms[f], seed.head) ==> f == id)
      && id in after.forms && after.forms[id] == seed.head
      && (forall f :: f in st.forms && f != id ==> f in after.forms && after.forms[f] == st.forms[f])
      && (forall f :: f in after.forms ==> f == id || f in st.forms)
      && Matches(after.rows, Slot(id, None), seed.fields)
      && (forall i :: i in st.rows && st.rows[i].formId != id ==> i in after.rows && after.rows[i] == st.rows[i])
      && (forall i :: i in after.rows && after.rows[i].formId != id ==> i in st.rows && st.rows[i] == after.rows[i])
  {
    var id := SeedTarget(st, seed.head);
    var saved := SaveForm(st, id, seed.head).value;
    var slot := Slot(id, None);
    SaveFormCorrect(st, id, seed.head, saved);
    SeedTargetUnique(st, seed.head);
    hide SeedTarget;
    SessionIsSound(st);
    var s := SessionOf(st);
    var t := SyncChildren(s, slot, seed.fields).value;
    SyncChildrenCorrect(s, slot, seed.fields, t);
    hide SyncChildren;
    CommitSound(saved, t);
    SyncedForms(s, t, slot, seed.fields, saved.forms.Keys);
    SessionIsStore(saved, after, t);
    OtherFormsKept(s, t, slot, seed.fields);
  }

  lemma OtherFormsKept(s: Session, t: Session, slot: Slot, ps: seq<Node>)
    requires Sound(s) && Synced(s, t, slot, ps)
    ensures forall i :: i in s.live && s.live[i].formId != slot.formId ==> i in t.live && t.live[i] == s.live[i]
    ensures forall i :: i in t.live && t.live[i].formId != slot.formId ==> i in s.live && s.live[i] == t.live[i]
  {
    var rank :| Ranked(s.live, rank);
    var rank' :| Ranked(t.live, rank');
    forall i | i in s.live && Below(s.live, slot, i) ensures s.live[i].formId == slot.formId {
      BelowRank(s.live, rank, slot, i);
    }
    forall i | i in t.live && Below(t.live, slot, i) ensures t.live[i].formId == slot.formId {
      BelowRank(t.live, rank', slot, i);
    }
  }

  // ---- Runs ----

  datatype Request =
    | AddForm(head: FormHead)
    | EditForm(id: int, head: FormHead)
    | DropForm(id: int)
    | AddField(formId: int, parentId: Option<int>, node: Node)
    | EditField(id: int, patch: FieldPatch, subs: SubFields)
    | DropField(id: int)
    | SeedForms(seeds: seq<Seed>)

  ghost function ApplySeeds(st: Store, seeds: seq<Seed>): (r: Result<Store, Error>)
    requires Valid(st)
    ensures r.Ok? ==> Valid(r.value)
    decreases seeds
  {
    if seeds == [] then Ok(st) else
      var one := UpsertForm(st, seeds[0]);
      if one.Err? then one else
        UpsertFormCorrect(st, seeds[0], one.value);
        ApplySeeds(one.value, seeds[1..])
  }

  ghost function Perform(st: Store, request: Request): Result<Store, Error>
    requires Valid(st)
  {
    match request
    case AddForm(head) => CreateForm(st, head)
    case EditForm(id, head) => UpdateForm(st, id, head)
    case DropForm(id) => DeleteForm(st, id)
    case AddField(formId, parentId, node) => CreateField(st, formId, parentId, node)
    case EditField(id, patch, subs) => UpdateWith(st, id, patch, subs)
    case DropField(id) => DeleteField(st, id)
    case SeedForms(seeds) => ApplySeeds(st, seeds)
  }

  lemma PerformKeepsValid(st: Store, request: Request)
    requires Valid(st)
    ensures var r := Perform(st, request); r.Ok? ==> Valid(r.value)
  {
    var r := Perform(st, request);
    if r.Ok? {
      match request
      case AddForm(head) => SaveFormCorrect(st, st.nextForm, head, r.value);
      case EditForm(id, head) => SaveFormCorrect(st, id, head, r.value);
      case DropForm(id) => DeleteFormCorrect(st, id, r.value);
      case AddField(formId, parentId, node) => CreateFieldCorrect(st, formId, parentId, node, r.value);
      case EditField(id, patch, subs) => UpdateWithCorrect(st, id, patch, subs, r.value);
      case DropField(id) => DeleteFieldCorrect(st, id, r.value);
      case SeedForms(seeds) =>
    }
  }

  const EmptyStore := Store(map[], map[], 1, 1)

  /** The committed store after a run of requests; a failed request commits nothing. */
  ghost function Run(requests: seq<Request>): (st: Store)
    ensures Valid(st)
  {
    if requests == [] then
      EmptyIsValid();
      EmptyStore
    else
      var before := Run(requests[..|requests| - 1]);
      var r := Perform(before, requests[|requests| - 1]);
      PerformKeepsValid(before, requests[|requests| - 1]);
      if r.Ok? then r.value else before
  }

  lemma EmptyIsValid()
    ensures Valid(EmptyStore)
  {
    var none: map<int, nat> := map[];
    assert Ranked(EmptyStore.rows, none);
  }

  /** In every reachable store parents exist in the same form, keys are unique and no chain runs in a circle. */
  lemma EveryReachableStoreIsAForest(requests: seq<Request>)
    ensures var st := Run(requests);
      Forest(st.rows) && NoCycle(st.rows) && FormsOk(st.forms) && forall i :: i in st.rows ==>
        st.rows[i].formId in st.forms
  {
    AcyclicIffNoCycle(Run(requests).rows);
  }
}
