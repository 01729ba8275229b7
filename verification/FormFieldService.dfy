/**
 The request handlers over one database session, as they run: rows are rewritten in place,
 recursively and in loops. Each handler is tied to its specification in FormOps.
 */
module FormFieldService {
  import opened Prelude
  import opened FormStore
  import opened FormSync
  import opened FormSyncTheory
  import opened FormOps
  import opened FormOpsTheory

  /** The children of a field, whatever form they name: the query the subtree walks use. */
  function ChildrenOf(rows: Rows, top: int): set<int> {
    set i | i in rows && rows[i].parentId == Some(top)
  }

  lemma ChildrenOfInForest(rows: Rows, top: int)
    requires ParentsOk(rows) && top in rows
    ensures ChildrenOf(rows, top) == Children(rows, Slot(rows[top].formId, Some(top)))
  {
    forall i | i in ChildrenOf(rows, top) ensures i in Children(rows, Slot(rows[top].formId, Some(top))) {
      assert rows[i].parentId.Some? && rows[rows[i].parentId.value].formId == rows[i].formId;
    }
    forall i | i in Children(rows, Slot(rows[top].formId, Some(top))) ensures i in ChildrenOf(rows, top) {
    }
    assert ChildrenOf(rows, top) <= Children(rows, Slot(rows[top].formId, Some(top)));
  }

  /** The subtree of a child is a smaller part of the subtree. */
  lemma SubtreeShrinks(rows: Rows, rank: map<int, nat>, top: int, c: int)
    requires ParentsOk(rows) && Ranked(rows, rank) && top in rows && c in ChildrenOf(rows, top)
    ensures Subtree(rows, c) < Subtree(rows, top)
  {
    var under := Slot(rows[top].formId, Some(top));
    ChildrenOfInForest(rows, top);
    forall i | i in Subtree(rows, c) ensures i in Subtree(rows, top) && i != top {
      BelowChild(rows, rank, under, c, i);
      BelowRank(rows, rank, under, i);
    }
    assert top in Subtree(rows, top) && top !in Subtree(rows, c);
    assert Subtree(rows, c) <= Subtree(rows, top);
  }

  /** The rows in the subtrees of some children. */
  ghost function UnderAny(rows: Rows, cs: set<int>): set<int> {
    set i | i in rows && UnderSome(rows, cs, i)
  }

  lemma UnderNone(rows: Rows)
    ensures UnderAny(rows, {}) == {}
  {
    SameMembers(UnderAny(rows, {}), {});
  }

  lemma UnderAnyStep(rows: Rows, cs: set<int>, c: int)
    requires c in rows
    ensures UnderAny(rows, cs + {c}) == UnderAny(rows, cs) + Subtree(rows, c)
  {
    hide UnderSome;
    forall i ensures i in UnderAny(rows, cs + {c}) <==> i in UnderAny(rows, cs) + Subtree(rows, c) {
      UnderSomeStep(rows, cs, c, i);
    }
    SameMembers(UnderAny(rows, cs + {c}), UnderAny(rows, cs) + Subtree(rows, c));
  }

  lemma UnderAnyChild(rows: Rows, rank: map<int, nat>, top: int)
    requires ParentsOk(rows) && Ranked(rows, rank) && top in rows
    ensures UnderAny(rows, ChildrenOf(rows, top)) == Descendants(rows, top)
  {
    hide UnderSome;
    forall i ensures i in UnderAny(rows, ChildrenOf(rows, top)) <==> i in Descendants(rows, top) {
      UnderSomeChild(rows, rank, top, i);
    }
    SameMembers(UnderAny(rows, ChildrenOf(rows, top)), Descendants(rows, top));
  }

  /** Some child in cs has i in its subtree. */
  ghost predicate UnderSome(rows: Rows, cs: set<int>, i: int) {
    exists c :: c in cs && c in rows && i in Subtree(rows, c)
  }

  lemma UnderSomeChild(rows: Rows, rank: map<int, nat>, top: int, i: int)
    requires ParentsOk(rows) && Ranked(rows, rank) && top in rows
    ensures UnderSome(rows, ChildrenOf(rows, top), i) <==> i in Descendants(rows, top)
  {
    var under := Slot(rows[top].formId, Some(top));
    ChildrenOfInForest(rows, top);
    if i in Descendants(rows, top) {
      var c := TopmostUnder(rows, rank, under, i);
    }
    if UnderSome(rows, ChildrenOf(rows, top), i) {
      var c :| c in ChildrenOf(rows, top) && c in rows && i in Subtree(rows, c);
      BelowChild(rows, rank, under, c, i);
    }
  }

  lemma UnderSomeStep(rows: Rows, cs: set<int>, c: int, i: int)
    requires c in rows
    ensures UnderSome(rows, cs + {c}, i) <==> UnderSome(rows, cs, i) || i in Subtree(rows, c)
  {
    if UnderSome(rows, cs + {c}, i) {
      var d :| d in cs + {c} && d in rows && i in Subtree(rows, d);
    }
    if UnderSome(rows, cs, i) {
      var d :| d in cs && d in rows && i in Subtree(rows, d);
      assert d in cs + {c};
    }
    if i in Subtree(rows, c) {
      assert c in cs + {c};
    }
  }

  /** The field and everything under it, as the deletion cascade finds them. */
  method CollectSubtree(rows: Rows, top: int, ghost rank: map<int, nat>) returns (found: set<int>)
    requires ParentsOk(rows) && Ranked(rows, rank) && top in rows
    ensures found == Subtree(rows, top)
    decreases Subtree(rows, top)
  {
    found := {top};
    var todo := ChildrenOf(rows, top);
    ghost var done: set<int> := {};
    while todo != {}
      invariant done + todo == ChildrenOf(rows, top)
      invariant forall i :: i in found <==> i == top || UnderSome(rows, done, i)
      decreases todo
    {
      var c := Pick(todo);
      SubtreeShrinks(rows, rank, top, c);
      var under := CollectSubtree(rows, c, rank);
      forall i ensures UnderSome(rows, done + {c}, i) <==> UnderSome(rows, done, i) || i in under {
        UnderSomeStep(rows, done, c, i);
      }
      found, todo, done := found + under, todo - {c}, done + {c};
    }
    assert done == ChildrenOf(rows, top);
    forall i ensures UnderSome(rows, done, i) <==> i in Descendants(rows, top) {
      UnderSomeChild(rows, rank, top, i);
    }
    SameMembers(found, Subtree(rows, top));
  }

  /** The subtrees of several children of one container. */
  method CollectSubtrees(rows: Rows, slot: Slot, tops: set<int>, ghost rank: map<int, nat>) returns (gone: set<int>)
    requires ParentsOk(rows) && Ranked(rows, rank) && tops <= Children(rows, slot)
    ensures gone == SubtreesOf(rows, tops)
  {
    gone := {};
    var todo := tops;
    ghost var done: set<int> := {};
    while todo != {}
      invariant done + todo == tops
      invariant forall i :: i in gone <==> UnderSome(rows, done, i)
      decreases todo
    {
      var t := Pick(todo);
      assert t in Children(rows, slot);
      var under := CollectSubtree(rows, t, rank);
      forall i ensures UnderSome(rows, done + {t}, i) <==> UnderSome(rows, done, i) || i in under {
        UnderSomeStep(rows, done, t, i);
      }
      gone, todo, done := gone + under, todo - {t}, done + {t};
    }
    assert done == tops;
    forall i ensures i in gone <==> i in SubtreesOf(rows, tops) {
    }
    SameMembers(gone, SubtreesOf(rows, tops));
  }

  lemma SameMembers(a: set<int>, b: set<int>)
    requires forall i :: i in a <==> i in b
    ensures a == b
  {
    forall i | i in a ensures i in b {
    }
    forall i | i in b ensures i in a {
    }
    assert a <= b <= a;
  }

  lemma ProgressFacts(base: Session, s: Session, slot: Slot, existing: map<string, int>, ps: seq<Node>, k: nat)
    requires k <= |ps| && Progress(base, s, slot, existing, ps, k)
    ensures Sound(s) && s.Coherent() && Tree(s.live)
    ensures Obsolete(existing, ps) <= Children(s.live, slot)
  {
  }

  /** A container: its nodes one by one, then the children no node names. */
  lemma ChildrenInSteps(s: Session, slot: Slot, ps: seq<Node>)
    requires s.Coherent()
    ensures var existing := ExistingByKey(s.Visible(), slot);
      var r := SyncNodes(s, slot, existing, ps, 0);
      FormSync.SyncChildren(s, slot, ps) == if r.Err? then r else Ok(Doom(r.value, Obsolete(existing, ps)))
  {
  }

  /** One node of a payload: write and flush, synchronise its children, go on with the next. */
  lemma NodeInSteps(s: Session, slot: Slot, existing: map<string, int>, ps: seq<Node>, k: nat)
    requires s.Coherent() && k < |ps|
    ensures var f := Flush(Write(s, slot, existing, ps[k], k));
      if f.Err? then SyncNodes(s, slot, existing, ps, k) == Err(Integrity)
      else
        && f.value.Coherent()
        && var c := FormSync.SyncChildren(f.value, Inner(slot, WrittenId(s, existing, ps[k])), ps[k].subFields);
        SyncNodes(s, slot, existing, ps, k) == if c.Err? then c else SyncNodes(c.value, slot, existing, ps, k + 1)
  {
    hide Write;
    hide FormSync.SyncChildren;
    if f :| Flush(Write(s, slot, existing, ps[k], k)) == Ok(f) {
      WriteCoherent(s, slot, existing, ps[k], k, f);
    }
  }

  /** Seeding a form: save its head, synchronise its fields, commit. */
  lemma SeedInSteps(st: Store, seed: Seed)
    requires Valid(st)
    ensures var id := SeedTarget(st, seed.head);
      var saved := SaveForm(st, id, seed.head);
      var s := FormSync.SyncChildren(SessionOf(st), Slot(id, None), seed.fields);
      UpsertForm(st, seed) ==
        if saved.Err? then saved else if s.Err? then Err(s.error) else Commit(saved.value, s.value)
  {
    hide FormSync.SyncChildren;
  }

  /** A seed whose head can be saved: its outcome is that of synchronising its fields, which then pass the flush. */
  lemma SeedOutcome(st: Store, seed: Seed, id: int)
    requires Valid(st) && id == SeedTarget(st, seed.head) && FormsOk(st.forms[id := seed.head])
    ensures var r := FormSync.SyncChildren(SessionOf(st), Slot(id, None), seed.fields);
      && (r.Err? ==> UpsertForm(st, seed) == Err(r.error))
      && (r.Ok? ==> Flush(r.value).Ok? && UpsertForm(st, seed) == Ok(SeededStore(st, id, seed.head, r.value)))
  {
    hide FormSync.SyncChildren;
    hide SeedTarget;
    hide UpsertForm;
    hide Valid;
    SeedInSteps(st, seed);
    SessionIsSound(st);
    var r := FormSync.SyncChildren(SessionOf(st), Slot(id, None), seed.fields);
    if r.Ok? {
      SyncChildrenCorrect(SessionOf(st), Slot(id, None), seed.fields, r.value);
      SyncedSound(SessionOf(st), r.value, Slot(id, None), seed.fields);
      CommitSound(SaveForm(st, id, seed.head).value, r.value);
    }
  }

  function SeededStore(st: Store, id: int, head: FormHead, s: Session): Store {
    Store(st.forms[id := head], s.live, s.nextId, if st.nextForm <= id then id + 1 else st.nextForm)
  }

  lemma RankOfSound(s: Session) returns (rank: map<int, nat>)
    requires Sound(s)
    ensures ParentsOk(s.live) && Ranked(s.live, rank)
  {
    rank :| Ranked(s.live, rank);
  }

  /** A key in the dictionary names a live row. */
  lemma WritesInPlace(base: Session, s: Session, slot: Slot, existing: map<string, int>, ps: seq<Node>, k: nat)
    requires k < |ps| && Progress(base, s, slot, existing, ps, k)
    ensures ps[k].key in existing ==> existing[ps[k].key] in s.live
  {
  }

  lemma HasKeyStep(ps: seq<Node>, k: nat)
    requires k < |ps|
    ensures forall key :: HasKey(ps[..k + 1], key) <==> HasKey(ps[..k], key) || key == ps[k].key
  {
    assert ps[..k + 1][k] == ps[k];
    forall key ensures HasKey(ps[..k + 1], key) <==> HasKey(ps[..k], key) || key == ps[k].key {
      if HasKey(ps[..k], key) {
        var j :| 0 <= j < k && ps[..k][j].key == key;
        assert ps[..k + 1][j].key == key;
      }
      if HasKey(ps[..k + 1], key) && key != ps[k].key {
        var j :| 0 <= j < k + 1 && ps[..k + 1][j].key == key;
        assert ps[..k][j].key == key;
      }
    }
  }

  lemma ObsoleteByExpected(existing: map<string, int>, ps: seq<Node>, expected: set<string>)
    requires forall key :: key in expected <==> HasKey(ps, key)
    ensures (set key | key in existing && key !in expected :: existing[key]) == Obsolete(existing, ps)
  {
  }

  lemma NoKeys(ps: seq<Node>)
    ensures forall key :: !HasKey(ps[..0], key)
  {
  }

  lemma NodesDone(s: Session, slot: Slot, existing: map<string, int>, ps: seq<Node>)
    requires s.Coherent()
    ensures SyncNodes(s, slot, existing, ps, |ps|) == Ok(s)
  {
  }

  /**
   Apart from the moved field root, whose new parent is outside its old subtree, the
   working table has the parents of the table the request found.
   */
  ghost predicate SameParents(base: Rows, rows: Rows, root: int) {
    && root in base && rows.Keys == base.Keys
    && (forall i :: i in base && i != root ==> base[i].parentId == rows[i].parentId)
    && (rows[root].parentId.Some? ==> rows[root].parentId.value !in Subtree(base, root))
  }

  lemma SameChildren(base: Rows, rank: map<int, nat>, rows: Rows, root: int, top: int)
    requires ParentsOk(base) && Ranked(base, rank) && SameParents(base, rows, root)
    requires top in Subtree(base, root)
    ensures ChildrenOf(rows, top) == ChildrenOf(base, top) && root !in ChildrenOf(base, top)
  {
    if root in ChildrenOf(base, top) {
      SubtreeShrinks(base, rank, top, root);
      assert top in Subtree(base, top);
      RootAbove(base, rank, root, top);
    }
    forall i | i in ChildrenOf(rows, top) ensures i in ChildrenOf(base, top) {
      assert i in base;
    }
    forall i | i in ChildrenOf(base, top) ensures i in ChildrenOf(rows, top) {
      assert i in rows;
    }
    assert ChildrenOf(rows, top) <= ChildrenOf(base, top) <= ChildrenOf(rows, top);
  }

  /** A field in root's subtree ranks no lower than root. */
  lemma RootAbove(rows: Rows, rank: map<int, nat>, root: int, top: int)
    requires ParentsOk(rows) && Ranked(rows, rank) && root in rows && top in Subtree(rows, root)
    ensures rank[root] <= rank[top]
  {
    if top != root {
      BelowRank(rows, rank, Slot(rows[root].formId, Some(root)), top);
    }
  }

  lemma ChildInSubtree(rows: Rows, rank: map<int, nat>, root: int, top: int, c: int)
    requires ParentsOk(rows) && Ranked(rows, rank) && root in rows && top in Subtree(rows, root)
    requires c in ChildrenOf(rows, top)
    ensures c in Subtree(rows, root)
  {
    BelowUnfold(rows, Slot(rows[root].formId, Some(root)), c);
    if top == root {
      ChildrenOfInForest(rows, root);
    }
  }

  lemma RelabelNone(rows: Rows, formId: int)
    ensures Relabel(rows, {}, formId) == rows
  {
  }

  lemma ChangedForm(base: Rows, rows: Rows, root: int, c: int, formId: int)
    requires SameParents(base, rows, root) && c in base
    ensures c in rows && SameParents(base, rows[c := rows[c].(formId := formId)], root)
  {
  }

  /** Relabelling child c and then its descendants adds c's subtree to what is relabelled. */
  lemma RelabelMore(start: Rows, before: Rows, after: Rows, moved: set<int>, base: Rows, root: int, c: int, formId: int)
    requires before == Relabel(start, moved, formId) && c in before && SameParents(base, before, root)
    requires after == Relabel(before[c := before[c].(formId := formId)], Descendants(base, c), formId)
    ensures after == Relabel(start, moved + Subtree(base, c), formId) && SameParents(base, after, root)
  {
    var goal := Relabel(start, moved + Subtree(base, c), formId);
    assert after.Keys == before.Keys == start.Keys == goal.Keys;
    forall i | i in after ensures after[i] == goal[i] {
      assert i in Subtree(base, c) <==> i == c || i in Descendants(base, c);
    }
  }

  /** Without a change of form the flushed session is the committed one. */
  lemma EmptiedStart(st: Store, id: int, p: FieldPatch, s: Session)
    requires Valid(st) && id in st.rows && TargetForm(st.rows[id], p) == st.rows[id].formId
    requires FlushedUpdate(st, id, p).Ok? && UpdateField(st, id, p) == Commit(st, s) && s.doomed == map[]
    requires s == FlushedUpdate(st, id, p).value
    ensures UpdateField(st, id, p).Ok? && SessionOf(UpdateField(st, id, p).value) == s
    ensures Sound(s) && SlotOk(s.live, Slot(st.rows[id].formId, Some(id)))
  {
    assert s.Visible() == s.live;
    UpdateFieldCorrect(st, id, p, UpdateField(st, id, p).value);
    SessionIsSound(UpdateField(st, id, p).value);
  }

  /** A form matching the seed is the only one; without a match the seed gets a new id. */
  lemma SeedTargetIs(st: Store, head: FormHead, id: int)
    requires FormsOk(st.forms)
    requires if id in st.forms then SameForm(st.forms[id], head)
      else id == st.nextForm && forall f :: f in st.forms ==> !SameForm(st.forms[f], head)
    ensures SeedTarget(st, head) == id
  {
    if f :| f in st.forms && SameForm(st.forms[f], head) {
      assert SameIndexEntry(st.forms[f], st.forms[id]);
    }
  }

  /** The session over the two form tables. */
  class FormDatabase {
    var forms: map<int, FormHead>
    var rows: Rows
    var doomed: Rows
    var nextField: int
    var nextForm: int

    /** The committed tables, between requests. */
    function Tables(): Store
      reads this
    {
      Store(forms, rows, nextField, nextForm)
    }

    function Working(): Session
      reads this
    {
      Session(rows, doomed, nextField)
    }

    ghost predicate AtRest()
      reads this
    {
      Valid(Tables()) && doomed == map[]
    }

    constructor ()
      ensures AtRest() && Tables() == EmptyStore
    {
      forms, rows, doomed, nextField, nextForm := map[], map[], map[], 1, 1;
      new;
      EmptyIsValid();
    }

    /** Write the pending rows and drop the doomed ones, unless a constraint refuses. */
    method FlushRows() returns (ok: bool)
      modifies this`doomed
      ensures ok <==> old(Flush(Working())).Ok?
      ensures if ok then Ok(Working()) == old(Flush(Working())) else unchanged(this)
    {
      ok := KeysUnique(rows + doomed) && AllComplete(rows);
      if ok {
        doomed := map[];
      }
    }

    method Rollback(to: Store)
      modifies this
      ensures Tables() == to && doomed == map[]
    {
      forms, rows, nextField, nextForm, doomed := to.forms, to.rows, to.nextField, to.nextForm, map[];
    }

    /** Mark fields and their subtrees for deletion. */
    method DoomAll(slot: Slot, tops: set<int>)
      requires Sound(Working()) && tops <= Children(rows, slot)
      modifies this`rows, this`doomed
      ensures Working() == Doom(old(Working()), tops)
    {
      ghost var rank := RankOfSound(Working());
      hide Sound;
      hide Ranked;
      hide ParentsOk;
      hide SubtreesOf;
      hide Taken;
      var gone := CollectSubtrees(rows, slot, tops, rank);
      rows, doomed := rows - gone, doomed + Taken(rows, gone);
    }

    /** Make the container's subtree the payload, recursively; report a constraint violation. */
    method SyncChildren(slot: Slot, ps: seq<Node>) returns (error: Option<Error>)
      requires Sound(Working()) && doomed == map[] && SlotOk(rows, slot)
      modifies this`rows, this`doomed, this`nextField
      ensures var r := FormSync.SyncChildren(old(Working()), slot, ps);
        if error.None? then r == Ok(Working()) else r == Err(error.value)
      decreases ps, 2
    {
      ghost var start := Working();
      StartsProgress(start, slot, ps);
      ProgressFacts(start, start, slot, ExistingByKey(rows + doomed, slot), ps, 0);
      ChildrenInSteps(start, slot, ps);
      hide FormSync.SyncChildren;
      hide Progress;
      hide Sound;
      hide Doom;
      var existing := ExistingByKey(rows + doomed, slot);
      var expected;
      error, expected := SyncPayload(slot, existing, ps, start);
      if error.None? {
        var obsolete := set key | key in existing && key !in expected :: existing[key];
        ObsoleteByExpected(existing, ps, expected);
        ProgressFacts(start, Working(), slot, existing, ps, |ps|);
        DoomAll(slot, obsolete);
      }
    }

    /** The loop over the payload, which also collects the keys it names. */
    method SyncPayload(slot: Slot, existing: map<string, int>, ps: seq<Node>, ghost start: Session)
      returns (error: Option<Error>, expected: set<string>)
      requires Working().Coherent() && Tree(start.live) && Progress(start, Working(), slot, existing, ps, 0)
      modifies this`rows, this`doomed, this`nextField
      ensures error.Some? ==> SyncNodes(old(Working()), slot, existing, ps, 0) == Err(error.value)
      ensures error.None? ==> Working().Coherent() && Progress(start, Working(), slot, existing, ps, |ps|)
      ensures error.None? ==> SyncNodes(old(Working()), slot, existing, ps, 0) == Ok(Working())
      ensures error.None? ==> forall key :: key in expected <==> HasKey(ps, key)
      decreases ps, 1
    {
      hide Progress;
      hide SyncNodes;
      hide Tree;
      hide HasKey;
      ghost var first := Working();
      expected := {};
      NoKeys(ps);
      var index := 0;
      while index < |ps|
        invariant 0 <= index <= |ps|
        invariant Working().Coherent() && first.Coherent()
        invariant Progress(start, Working(), slot, existing, ps, index)
        invariant SyncNodes(first, slot, existing, ps, 0) == SyncNodes(Working(), slot, existing, ps, index)
        invariant forall key :: key in expected <==> HasKey(ps[..index], key)
      {
        error := SyncOne(start, slot, existing, ps, index);
        if error.Some? {
          return;
        }
        HasKeyStep(ps, index);
        expected := expected + {ps[index].key};
        index := index + 1;
      }
      assert ps[..|ps|] == ps;
      NodesDone(Working(), slot, existing, ps);
      error := None;
    }

    /** One iteration: write the node, flush, synchronise its children. */
    method SyncOne(ghost start: Session, slot: Slot, existing: map<string, int>, ps: seq<Node>, k: nat)
      returns (error: Option<Error>)
      requires k < |ps| && Tree(start.live) && Progress(start, Working(), slot, existing, ps, k)
      requires Working().Coherent()
      modifies this`rows, this`doomed, this`nextField
      ensures error.None? ==> Working().Coherent() && Progress(start, Working(), slot, existing, ps, k + 1)
      ensures error.None? ==>
        SyncNodes(old(Working()), slot, existing, ps, k) == SyncNodes(Working(), slot, existing, ps, k + 1)
      ensures error.Some? ==> SyncNodes(old(Working()), slot, existing, ps, k) == Err(error.value)
      decreases ps, 0
    {
      hide Progress;
      hide Sound;
      hide Synced;
      hide Tree;
      hide KeysUnique;
      hide AllComplete;
      hide FormSync.SyncChildren;
      hide SyncNodes;
      ghost var s := Working();
      NodeInSteps(s, slot, existing, ps, k);
      WritesInPlace(start, s, slot, existing, ps, k);
      var node := ps[k];
      var id := nextField;
      if node.key in existing {
        id := existing[node.key];
        rows := rows[id := Overwrite(rows[id], slot, node, k)];
      } else {
        rows := rows[id := NewField(slot, node, k)];
        nextField := nextField + 1;
      }
      assert Working() == Write(s, slot, existing, node, k);
      var ok := FlushRows();
      if !ok {
        return Some(Integrity);
      }
      ghost var f := Working();
      ReadyForChildren(start, s, f, slot, existing, ps, k);
      error := SyncChildren(Slot(slot.formId, Some(id)), node.subFields);
      if error.None? {
        SyncChildrenCorrect(f, Inner(slot, id), node.subFields, Working());
        OneMoreNode(start, s, f, Working(), slot, existing, ps, k);
      }
    }

    /** The walk from the proposed parent up to the root, looking for the field itself. */
    method ValidateParentAssignment(formId: int, parentId: Option<int>, current: Option<int>)
      returns (r: Result<Option<int>, Error>)
      requires AtRest()
      ensures r == ValidateParent(rows, formId, parentId, current)
    {
      if parentId.None? {
        return Ok(None);
      }
      if parentId.value !in rows {
        return Err(NotFound);
      }
      if rows[parentId.value].formId != formId {
        return Err(InvalidParent);
      }
      if current.None? {
        return Ok(parentId);
      }
      ghost var rank :| Ranked(rows, rank);
      var cursor := parentId;
      while cursor.Some?
        invariant cursor.Some? ==> cursor.value in rows
        invariant MeetsItself(rows, parentId.value, current) <==>
          cursor.Some? && MeetsItself(rows, cursor.value, current)
        decreases if cursor.Some? then rank[cursor.value] + 1 else 0
      {
        if cursor == current {
          return Err(InvalidParent);
        }
        if current.value in rows {
          BelowUnfold(rows, Slot(rows[current.value].formId, current), cursor.value);
        }
        cursor := rows[cursor.value].parentId;
      }
      r := Ok(parentId);
    }

    /** Give every descendant of a field another form, walking down child by child. */
    method MoveSubtreeToForm(ghost base: Rows, ghost rank: map<int, nat>, ghost root: int, top: int, formId: int)
      requires ParentsOk(base) && Ranked(base, rank) && SameParents(base, rows, root) && top in Subtree(base, root)
      modifies this`rows
      ensures rows == Relabel(old(rows), Descendants(base, top), formId)
      decreases Subtree(base, top)
    {
      assert root in base && top in base;
      hide Relabel;
      hide SameParents;
      hide Subtree;
      hide Descendants;
      hide UnderAny;
      hide Ranked;
      hide ParentsOk;
      var todo := ChildrenOf(rows, top);
      SameChildren(base, rank, rows, root, top);
      ghost var done: set<int> := {};
      UnderNone(base);
      RelabelNone(rows, formId);
      while todo != {}
        invariant done + todo == ChildrenOf(base, top)
        invariant rows == Relabel(old(rows), UnderAny(base, done), formId) && SameParents(base, rows, root)
        decreases todo
      {
        var c := Pick(todo);
        assert c in ChildrenOf(base, top);
        SubtreeShrinks(base, rank, top, c);
        ChildInSubtree(base, rank, root, top, c);
        ghost var before := rows;
        ChangedForm(base, rows, root, c, formId);
        rows := rows[c := rows[c].(formId := formId)];
        MoveSubtreeToForm(base, rank, root, c, formId);
        RelabelMore(old(rows), before, rows, UnderAny(base, done), base, root, c, formId);
        UnderAnyStep(base, done, c);
        todo, done := todo - {c}, done + {c};
      }
      assert done == ChildrenOf(base, top);
      UnderAnyChild(base, rank, top);
    }

    /** The body of a create request up to its commit. */
    method CreateInSession(formId: int, parentId: Option<int>, node: Node) returns (error: Option<Error>)
      requires AtRest() && formId in forms && ValidateParent(rows, formId, parentId, None).Ok?
      modifies this`rows, this`doomed, this`nextField
      ensures var r := CreateField(old(Tables()), formId, parentId, node);
        if error.None? then r == Ok(Tables()) && doomed == map[] else r == Err(error.value)
    {
      hide FormSync.SyncChildren;
      hide Synced;
      hide OnlyChildWritten;
      hide Valid;
      hide Sound;
      hide SlotOk;
      hide KeysUnique;
      hide AllComplete;
      hide CreateField;
      hide NewField;
      hide ValidateParent;
      ghost var st := Tables();
      CreateInSteps(st, formId, parentId, node);
      var id := nextField;
      rows := rows[id := NewField(Slot(formId, parentId), node, 0)];
      nextField := nextField + 1;
      var ok := FlushRows();
      if !ok {
        return Some(Integrity);
      }
      ghost var f := Working();
      InsertSound(st, formId, parentId, node, f);
      error := SyncChildren(Slot(formId, Some(id)), node.subFields);
      if error.Some? {
        return;
      }
      SyncChildrenCorrect(f, Slot(formId, Some(id)), node.subFields, Working());
      SyncedSound(f, Working(), Slot(formId, Some(id)), node.subFields);
      CommitSound(st, Working());
      ok := FlushRows();
    }

    method Create(formId: int, parentId: Option<int>, node: Node) returns (error: Option<Error>)
      requires AtRest()
      modifies this
      ensures AtRest()
      ensures var r := CreateField(old(Tables()), formId, parentId, node);
        if error.None? then r == Ok(Tables()) else r == Err(error.value) && Tables() == old(Tables())
    {
      hide FormSync.SyncChildren;
      var before := Tables();
      if formId !in forms {
        return Some(NotFound);
      }
      var v := ValidateParentAssignment(formId, parentId, None);
      if v.Err? {
        return Some(v.error);
      }
      error := CreateInSession(formId, parentId, node);
      if error.Some? {
        Rollback(before);
      } else {
        PerformKeepsValid(before, AddField(formId, parentId, node));
      }
    }

    /** The field's own row and, on a change of form, its descendants. */
    method MoveInSession(id: int, patch: FieldPatch, formId: int, parentId: Option<int>) returns (ok: bool)
      requires AtRest() && id in rows && !patch.formId.SetNull? && !patch.key.SetNull? && !patch.orderIndex.SetNull?
      requires formId == TargetForm(rows[id], patch) && formId in forms && parentId == TargetParent(rows[id], patch)
      requires ValidateParent(rows, formId, parentId, Some(id)).Ok?
      modifies this`rows, this`doomed
      ensures ok == FlushedUpdate(old(Tables()), id, patch).Ok?
        && (!ok ==> FlushedUpdate(old(Tables()), id, patch) == Err(Integrity))
      ensures ok ==> doomed == map[] && UpdateField(old(Tables()), id, patch) == Commit(old(Tables()), Working())
      ensures ok && formId == old(rows[id].formId) ==> FlushedUpdate(old(Tables()), id, patch) == Ok(Working())
    {
      ghost var before := rows;
      var from := rows[id].formId;
      AcceptedParent(rows, formId, parentId, id);
      rows := rows[id := Patched(rows[id], formId, parentId, patch)];
      ok := FlushRows();
      if ok && formId != from {
        ghost var rank :| Ranked(before, rank);
        MoveSubtreeToForm(before, rank, id, id, formId);
      }
    }

    /** The body of an update request up to its commit, once the parent is accepted. */
    method UpdateInSession(id: int, patch: FieldPatch, formId: int, parentId: Option<int>, subs: SubFields)
      returns (error: Option<Error>)
      requires AtRest() && id in rows && !patch.formId.SetNull? && !patch.key.SetNull? && !patch.orderIndex.SetNull?
      requires formId == TargetForm(rows[id], patch) && formId in forms && parentId == TargetParent(rows[id], patch)
      requires ValidateParent(rows, formId, parentId, Some(id)).Ok?
      modifies this`rows, this`doomed, this`nextField
      ensures UpdateWith(old(Tables()), id, patch, subs) == if error.None? then Ok(Tables()) else Err(error.value)
      ensures error.None? ==> doomed == map[]
    {
      hide FormSync.SyncChildren;
      hide FlushedUpdate;
      hide UpdateField;
      ghost var st := Tables();
      var from := rows[id].formId;
      var ok := MoveInSession(id, patch, formId, parentId);
      if !ok {
        return Some(Integrity);
      }
      if subs.Nonempty? {
        return Some(Crashed);
      }
      if subs.Emptied? && formId == from {
        EmptiedStart(st, id, patch, Working());
        error := SyncChildren(Slot(formId, Some(id)), []);
        if error.Some? {
          return;
        }
      }
      ok := FlushRows();
      error := if ok then None else Some(Integrity);
    }

    method Update(id: int, patch: FieldPatch, subs: SubFields) returns (error: Option<Error>)
      requires AtRest()
      modifies this
      ensures AtRest()
      ensures var r := UpdateWith(old(Tables()), id, patch, subs);
        if error.None? then r == Ok(Tables()) else r == Err(error.value) && Tables() == old(Tables())
    {
      hide Valid;
      hide UpdateField;
      hide FormSync.SyncChildren;
      var before := Tables();
      if id !in rows || patch.formId.SetNull? {
        return Some(NotFound);
      }
      var formId := TargetForm(rows[id], patch);
      if formId !in forms {
        return Some(NotFound);
      }
      var v := ValidateParentAssignment(formId, TargetParent(rows[id], patch), Some(id));
      if v.Err? {
        return Some(v.error);
      }
      if patch.key.SetNull? || patch.orderIndex.SetNull? {
        return Some(Integrity);
      }
      error := UpdateInSession(id, patch, formId, v.value, subs);
      if error.None? {
        PerformKeepsValid(before, EditField(id, patch, subs));
      } else {
        Rollback(before);
      }
    }

    method Delete(id: int) returns (error: Option<Error>)
      requires AtRest()
      modifies this
      ensures AtRest()
      ensures var r := DeleteField(old(Tables()), id);
        if error.None? then r == Ok(Tables()) else r == Err(error.value) && Tables() == old(Tables())
    {
      ghost var before := Tables();
      if id !in rows {
        return Some(NotFound);
      }
      ghost var rank :| Ranked(rows, rank);
      var gone := CollectSubtree(rows, id, rank);
      rows := rows - gone;
      DeleteFieldCorrect(before, id, Tables());
      error := None;
    }

    /** The stored form with a seed's key, scope and version, or the id a new form takes. */
    method FindSeedForm(head: FormHead) returns (id: int)
      requires AtRest()
      ensures id == SeedTarget(Tables(), head)
      ensures id in forms ==> SameForm(forms[id], head)
    {
      var matching := set f | f in forms && SameForm(forms[f], head);
      id := nextForm;
      if matching != {} {
        id := Pick(matching);
      } else {
        forall f | f in forms ensures !SameForm(forms[f], head) {
          assert f !in matching;
        }
      }
      SeedTargetIs(Tables(), head, id);
    }

    /** Save one seeded form and make its fields the seed's. */
    method UpsertSeed(seed: Seed) returns (error: Option<Error>)
      requires AtRest()
      modifies this
      ensures error.None? ==> AtRest()
      ensures var r := UpsertForm(old(Tables()), seed);
        if error.None? then r == Ok(Tables()) else r == Err(error.value)
    {
      ghost var st := Tables();
      var id := FindSeedForm(seed.head);
      var saved := forms[id := seed.head];
      if !FormsOk(saved) {
        return Some(Integrity);
      }
      hide *;
      error := SyncSeedFields(id, seed);
      if error.None? {
        forms, nextForm := saved, if nextForm <= id then id + 1 else nextForm;
        UpsertFormCorrect(st, seed, Tables());
      }
    }

    /** The fields of a seeded form, synchronised and flushed. */
    method SyncSeedFields(id: int, seed: Seed) returns (error: Option<Error>)
      requires AtRest() && id == SeedTarget(Tables(), seed.head) && FormsOk(forms[id := seed.head])
      modifies this`rows, this`doomed, this`nextField
      ensures error.Some? ==> UpsertForm(old(Tables()), seed) == Err(error.value)
      ensures error.None? ==>
        doomed == map[] && UpsertForm(old(Tables()), seed) == Ok(SeededStore(old(Tables()), id, seed.head, Working()))
    {
      ghost var st := Tables();
      SessionIsSound(st);
      SeedOutcome(st, seed, id);
      assert Working() == SessionOf(st);
      hide SessionOf;
      hide FormSync.SyncChildren;
      hide UpsertForm;
      hide SeedTarget;
      hide Valid;
      hide Sound;
      hide FormsOk;
      error := SyncChildren(Slot(id, None), seed.fields);
      if error.None? {
        var ok := FlushRows();
      }
    }

    /** All seeds, one commit: an error anywhere leaves the tables as they were. */
    method ApplySeedDefinitions(seeds: seq<Seed>) returns (error: Option<Error>)
      requires AtRest()
      modifies this
      ensures AtRest()
      ensures var r := ApplySeeds(old(Tables()), seeds);
        if error.None? then r == Ok(Tables()) else r == Err(error.value) && Tables() == old(Tables())
    {
      var before := Tables();
      var index := 0;
      while index < |seeds|
        invariant 0 <= index <= |seeds| && AtRest()
        invariant ApplySeeds(before, seeds) == ApplySeeds(Tables(), seeds[index..])
      {
        error := UpsertSeed(seeds[index]);
        if error.Some? {
          Rollback(before);
          return;
        }
        assert seeds[index..][1..] == seeds[index + 1..];
        index := index + 1;
      }
      error := None;
    }
  }
}
