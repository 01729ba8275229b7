/** What a successful synchronisation does to the forest, and what it leaves alone. */
module FormSyncTheory {
  import opened Prelude
  import opened FormStore
  import opened FormSync

  /** A row holds everything its payload node supplies, and its position where the node gives no order. */
  ghost predicate Agrees(f: Field, node: Node, index: nat) {
    && f.key == node.key
    && (node.orderIndex.Some? ==> f.orderIndex == node.orderIndex.value)
    && (node.orderIndex.None? ==> f.orderIndex == index)
    && forall c :: c in node.values ==> c in f.values && f.values[c] == node.values[c]
  }

  /** A row holds the defaults of the columns its node does not supply: not required, bound dynamically, else NULL. */
  ghost predicate Defaulted(f: Field, node: Node) {
    forall c :: c !in node.values ==>
      && c in f.values
      && f.values[c] == if c == Required then Json("false") else if c == Binding then Json("dynamic") else Null
  }

  lemma NewFieldHolds(slot: Slot, node: Node, index: nat)
    ensures Agrees(NewField(slot, node, index), node, index) && Defaulted(NewField(slot, node, index), node)
  {
    var row := NewField(slot, node, index);
    forall c | c !in node.values
      ensures c in row.values && row.values[c] ==
        if c == Required then Json("false") else if c == Binding then Json("dynamic") else Null
    {
      match c
      case Label => case Type => case Required => case Placeholder => case DefaultValue =>
      case Validation => case Source => case Options => case Binding =>
    }
  }

  /** Among the first k nodes, node j is the last one with its key. */
  ghost predicate Last(ps: seq<Node>, k: nat, j: nat)
    requires k <= |ps|
  {
    j < k && forall m :: j < m < k ==> ps[m].key != ps[j].key
  }

  /**
   The subtree under the container is the payload: same keys, same nesting, same values.
   Where a payload repeats a key among siblings, its last occurrence counts.
   */
  ghost predicate Matches(rows: Rows, slot: Slot, ps: seq<Node>)
    decreases ps
  {
    && (forall i :: i in Children(rows, slot) ==> HasKey(ps, rows[i].key))
    && forall k :: 0 <= k < |ps| && Last(ps, |ps|, k) ==> Realised(rows, slot, ps[k], k)
  }

  ghost predicate Realised(rows: Rows, slot: Slot, node: Node, index: nat)
    decreases node
  {
    exists i :: i in Children(rows, slot) && RealisedBy(rows, slot, node, index, i)
  }

  ghost predicate RealisedBy(rows: Rows, slot: Slot, node: Node, index: nat, i: int)
    requires i in rows
    decreases node, 0
  {
    Agrees(rows[i], node, index) && Matches(rows, Slot(slot.formId, Some(i)), node.subFields)
  }

  /** Rows outside the container's subtree are the same rows; everything else is inside it. */
  ghost predicate Carries(old_: Rows, new_: Rows, slot: Slot) {
    && (forall i :: i in old_ && !Below(old_, slot, i) ==> i in new_ && new_[i] == old_[i])
    && forall i :: i in new_ ==> (i in old_ && !Below(old_, slot, i)) || Below(new_, slot, i)
  }

  ghost predicate Unchanged(a: Rows, b: Rows, i: int) {
    i in a && i in b && a[i] == b[i]
  }

  // ---- Facts about containers ----

  ghost predicate Tree(rows: Rows) {
    ParentsOk(rows) && Acyclic(rows)
  }

  function Inner(slot: Slot, i: int): Slot {
    Slot(slot.formId, Some(i))
  }

  lemma {:induction false} BelowChild(rows: Rows, rank: map<int, nat>, slot: Slot, c: int, x: int)
    requires ParentsOk(rows) && Ranked(rows, rank)
    requires c in Children(rows, slot) && InSubtree(rows, c, x)
    ensures Below(rows, slot, x)
    decreases if x in rows then rank[x] else 0
  {
    BelowUnfold(rows, slot, x);
    BelowUnfold(rows, Inner(slot, c), x);
    if x != c {
      BelowChild(rows, rank, slot, c, rows[x].parentId.value);
    }
  }

  /** The child of the container through which a row below it hangs. */
  lemma {:induction false} TopmostUnder(rows: Rows, rank: map<int, nat>, slot: Slot, i: int) returns (c: int)
    requires ParentsOk(rows) && Ranked(rows, rank) && Below(rows, slot, i)
    ensures c in Children(rows, slot) && i in Subtree(rows, c)
    decreases rank[i]
  {
    BelowUnfold(rows, slot, i);
    if rows[i].Home() == slot {
      c := i;
    } else {
      c := TopmostUnder(rows, rank, slot, rows[i].parentId.value);
      BelowUnfold(rows, Slot(rows[c].formId, Some(c)), i);
      BelowRank(rows, rank, slot, i);
    }
  }

  /** Rows kept by a change hang where they hung. */
  lemma {:induction false} OutsideKeepsPlace(old_: Rows, new_: Rows, rank: map<int, nat>, inner: Slot, at: Slot, i: int)
    requires ParentsOk(old_) && Ranked(old_, rank)
    requires Carries(old_, new_, inner)
    requires i in old_ && !Below(old_, inner, i)
    ensures Below(old_, at, i) <==> Below(new_, at, i)
    decreases rank[i]
  {
    BelowUnfold(old_, at, i);
    BelowUnfold(new_, at, i);
    BelowUnfold(old_, inner, i);
    if old_[i].parentId.Some? {
      OutsideKeepsPlace(old_, new_, rank, inner, at, old_[i].parentId.value);
    }
  }

  lemma CarriesTransitive(a: Rows, b: Rows, c: Rows, slot: Slot)
    requires Tree(a) && Carries(a, b, slot) && Carries(b, c, slot)
    ensures Carries(a, c, slot)
  {
    var rank :| Ranked(a, rank);
    forall i | i in a && !Below(a, slot, i) ensures i in c && c[i] == a[i] {
      OutsideKeepsPlace(a, b, rank, slot, slot, i);
    }
  }

  /** A change inside a child's subtree is a change inside the container's subtree. */
  lemma CarriesOutwards(old_: Rows, new_: Rows, slot: Slot, c: int)
    requires Tree(old_) && Tree(new_)
    requires c in Children(old_, slot) && c in Children(new_, slot)
    requires Carries(old_, new_, Inner(slot, c))
    ensures Carries(old_, new_, slot)
  {
    var rank :| Ranked(old_, rank);
    var rank' :| Ranked(new_, rank');
    forall i | i in old_ && !Below(old_, slot, i) ensures i in new_ && new_[i] == old_[i] {
      if Below(old_, Inner(slot, c), i) {
        BelowChild(old_, rank, slot, c, i);
      }
    }
    forall i | i in new_ ensures (i in old_ && !Below(old_, slot, i)) || Below(new_, slot, i) {
      if i in old_ && !Below(old_, Inner(slot, c), i) {
        OutsideKeepsPlace(old_, new_, rank, Inner(slot, c), slot, i);
      } else {
        BelowChild(new_, rank', slot, c, i);
      }
    }
  }

  /** No row of the container's subtree differs between the two tables. */
  ghost predicate Untouched(old_: Rows, new_: Rows, slot: Slot) {
    forall i :: Below(old_, slot, i) || Below(new_, slot, i) ==> Unchanged(old_, new_, i)
  }

  lemma UntouchedChildren(old_: Rows, new_: Rows, slot: Slot, i: int)
    requires Untouched(old_, new_, slot)
    ensures i in Children(new_, slot) <==> i in Children(old_, slot)
    ensures i in Children(old_, slot) ==> old_[i] == new_[i]
  {
    BelowUnfold(old_, slot, i);
    BelowUnfold(new_, slot, i);
    if i in Children(old_, slot) || i in Children(new_, slot) {
      assert Unchanged(old_, new_, i);
    }
  }

  lemma UntouchedInner(old_: Rows, new_: Rows, slot: Slot, c: int)
    requires Tree(old_) && Tree(new_) && Untouched(old_, new_, slot)
    requires c in Children(old_, slot)
    ensures Untouched(old_, new_, Inner(slot, c))
  {
    var rank :| Ranked(old_, rank);
    var rank' :| Ranked(new_, rank');
    UntouchedChildren(old_, new_, slot, c);
    forall x | Below(old_, Inner(slot, c), x) || Below(new_, Inner(slot, c), x)
      ensures Unchanged(old_, new_, x)
    {
      if Below(old_, Inner(slot, c), x) {
        BelowChild(old_, rank, slot, c, x);
      } else {
        BelowChild(new_, rank', slot, c, x);
      }
    }
  }

  /** A subtree none of whose rows changed still matches its payload. */
  lemma {:induction false} MatchesStable(old_: Rows, new_: Rows, slot: Slot, ps: seq<Node>)
    requires Tree(old_) && Tree(new_) && Untouched(old_, new_, slot)
    requires Matches(old_, slot, ps)
    ensures Matches(new_, slot, ps)
    decreases ps
  {
    forall i | i in Children(new_, slot) ensures HasKey(ps, new_[i].key) {
      UntouchedChildren(old_, new_, slot, i);
    }
    forall k | 0 <= k < |ps| && Last(ps, |ps|, k) ensures Realised(new_, slot, ps[k], k) {
      assert Realised(old_, slot, ps[k], k);
      var i :| i in Children(old_, slot) && RealisedBy(old_, slot, ps[k], k, i);
      UntouchedChildren(old_, new_, slot, i);
      UntouchedInner(old_, new_, slot, i);
      MatchesStable(old_, new_, Inner(slot, i), ps[k].subFields);
      assert RealisedBy(new_, slot, ps[k], k, i);
    }
  }

  // ---- The loop over a container's payload ----

  ghost predicate SlotOk(rows: Rows, slot: Slot) {
    slot.parentId.Some? ==> slot.parentId.value in rows && rows[slot.parentId.value].formId == slot.formId
  }

  ghost predicate Sound(s: Session) {
    s.Coherent() && Forest(s.live)
  }

  /** The dictionary of children still describes children. */
  ghost predicate Current(rows: Rows, slot: Slot, existing: map<string, int>) {
    forall key :: key in existing ==> existing[key] in Children(rows, slot) && rows[existing[key]].key == key
  }

  /** Every child was there before or comes from the first k payload nodes. */
  ghost predicate Accounted(rows: Rows, slot: Slot, existing: map<string, int>, ps: seq<Node>, k: nat)
    requires k <= |ps|
  {
    forall i :: i in Children(rows, slot) ==> rows[i].key in existing || HasKey(ps[..k], rows[i].key)
  }

  ghost predicate RealisedUpTo(rows: Rows, slot: Slot, ps: seq<Node>, k: nat)
    requires k <= |ps|
  {
    forall j :: 0 <= j < k && Last(ps, k, j) ==> Realised(rows, slot, ps[j], j)
  }

  /** Rows are either old or carry an id handed out since. */
  ghost predicate FreshIds(base: Session, s: Session) {
    base.nextId <= s.nextId && forall i :: i in s.live ==> i in base.live || base.nextId <= i
  }

  ghost predicate Progress(base: Session, s: Session, slot: Slot, existing: map<string, int>, ps: seq<Node>, k: nat)
    requires k <= |ps|
  {
    && Sound(s) && SlotOk(s.live, slot)
    && Carries(base.live, s.live, slot) && FreshIds(base, s)
    && Current(s.live, slot, existing) && Accounted(s.live, slot, existing, ps, k)
    && RealisedUpTo(s.live, slot, ps, k)
  }

  /** Only row c differs, and it is the same child of slot in both tables where it is in both. */
  ghost predicate OnlyChildWritten(old_: Rows, new_: Rows, slot: Slot, c: int) {
    && c in Children(new_, slot)
    && (c in old_ ==> c in Children(old_, slot))
    && new_.Keys == old_.Keys + {c}
    && (forall i :: i in old_ && i != c ==> old_[i] == new_[i])
    && (c !in old_ ==> forall i :: i in old_ ==> old_[i].parentId != Some(c))
  }

  lemma {:induction false} WrittenPlaces(old_: Rows, new_: Rows, rank: map<int, nat>, slot: Slot, c: int, at: Slot,
      i: int)
    requires ParentsOk(old_) && Ranked(old_, rank)
    requires OnlyChildWritten(old_, new_, slot, c)
    requires i in old_
    ensures Below(old_, at, i) <==> Below(new_, at, i)
    decreases rank[i]
  {
    BelowUnfold(old_, at, i);
    BelowUnfold(new_, at, i);
    if old_[i].parentId.Some? {
      WrittenPlaces(old_, new_, rank, slot, c, at, old_[i].parentId.value);
    }
  }

  lemma WrittenTree(old_: Rows, new_: Rows, slot: Slot, c: int)
    requires Tree(old_) && OnlyChildWritten(old_, new_, slot, c) && SlotOk(old_, slot)
    ensures Tree(new_) && SlotOk(new_, slot)
  {
    var rank :| Ranked(old_, rank);
    if slot.parentId.Some? {
      var p := slot.parentId.value;
      assert p in old_ && old_[p].formId == slot.formId && p in rank;
      assert p != c;
      assert new_[p] == old_[p];
    }
    forall i | i in new_ && new_[i].parentId.Some?
      ensures new_[i].parentId.value in new_ && new_[new_[i].parentId.value].formId == new_[i].formId
    {
      assert new_[c].Home() == slot && (c in old_ ==> old_[c].Home() == slot);
      if i != c {
        var p := old_[i].parentId.value;
        assert new_[i] == old_[i] && p in old_ && old_[p].formId == old_[i].formId;
        assert p != c ==> new_[p] == old_[p];
      }
    }
    var rank' := if c in old_ then rank
      else rank[c := if slot.parentId.Some? then rank[slot.parentId.value] + 1 else 0];
    assert Ranked(new_, rank');
  }

  lemma WrittenCarries(old_: Rows, new_: Rows, slot: Slot, c: int)
    requires Tree(old_) && OnlyChildWritten(old_, new_, slot, c)
    ensures Carries(old_, new_, slot)
  {
    var rank :| Ranked(old_, rank);
    BelowUnfold(old_, slot, c);
    BelowUnfold(new_, slot, c);
    forall i | i in new_ ensures (i in old_ && !Below(old_, slot, i)) || Below(new_, slot, i) {
      if i != c {
        WrittenPlaces(old_, new_, rank, slot, c, slot, i);
      }
    }
  }

  /** The subtrees of c's siblings are untouched by writing c. */
  lemma WrittenSiblings(old_: Rows, new_: Rows, slot: Slot, c: int, sibling: int)
    requires Tree(old_) && OnlyChildWritten(old_, new_, slot, c) && Tree(new_)
    requires sibling in Children(old_, slot) && sibling != c
    ensures Untouched(old_, new_, Inner(slot, sibling))
  {
    var rank :| Ranked(old_, rank);
    var rank' :| Ranked(new_, rank');
    if c in old_ {
      NotUnderSibling(old_, rank, slot, sibling, c);
    }
    NotUnderSibling(new_, rank', slot, sibling, c);
    forall x | Below(old_, Inner(slot, sibling), x) || Below(new_, Inner(slot, sibling), x)
      ensures Unchanged(old_, new_, x)
    {
      BelowUnfold(old_, Inner(slot, sibling), x);
      BelowUnfold(new_, Inner(slot, sibling), x);
    }
  }

  /** The subtrees of c's siblings are untouched by a change inside c's subtree. */
  lemma CarriedSiblings(old_: Rows, new_: Rows, slot: Slot, c: int, sibling: int)
    requires Tree(old_) && Tree(new_) && Carries(old_, new_, Inner(slot, c))
    requires c in Children(old_, slot) && c in Children(new_, slot)
    requires sibling in Children(old_, slot) && sibling in Children(new_, slot) && sibling != c
    ensures Untouched(old_, new_, Inner(slot, sibling))
  {
    var rank :| Ranked(old_, rank);
    var rank' :| Ranked(new_, rank');
    forall x | Below(old_, Inner(slot, sibling), x) || Below(new_, Inner(slot, sibling), x)
      ensures Unchanged(old_, new_, x)
    {
      if Below(old_, Inner(slot, sibling), x) {
        BelowUnfold(old_, Inner(slot, sibling), x);
        SiblingsDisjoint(old_, rank, slot, sibling, c, x);
      } else {
        BelowUnfold(new_, Inner(slot, sibling), x);
        SiblingsDisjoint(new_, rank', slot, sibling, c, x);
      }
    }
  }

  /** Earlier siblings stay realised when their subtrees are untouched. */
  lemma SiblingRealised(old_: Rows, new_: Rows, slot: Slot, node: Node, index: nat, i: int)
    requires Tree(old_) && Tree(new_)
    requires i in Children(old_, slot) && i in Children(new_, slot) && old_[i] == new_[i]
    requires RealisedBy(old_, slot, node, index, i)
    requires Untouched(old_, new_, Inner(slot, i))
    ensures Realised(new_, slot, node, index)
  {
    MatchesStable(old_, new_, Inner(slot, i), node.subFields);
    assert RealisedBy(new_, slot, node, index, i);
  }

  /** Inserting or overwriting a payload node writes exactly one child of the container. */
  lemma WriteIsChildWrite(s: Session, slot: Slot, existing: map<string, int>, node: Node, k: nat)
    requires Sound(s) && SlotOk(s.live, slot) && Current(s.live, slot, existing)
    ensures OnlyChildWritten(s.live, Write(s, slot, existing, node, k).live, slot, WrittenId(s, existing, node))
    ensures Agrees(Write(s, slot, existing, node, k).live[WrittenId(s, existing, node)], node, k)
    ensures var w := Write(s, slot, existing, node, k);
      w.live.Keys !! w.doomed.Keys && forall i :: i in w.live ==> i < w.nextId
  {
    var c := WrittenId(s, existing, node);
    var w := Write(s, slot, existing, node, k);
    assert forall i :: i in s.live ==> i in s.Visible();
    if node.key in existing {
      assert c in Children(s.live, slot);
    } else {
      assert c !in s.live;
      forall i | i in s.live ensures s.live[i].parentId != Some(c) {
        assert s.live[i].parentId.Some? ==> s.live[i].parentId.value in s.live;
      }
    }
    assert w.live.Keys == s.live.Keys + {c};
  }

  lemma WrittenCurrent(old_: Rows, new_: Rows, slot: Slot, existing: map<string, int>, node: Node, c: int)
    requires OnlyChildWritten(old_, new_, slot, c) && Current(old_, slot, existing)
    requires new_[c].key == node.key
    requires if node.key in existing then c == existing[node.key] else c !in old_
    ensures Current(new_, slot, existing)
  {
    forall key | key in existing ensures existing[key] in Children(new_, slot) && new_[existing[key]].key == key {
      var i := existing[key];
      assert i in Children(old_, slot) && old_[i].key == key;
    }
  }

  lemma WrittenAccounted(
    old_: Rows, new_: Rows, slot: Slot, existing: map<string, int>, ps: seq<Node>, k: nat, c: int)
    requires k < |ps|
    requires OnlyChildWritten(old_, new_, slot, c) && Accounted(old_, slot, existing, ps, k)
    requires new_[c].key == ps[k].key
    ensures Accounted(new_, slot, existing, ps, k + 1)
  {
    forall i | i in Children(new_, slot) ensures new_[i].key in existing || HasKey(ps[..k + 1], new_[i].key) {
      if i == c {
        assert ps[..k + 1][k].key == ps[k].key;
      } else {
        assert i in Children(old_, slot);
        if HasKey(ps[..k], old_[i].key) {
          var j :| 0 <= j < k && ps[..k][j].key == old_[i].key;
          assert ps[..k + 1][j].key == new_[i].key;
        }
      }
    }
  }

  /** Nodes realised earlier are not disturbed by changes confined to another child. */
  ghost predicate ConfinedTo(old_: Rows, new_: Rows, slot: Slot, c: int) {
    forall i :: i in Children(old_, slot) && i != c ==>
      i in Children(new_, slot) && old_[i] == new_[i] && Untouched(old_, new_, Inner(slot, i))
  }

  /** Before node k's own children are synchronised: what is realised and will still count. */
  ghost predicate OthersRealised(rows: Rows, slot: Slot, ps: seq<Node>, k: nat)
    requires k < |ps|
  {
    forall j :: 0 <= j < k && Last(ps, k + 1, j) ==> Realised(rows, slot, ps[j], j)
  }

  lemma EarlierStayRealised(old_: Rows, new_: Rows, slot: Slot, ps: seq<Node>, k: nat, c: int)
    requires k < |ps| && Tree(old_) && Tree(new_)
    requires OthersRealised(old_, slot, ps, k) && ConfinedTo(old_, new_, slot, c)
    requires c in Children(old_, slot) ==> old_[c].key == ps[k].key
    ensures OthersRealised(new_, slot, ps, k)
  {
    forall j | 0 <= j < k && Last(ps, k + 1, j) ensures Realised(new_, slot, ps[j], j) {
      assert Realised(old_, slot, ps[j], j);
      var i :| i in Children(old_, slot) && RealisedBy(old_, slot, ps[j], j, i);
      assert old_[i].key == ps[j].key;
      SiblingRealised(old_, new_, slot, ps[j], j, i);
    }
  }

  lemma StillCounting(rows: Rows, slot: Slot, ps: seq<Node>, k: nat)
    requires k < |ps| && RealisedUpTo(rows, slot, ps, k)
    ensures OthersRealised(rows, slot, ps, k)
  {
    forall j | 0 <= j < k && Last(ps, k + 1, j) ensures Realised(rows, slot, ps[j], j) {
      assert Last(ps, k, j);
    }
  }

  lemma WrittenConfined(old_: Rows, new_: Rows, slot: Slot, c: int)
    requires Tree(old_) && OnlyChildWritten(old_, new_, slot, c) && Tree(new_)
    ensures ConfinedTo(old_, new_, slot, c)
  {
    forall i | i in Children(old_, slot) && i != c
      ensures i in Children(new_, slot) && old_[i] == new_[i] && Untouched(old_, new_, Inner(slot, i))
    {
      WrittenSiblings(old_, new_, slot, c, i);
    }
  }

  /** One node written and flushed, before its own children are synchronised. */
  ghost predicate Midway(
    base: Session, f: Session, slot: Slot, existing: map<string, int>, ps: seq<Node>, k: nat, c: int)
    requires k < |ps|
  {
    && Sound(f) && f.doomed == map[] && SlotOk(f.live, slot)
    && Carries(base.live, f.live, slot) && FreshIds(base, f)
    && Current(f.live, slot, existing) && Accounted(f.live, slot, existing, ps, k + 1)
    && OthersRealised(f.live, slot, ps, k)
    && c in Children(f.live, slot) && Agrees(f.live[c], ps[k], k)
  }

  lemma WriteReachesMidway(
    base: Session, s: Session, f: Session, slot: Slot, existing: map<string, int>, ps: seq<Node>, k: nat)
    requires k < |ps| && Progress(base, s, slot, existing, ps, k)
    requires Tree(base.live)
    requires Flush(Write(s, slot, existing, ps[k], k)) == Ok(f)
    ensures Midway(base, f, slot, existing, ps, k, WrittenId(s, existing, ps[k]))
  {
    var c := WrittenId(s, existing, ps[k]);
    var old_, new_ := s.live, Write(s, slot, existing, ps[k], k).live;
    WriteIsChildWrite(s, slot, existing, ps[k], k);
    WrittenKeys(s, slot, existing, ps[k], k);
    assert Tree(old_) && f.live == new_;
    WrittenTree(old_, new_, slot, c);
    assert Carries(base.live, new_, slot) by {
      WrittenCarries(old_, new_, slot, c);
      CarriesTransitive(base.live, old_, new_, slot);
    }
    assert Current(new_, slot, existing) by {
      WrittenCurrent(old_, new_, slot, existing, ps[k], c);
    }
    assert Accounted(new_, slot, existing, ps, k + 1) by {
      WrittenAccounted(old_, new_, slot, existing, ps, k, c);
    }
    assert OthersRealised(new_, slot, ps, k) by {
      StillCounting(old_, slot, ps, k);
      WrittenConfined(old_, new_, slot, c);
      EarlierStayRealised(old_, new_, slot, ps, k, c);
    }
    assert FreshIds(base, f) by {
      WrittenFresh(base, s, slot, existing, ps[k], k);
    }
    FlushSound(Write(s, slot, existing, ps[k], k), f);
  }

  lemma FlushSound(w: Session, f: Session)
    requires Flush(w) == Ok(f) && Tree(w.live)
    requires forall i :: i in w.live ==> i < w.nextId
    requires w.live.Keys !! w.doomed.Keys
    ensures Sound(f)
  {
    assert f.Visible() == f.live;
    forall i, j | i in f.live && j in f.live && f.live[i].formId == f.live[j].formId && f.live[i].key == f.live[j].key
      ensures i == j
    {
      assert w.Visible()[i] == f.live[i] && w.Visible()[j] == f.live[j];
    }
  }

  lemma WrittenKeys(s: Session, slot: Slot, existing: map<string, int>, node: Node, k: nat)
    requires Sound(s) && Current(s.live, slot, existing)
    ensures var c := WrittenId(s, existing, node);
      && (if node.key in existing then c == existing[node.key] else c !in s.live)
      && (c in Children(s.live, slot) ==> s.live[c].key == node.key)
  {
    assert forall i :: i in s.live ==> i in s.Visible();
  }

  lemma WrittenFresh(base: Session, s: Session, slot: Slot, existing: map<string, int>, node: Node, k: nat)
    requires FreshIds(base, s) && Sound(s) && Current(s.live, slot, existing)
    ensures FreshIds(base, Write(s, slot, existing, node, k))
  {
  }

  // ---- The recursive call ----

  /** What synchronising a container achieves, from the session base to the session s. */
  ghost predicate Synced(base: Session, s: Session, slot: Slot, ps: seq<Node>) {
    && Sound(s) && FreshIds(base, s)
    && Carries(base.live, s.live, slot)
    && Matches(s.live, slot, ps)
  }

  /** The container's children are the same rows before and after a change inside child c. */
  lemma ChildrenKept(old_: Rows, new_: Rows, slot: Slot, c: int, i: int)
    requires Tree(old_) && Tree(new_) && Carries(old_, new_, Inner(slot, c)) && c in Children(old_, slot)
    ensures i in Children(old_, slot) <==> i in Children(new_, slot)
    ensures i in Children(old_, slot) ==> old_[i] == new_[i]
  {
    var rank :| Ranked(old_, rank);
    var rank' :| Ranked(new_, rank');
    NotUnderSibling(old_, rank, slot, c, c);
    if i in Children(old_, slot) {
      NotUnderSibling(old_, rank, slot, c, i);
    }
    if i in Children(new_, slot) {
      NotUnderSibling(new_, rank', slot, c, i);
    }
  }

  lemma SlotKept(old_: Rows, new_: Rows, slot: Slot, c: int)
    requires Tree(old_) && Carries(old_, new_, Inner(slot, c)) && c in Children(old_, slot) && SlotOk(old_, slot)
    ensures SlotOk(new_, slot)
  {
    var rank :| Ranked(old_, rank);
    if slot.parentId.Some? && Below(old_, Inner(slot, c), slot.parentId.value) {
      BelowRank(old_, rank, Inner(slot, c), slot.parentId.value);
    }
  }

  lemma ChildSyncConfined(old_: Rows, new_: Rows, slot: Slot, c: int)
    requires Tree(old_) && Tree(new_) && Carries(old_, new_, Inner(slot, c)) && c in Children(old_, slot)
    ensures ConfinedTo(old_, new_, slot, c)
  {
    ChildrenKept(old_, new_, slot, c, c);
    forall i | i in Children(old_, slot) && i != c
      ensures i in Children(new_, slot) && old_[i] == new_[i] && Untouched(old_, new_, Inner(slot, i))
    {
      ChildrenKept(old_, new_, slot, c, i);
      CarriedSiblings(old_, new_, slot, c, i);
    }
  }

  /** After the recursive call one more node is done. */
  lemma ChildSyncProgress(
    base: Session, f: Session, g: Session, slot: Slot, existing: map<string, int>, ps: seq<Node>, k: nat, c: int)
    requires k < |ps| && Tree(base.live)
    requires Midway(base, f, slot, existing, ps, k, c)
    requires Synced(f, g, Inner(slot, c), ps[k].subFields)
    ensures Progress(base, g, slot, existing, ps, k + 1)
  {
    var old_, new_ := f.live, g.live;
    assert Tree(old_) && Tree(new_) && Carries(old_, new_, Inner(slot, c));
    forall i ensures i in Children(old_, slot) <==> i in Children(new_, slot)
             ensures i in Children(old_, slot) ==> old_[i] == new_[i] {
      ChildrenKept(old_, new_, slot, c, i);
    }
    assert RealisedUpTo(new_, slot, ps, k + 1) by {
      ChildSyncConfined(old_, new_, slot, c);
      EarlierStayRealised(old_, new_, slot, ps, k, c);
      assert RealisedBy(new_, slot, ps[k], k, c);
      assert Realised(new_, slot, ps[k], k);
    }
    assert SlotOk(new_, slot) by {
      SlotKept(old_, new_, slot, c);
    }
    assert Carries(base.live, new_, slot) by {
      CarriesOutwards(old_, new_, slot, c);
      CarriesTransitive(base.live, old_, new_, slot);
    }
  }

  // ---- Removing the obsolete children ----

  lemma RemovalKeepsTree(rows: Rows, tops: set<int>)
    requires Tree(rows)
    ensures Tree(rows - SubtreesOf(rows, tops))
  {
    var rank :| Ranked(rows, rank);
    var left := rows - SubtreesOf(rows, tops);
    forall i | i in left && left[i].parentId.Some?
      ensures left[i].parentId.value in left && left[left[i].parentId.value].formId == left[i].formId
    {
      ChildOfRemoved(rows, tops, i);
    }
    assert Ranked(left, rank);
  }

  /** A row whose parent is removed is removed. */
  lemma ChildOfRemoved(rows: Rows, tops: set<int>, i: int)
    requires ParentsOk(rows) && i in rows && rows[i].parentId.Some?
    ensures rows[i].parentId.value in SubtreesOf(rows, tops) ==> i in SubtreesOf(rows, tops)
  {
    var p := rows[i].parentId.value;
    if p in SubtreesOf(rows, tops) {
      var t :| t in tops && t in rows && InSubtree(rows, t, p);
      BelowUnfold(rows, Slot(rows[t].formId, Some(t)), i);
      if p == t {
        assert rows[i].Home() == Slot(rows[t].formId, Some(t));
      }
      assert InSubtree(rows, t, i);
      assert InSubtrees(rows, tops, i);
    }
  }

  lemma {:induction false} RemovalKeepsPlace(rows: Rows, rank: map<int, nat>, tops: set<int>, at: Slot, i: int)
    requires ParentsOk(rows) && Ranked(rows, rank)
    requires i in rows && i !in SubtreesOf(rows, tops)
    ensures Below(rows, at, i) <==> Below(rows - SubtreesOf(rows, tops), at, i)
    decreases rank[i]
  {
    var left := rows - SubtreesOf(rows, tops);
    BelowUnfold(rows, at, i);
    BelowUnfold(left, at, i);
    if rows[i].parentId.Some? {
      ChildOfRemoved(rows, tops, i);
      RemovalKeepsPlace(rows, rank, tops, at, rows[i].parentId.value);
    }
  }

  lemma RemovalCarries(rows: Rows, tops: set<int>, slot: Slot)
    requires Tree(rows) && tops <= Children(rows, slot)
    ensures Carries(rows, rows - SubtreesOf(rows, tops), slot)
  {
    var rank :| Ranked(rows, rank);
    var gone := SubtreesOf(rows, tops);
    forall i | i in gone ensures Below(rows, slot, i) {
      var t :| t in tops && t in rows && InSubtree(rows, t, i);
      assert t in Children(rows, slot);
      BelowChild(rows, rank, slot, t, i);
    }
    forall i | i in rows - gone ensures !Below(rows, slot, i) || Below(rows - gone, slot, i) {
      RemovalKeepsPlace(rows, rank, tops, slot, i);
    }
  }

  /** Removing some children leaves the others' subtrees untouched. */
  lemma RemovalSparesSibling(rows: Rows, tops: set<int>, slot: Slot, i: int)
    requires Tree(rows) && tops <= Children(rows, slot)
    requires i in Children(rows, slot) && i !in tops
    ensures i in Children(rows - SubtreesOf(rows, tops), slot)
    ensures Untouched(rows, rows - SubtreesOf(rows, tops), Inner(slot, i))
  {
    var rank :| Ranked(rows, rank);
    var gone := SubtreesOf(rows, tops);
    forall x | x in rows && InSubtree(rows, i, x) ensures x !in gone {
      if x in gone {
        var t :| t in tops && t in rows && InSubtree(rows, t, x);
        assert t in Children(rows, slot);
        SiblingsDisjoint(rows, rank, slot, i, t, x);
      }
    }
    forall x | Below(rows, Inner(slot, i), x) || Below(rows - gone, Inner(slot, i), x)
      ensures Unchanged(rows, rows - gone, x)
    {
      BelowUnfold(rows, Inner(slot, i), x);
      BelowUnfold(rows - gone, Inner(slot, i), x);
    }
  }

  lemma RemovalMatches(rows: Rows, slot: Slot, existing: map<string, int>, ps: seq<Node>)
    requires Tree(rows) && Current(rows, slot, existing)
    requires Accounted(rows, slot, existing, ps, |ps|) && RealisedUpTo(rows, slot, ps, |ps|)
    requires KeysUnique(rows)
    ensures Obsolete(existing, ps) <= Children(rows, slot)
    ensures Matches(rows - SubtreesOf(rows, Obsolete(existing, ps)), slot, ps)
  {
    var tops := Obsolete(existing, ps);
    var left := rows - SubtreesOf(rows, tops);
    assert ps[..|ps|] == ps;
    RemovalKeepsTree(rows, tops);
    forall i | i in Children(left, slot) ensures HasKey(ps, left[i].key) {
      if !HasKey(ps, left[i].key) {
        assert i in Children(rows, slot) && rows[i].key in existing;
        assert existing[rows[i].key] == i;
        assert i in tops && InSubtree(rows, i, i);
      }
    }
    forall k | 0 <= k < |ps| && Last(ps, |ps|, k) ensures Realised(left, slot, ps[k], k) {
      assert Realised(rows, slot, ps[k], k);
      var i :| i in Children(rows, slot) && RealisedBy(rows, slot, ps[k], k, i);
      assert i !in tops;
      RemovalSparesSibling(rows, tops, slot, i);
      SiblingRealised(rows, left, slot, ps[k], k, i);
    }
  }

  lemma DoomSyncs(base: Session, s: Session, slot: Slot, existing: map<string, int>, ps: seq<Node>)
    requires Tree(base.live) && Progress(base, s, slot, existing, ps, |ps|)
    ensures Synced(base, Doom(s, Obsolete(existing, ps)), slot, ps)
  {
    var tops := Obsolete(existing, ps);
    var left := s.live - SubtreesOf(s.live, tops);
    LiveKeysUnique(s);
    RemovalMatches(s.live, slot, existing, ps);
    RemovalKeepsTree(s.live, tops);
    WithdrawKeepsVisible(s, SubtreesOf(s.live, tops));
    LiveKeysUnique(Doom(s, tops));
    assert Carries(base.live, left, slot) by {
      RemovalCarries(s.live, tops, slot);
      CarriesTransitive(base.live, s.live, left, slot);
    }
  }

  lemma LiveKeysUnique(s: Session)
    requires s.Coherent()
    ensures KeysUnique(s.live)
  {
    forall i, j | i in s.live && j in s.live && s.live[i].formId == s.live[j].formId && s.live[i].key == s.live[j].key
      ensures i == j
    {
      assert s.Visible()[i] == s.live[i] && s.Visible()[j] == s.live[j];
    }
  }

  lemma ReadyForChildren(
    base: Session, s: Session, f: Session, slot: Slot, existing: map<string, int>, ps: seq<Node>, k: nat)
    requires k < |ps| && Tree(base.live)
    requires Progress(base, s, slot, existing, ps, k)
    requires Flush(Write(s, slot, existing, ps[k], k)) == Ok(f)
    ensures f.Coherent() && Sound(f) && f.doomed == map[] && SlotOk(f.live, Inner(slot, WrittenId(s, existing, ps[k])))
  {
    WriteReachesMidway(base, s, f, slot, existing, ps, k);
  }

  lemma OneMoreNode(
    base: Session, s: Session, f: Session, g: Session, slot: Slot, existing: map<string, int>, ps: seq<Node>, k: nat)
    requires k < |ps| && Tree(base.live)
    requires Progress(base, s, slot, existing, ps, k)
    requires Flush(Write(s, slot, existing, ps[k], k)) == Ok(f)
    requires Synced(f, g, Inner(slot, WrittenId(s, existing, ps[k])), ps[k].subFields)
    ensures Progress(base, g, slot, existing, ps, k + 1)
  {
    WriteReachesMidway(base, s, f, slot, existing, ps, k);
    ChildSyncProgress(base, f, g, slot, existing, ps, k, WrittenId(s, existing, ps[k]));
  }

  lemma StartsProgress(s: Session, slot: Slot, ps: seq<Node>)
    requires Sound(s) && s.doomed == map[] && SlotOk(s.live, slot)
    ensures Progress(s, s, slot, ExistingByKey(s.Visible(), slot), ps, 0)
  {
    assert s.Visible() == s.live;
    var existing := ExistingByKey(s.live, slot);
    forall i | i in Children(s.live, slot) ensures s.live[i].key in existing {
    }
    CarriesItself(s.live, slot);
  }

  lemma CarriesItself(rows: Rows, slot: Slot)
    ensures Carries(rows, rows, slot)
  {
  }

  /**
   Whenever a synchronisation goes through, the container's subtree is the payload,
   everything outside it is the same rows, and the table is still a forest.
   */
  lemma {:induction false} SyncChildrenCorrect(s: Session, slot: Slot, ps: seq<Node>, end: Session)
    requires Sound(s) && s.doomed == map[] && SlotOk(s.live, slot)
    requires SyncChildren(s, slot, ps) == Ok(end)
    ensures Synced(s, end, slot, ps)
    decreases ps, |ps| + 1
  {
    var existing := ExistingByKey(s.Visible(), slot);
    StartsProgress(s, slot, ps);
    var t := SyncNodes(s, slot, existing, ps, 0).value;
    SyncNodesCorrect(s, s, slot, existing, ps, 0, t);
    DoomSyncs(s, t, slot, existing, ps);
  }

  lemma {:induction false} SyncNodesCorrect(
    base: Session, s: Session, slot: Slot, existing: map<string, int>, ps: seq<Node>, k: nat, end: Session)
    requires k <= |ps| && Tree(base.live)
    requires Progress(base, s, slot, existing, ps, k)
    requires SyncNodes(s, slot, existing, ps, k) == Ok(end)
    ensures Progress(base, end, slot, existing, ps, |ps|)
    decreases ps, |ps| - k
  {
    hide Progress;
    hide Synced;
    hide Sound;
    hide SyncChildren;
    if k < |ps| {
      var f := Flush(Write(s, slot, existing, ps[k], k)).value;
      var inner := Inner(slot, WrittenId(s, existing, ps[k]));
      ReadyForChildren(base, s, f, slot, existing, ps, k);
      var g := SyncChildren(f, inner, ps[k].subFields).value;
      SyncChildrenCorrect(f, inner, ps[k].subFields, g);
      OneMoreNode(base, s, f, g, slot, existing, ps, k);
      SyncNodesCorrect(base, g, slot, existing, ps, k + 1, end);
    }
  }
}
