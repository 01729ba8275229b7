/** When a synchronisation goes through, for every payload whose siblings have distinct keys. */
module FormSyncOutcome {
  import opened Prelude
  import opened FormStore
  import opened FormSync
  import opened FormSyncTheory
  import opened FormSyncRuns
  import opened FormSyncKeys

  // ---- What a synchronisation does to rows the payload does not name ----

  /** The row is of another form, or its key is none of the keys. */
  predicate Foreign(row: Field, formId: int, keys: set<string>) {
    row.formId != formId || row.key !in keys
  }

  ghost predicate Kept(rows: Rows, s: Session, r: int)
    requires r in rows
  {
    r in s.live && s.live[r] == rows[r] && r !in s.doomed
  }

  /** The row hangs under a child that one of the first k nodes names. */
  ghost predicate Swept(rows: Rows, slot: Slot, ps: seq<Node>, k: nat, r: int)
    requires k <= |ps|
  {
    exists a :: Under(rows, slot, a, r) && HasKey(ps[..k], rows[a].key)
  }

  /** The row waits to be deleted after the first k nodes. */
  ghost predicate Waiting(rows: Rows, slot: Slot, ps: seq<Node>, k: nat, r: int)
    requires k <= |ps|
  {
    && k > 0
    && exists a :: Under(rows, slot, a, r) && rows[a].key == ps[k - 1].key
         && Waits(rows, Inner(slot, a), ps[k - 1].subFields, r)
  }

  /** The session after the first k nodes, as far as rows with other keys go. */
  ghost predicate Told(rows: Rows, slot: Slot, ps: seq<Node>, k: nat, s: Session)
    requires k <= |ps|
  {
    var keys := TreeKeys(ps[..k]);
    && (forall r :: r in rows && Foreign(rows[r], slot.formId, keys) ==>
          if Swept(rows, slot, ps, k, r) then r !in s.live && (r in s.doomed <==> Waiting(rows, slot, ps, k, r))
          else Kept(rows, s, r))
    && (forall i :: i in s.live && Foreign(s.live[i], slot.formId, keys) ==> i in rows && s.live[i] == rows[i])
    && (forall i :: i in s.doomed ==> i in rows && s.doomed[i] == rows[i] && Below(rows, slot, i))
    && (forall a :: a in Children(rows, slot) && !HasKey(ps[..k], rows[a].key) ==>
          a in Children(s.live, slot) && s.live[a] == rows[a] && Untouched(rows, s.live, Inner(slot, a)))
  }

  /** The session after the whole payload, as far as rows with other keys go. */
  ghost predicate Settled(s: Session, slot: Slot, ps: seq<Node>, end: Session) {
    var keys := TreeKeys(ps);
    && (forall r :: r in s.live && Foreign(s.live[r], slot.formId, keys) ==>
          if Below(s.live, slot, r) then r !in end.live && (r in end.doomed <==> Waits(s.live, slot, ps, r))
          else Kept(s.live, end, r))
    && (forall i :: i in end.live && Foreign(end.live[i], slot.formId, keys) ==>
          i in s.live && end.live[i] == s.live[i])
    && (forall i :: i in end.doomed ==> i in s.live && end.doomed[i] == s.live[i] && Below(s.live, slot, i))
  }

  lemma NothingTold(s: Session, slot: Slot, ps: seq<Node>)
    requires s.doomed == map[]
    ensures Told(s.live, slot, ps, 0, s)
  {
    assert forall key :: !HasKey(ps[..0], key);
    forall a | a in Children(s.live, slot) ensures Untouched(s.live, s.live, Inner(slot, a)) {
      SameUntouched(s.live, Inner(slot, a));
    }
  }

  lemma SameUntouched(rows: Rows, slot: Slot)
    ensures Untouched(rows, rows, slot)
  {
    forall i | Below(rows, slot, i) ensures Unchanged(rows, rows, i) {
      BelowUnfold(rows, slot, i);
    }
  }

  lemma SweptAt(rows: Rows, slot: Slot, ps: seq<Node>, k: nat, a: int, r: int)
    requires Tree(rows) && k <= |ps| && Under(rows, slot, a, r)
    ensures Swept(rows, slot, ps, k, r) <==> HasKey(ps[..k], rows[a].key)
  {
    hide HasKey;
    if b :| Under(rows, slot, b, r) && HasKey(ps[..k], rows[b].key) {
      UnderOne(rows, slot, a, b, r);
    }
  }

  lemma WaitingAt(rows: Rows, slot: Slot, ps: seq<Node>, k: nat, a: int, r: int)
    requires Tree(rows) && 0 < k <= |ps| && Under(rows, slot, a, r)
    ensures Waiting(rows, slot, ps, k, r) <==>
      rows[a].key == ps[k - 1].key && Waits(rows, Inner(slot, a), ps[k - 1].subFields, r)
  {
    hide Waits;
    if Waiting(rows, slot, ps, k, r) {
      var b :| Under(rows, slot, b, r) && rows[b].key == ps[k - 1].key
        && Waits(rows, Inner(slot, b), ps[k - 1].subFields, r);
      UnderOne(rows, slot, a, b, r);
    }
  }

  // ---- One node written ----

  ghost predicate Listed(rows: Rows, slot: Slot, existing: map<string, int>) {
    && Current(rows, slot, existing)
    && forall a :: a in Children(rows, slot) ==> rows[a].key in existing && existing[rows[a].key] == a
  }

  /** The first k nodes are done. */
  ghost predicate Reached(base: Session, s: Session, slot: Slot, existing: map<string, int>, ps: seq<Node>, k: nat)
    requires k <= |ps|
  {
    && Sound(base) && base.doomed == map[] && Listed(base.live, slot, existing)
    && Progress(base, s, slot, existing, ps, k) && Told(base.live, slot, ps, k, s)
  }

  lemma WrittenChild(base: Session, s: Session, slot: Slot, existing: map<string, int>, ps: seq<Node>, k: nat, c: int)
    requires k < |ps| && Reached(base, s, slot, existing, ps, k) && c == WrittenId(s, existing, ps[k])
    ensures c in base.live <==> c in s.live
    ensures c in s.live ==> c in Children(base.live, slot) && base.live[c].key == ps[k].key
    ensures c in s.live ==> c in Children(s.live, slot) && s.live[c].key == ps[k].key
    ensures c !in s.doomed && (c !in s.live ==> s.nextId == c)
    ensures forall a :: a in Children(base.live, slot) && base.live[a].key == ps[k].key ==> a == c
  {
    hide Told;
    assert forall i :: i in base.live ==> i in base.Visible();
    assert forall i :: i in s.live || i in s.doomed ==> i in s.Visible();
  }

  lemma NothingInside(rows: Rows, slot: Slot)
    requires Tree(rows) && forall i :: i in rows ==> rows[i].Home() != slot
    ensures forall i :: !Below(rows, slot, i)
  {
    var rank :| Ranked(rows, rank);
    forall i ensures !Below(rows, slot, i) {
      if Below(rows, slot, i) {
        var c := TopmostUnder(rows, rank, slot, i);
      }
    }
  }

  lemma UntouchedTransitive(x: Rows, y: Rows, z: Rows, slot: Slot)
    requires Tree(x) && Tree(y) && Tree(z) && Untouched(x, y, slot) && Untouched(y, z, slot)
    ensures Untouched(x, z, slot)
  {
    forall i | Below(x, slot, i) || Below(z, slot, i) ensures Unchanged(x, z, i) {
      SameBelow(x, y, slot, i);
      SameBelow(y, z, slot, i);
      assert Unchanged(x, y, i) && Unchanged(y, z, i);
    }
  }

  /** The session f right after the node is written and flushed. */
  ghost predicate Flushed(base: Session, s: Session, f: Session, slot: Slot, node: Node, c: int) {
    && OnlyChildWritten(s.live, f.live, slot, c) && ConfinedTo(s.live, f.live, slot, c)
    && f.live[c].formId == slot.formId && f.live[c].key == node.key && f.doomed == map[]
    && Tree(f.live) && Carries(base.live, f.live, slot) && base.nextId <= f.nextId
    && Untouched(base.live, f.live, Inner(slot, c))
  }

  lemma WriteFlushed(
    base: Session, s: Session, f: Session, slot: Slot, existing: map<string, int>, ps: seq<Node>, k: nat, c: int)
    requires k < |ps| && Reached(base, s, slot, existing, ps, k) && c == WrittenId(s, existing, ps[k])
    requires Flush(Write(s, slot, existing, ps[k], k)) == Ok(f) && !HasKey(ps[..k], ps[k].key)
    ensures Flushed(base, s, f, slot, ps[k], c)
  {
    WriteReachesMidway(base, s, f, slot, existing, ps, k);
    WrittenChild(base, s, slot, existing, ps, k, c);
    WriteIsChildWrite(s, slot, existing, ps[k], k);
    WrittenConfined(s.live, f.live, slot, c);
    InnerAsBefore(base, s, f, slot, existing, ps, k, c);
  }

  lemma InnerAsBefore(
    base: Session, s: Session, f: Session, slot: Slot, existing: map<string, int>, ps: seq<Node>, k: nat, c: int)
    requires k < |ps| && Reached(base, s, slot, existing, ps, k) && c == WrittenId(s, existing, ps[k])
    requires OnlyChildWritten(s.live, f.live, slot, c) && Tree(f.live) && !HasKey(ps[..k], ps[k].key)
    ensures Untouched(base.live, f.live, Inner(slot, c))
  {
    WrittenChild(base, s, slot, existing, ps, k, c);
    if c in s.live {
      WrittenInnerUntouched(s.live, f.live, slot, c);
      UntouchedTransitive(base.live, s.live, f.live, Inner(slot, c));
    } else {
      NothingInside(base.live, Inner(slot, c));
      NothingInside(f.live, Inner(slot, c));
    }
  }

  // ---- Where a row of the first table is after the flush ----

  lemma OutsideKept(
    base: Session, s: Session, f: Session, slot: Slot, existing: map<string, int>, ps: seq<Node>, k: nat,
    c: int, r: int)
    requires k < |ps| && Reached(base, s, slot, existing, ps, k) && c == WrittenId(s, existing, ps[k])
    requires Flushed(base, s, f, slot, ps[k], c)
    requires r in base.live && !Below(base.live, slot, r)
    ensures r in f.live && f.live[r] == base.live[r] && !Below(f.live, slot, r) && !Below(f.live, Inner(slot, c), r)
  {
    var rank :| Ranked(base.live, rank);
    OutsideKeepsPlace(base.live, f.live, rank, slot, slot, r);
    if Below(f.live, Inner(slot, c), r) {
      BelowInside(f.live, slot, c, r);
    }
  }

  lemma SiblingKept(
    base: Session, s: Session, f: Session, slot: Slot, existing: map<string, int>, ps: seq<Node>, k: nat,
    c: int, a: int)
    requires k < |ps| && Reached(base, s, slot, existing, ps, k) && c == WrittenId(s, existing, ps[k])
    requires Flushed(base, s, f, slot, ps[k], c)
    requires a in Children(base.live, slot) && !HasKey(ps[..k], base.live[a].key) && base.live[a].key != ps[k].key
    ensures a != c && a in Children(f.live, slot) && f.live[a] == base.live[a]
    ensures Untouched(base.live, f.live, Inner(slot, a))
  {
    WrittenChild(base, s, slot, existing, ps, k, c);
    UntouchedTransitive(base.live, s.live, f.live, Inner(slot, a));
  }

  lemma SiblingsKept(
    base: Session, s: Session, f: Session, slot: Slot, existing: map<string, int>, ps: seq<Node>, k: nat,
    c: int, a: int, r: int)
    requires k < |ps| && Reached(base, s, slot, existing, ps, k) && c == WrittenId(s, existing, ps[k])
    requires Flushed(base, s, f, slot, ps[k], c)
    requires Under(base.live, slot, a, r) && !HasKey(ps[..k], base.live[a].key) && base.live[a].key != ps[k].key
    ensures r in base.live && r in f.live && f.live[r] == base.live[r] && !Below(f.live, Inner(slot, c), r)
  {
    SiblingKept(base, s, f, slot, existing, ps, k, c, a);
    if r != a {
      SameBelow(base.live, f.live, Inner(slot, a), r);
      assert Unchanged(base.live, f.live, r);
    }
    if Below(f.live, Inner(slot, c), r) {
      UnderOne(f.live, slot, a, c, r);
    }
  }

  /** A row the first k + 1 nodes do not sweep is kept, outside the written child. */
  lemma SparedKept(
    base: Session, s: Session, f: Session, slot: Slot, existing: map<string, int>, ps: seq<Node>, k: nat,
    c: int, r: int)
    requires k < |ps| && Reached(base, s, slot, existing, ps, k) && c == WrittenId(s, existing, ps[k])
    requires Flushed(base, s, f, slot, ps[k], c) && KeysDistinct(ps)
    requires r in base.live && !Swept(base.live, slot, ps, k + 1, r)
    ensures r in f.live && f.live[r] == base.live[r] && !Below(f.live, Inner(slot, c), r)
  {
    hide Reached;
    hide Flushed;
    assert Tree(base.live) by { TreeBefore(base, s, slot, existing, ps, k); }
    if Below(base.live, slot, r) {
      var a := ChildOver(base.live, slot, r);
      SweptAt(base.live, slot, ps, k + 1, a, r);
      KeysSoFar(ps, k, base.live[a].key);
      SiblingsKept(base, s, f, slot, existing, ps, k, c, a, r);
    } else {
      OutsideKept(base, s, f, slot, existing, ps, k, c, r);
    }
  }

  lemma TreeBefore(base: Session, s: Session, slot: Slot, existing: map<string, int>, ps: seq<Node>, k: nat)
    requires k <= |ps| && Reached(base, s, slot, existing, ps, k)
    ensures Tree(base.live) && Tree(s.live) && KeysUnique(base.live)
  {
    LiveKeysUnique(base);
  }

  /** What the session after k nodes holds of a row with another key. */
  lemma ToldAt(
    base: Session, s: Session, slot: Slot, existing: map<string, int>, ps: seq<Node>, k: nat, c: int, r: int)
    requires k < |ps| && Reached(base, s, slot, existing, ps, k) && c == WrittenId(s, existing, ps[k])
    requires r in base.live && Foreign(base.live[r], slot.formId, TreeKeys(ps[..k]))
    ensures Swept(base.live, slot, ps, k, r) ==>
      r !in s.live && r != c && (r in s.doomed <==> Waiting(base.live, slot, ps, k, r))
    ensures r in s.doomed ==> s.doomed[r] == base.live[r]
    ensures !Swept(base.live, slot, ps, k, r) ==> Kept(base.live, s, r)
  {
    hide Swept;
    hide Waiting;
    hide Foreign;
    hide TreeKeys;
    WrittenChild(base, s, slot, existing, ps, k, c);
  }

  /** A row that the first k nodes swept is not live any more. */
  lemma SweptGone(
    base: Session, s: Session, f: Session, slot: Slot, existing: map<string, int>, ps: seq<Node>, k: nat,
    c: int, r: int)
    requires k < |ps| && Reached(base, s, slot, existing, ps, k) && c == WrittenId(s, existing, ps[k])
    requires Flushed(base, s, f, slot, ps[k], c)
    requires r in base.live && Swept(base.live, slot, ps, k, r)
    requires Foreign(base.live[r], slot.formId, TreeKeys(ps[..k]))
    ensures r !in f.live
  {
    hide Told;
    hide Progress;
    hide Foreign;
    hide Swept;
    ToldAt(base, s, slot, existing, ps, k, c, r);
  }

  /** A row of the written child's own container is where it was. */
  lemma OwnKept(
    base: Session, s: Session, f: Session, slot: Slot, existing: map<string, int>, ps: seq<Node>, k: nat, c: int,
    a: int, r: int)
    requires k < |ps| && Reached(base, s, slot, existing, ps, k) && c == WrittenId(s, existing, ps[k])
    requires Flushed(base, s, f, slot, ps[k], c)
    requires Under(base.live, slot, a, r) && base.live[a].key == ps[k].key && r != a
    ensures a == c && Below(base.live, Inner(slot, c), r) && Below(f.live, Inner(slot, c), r)
    ensures r in base.live && r in f.live && f.live[r] == base.live[r]
  {
    WrittenChild(base, s, slot, existing, ps, k, c);
    SameBelow(base.live, f.live, Inner(slot, c), r);
    assert Unchanged(base.live, f.live, r);
  }

  // ---- The write itself ----

  /** A row that keeps the node from being flushed. */
  ghost predicate InWay(s: Session, slot: Slot, key: string, c: int, i: int) {
    i in s.Visible() && i != c && s.Visible()[i].formId == slot.formId && s.Visible()[i].key == key
  }

  /** A fully supplied node passes the flush exactly when no other row, live or doomed, holds its key. */
  lemma WritePassesIff(s: Session, slot: Slot, existing: map<string, int>, ps: seq<Node>, k: nat, c: int)
    requires k < |ps| && Sound(s) && Current(s.live, slot, existing) && Supplied(ps)
    requires c == WrittenId(s, existing, ps[k])
    ensures Flush(Write(s, slot, existing, ps[k], k)).Ok? <==> forall i :: !InWay(s, slot, ps[k].key, c, i)
  {
    hide Write;
    var w := Write(s, slot, existing, ps[k], k);
    WriteOutcome(s, slot, existing, ps[k], k);
    WrittenComplete(s, w, c, ps[k]);
    if i :| InWay(s, slot, ps[k].key, c, i) {
      InWayFails(s, w, slot, ps[k].key, c, i);
    } else {
      forall i | i in s.Visible() && i != c
        ensures s.Visible()[i].formId != w.live[c].formId || s.Visible()[i].key != w.live[c].key
      {
        assert !InWay(s, slot, ps[k].key, c, i);
      }
      WriteKeepsUnique(s, w, c);
    }
  }

  lemma InWayFails(s: Session, w: Session, slot: Slot, key: string, c: int, i: int)
    requires w.doomed == s.doomed && c in w.live && w.live == s.live[c := w.live[c]] && c !in s.doomed
    requires w.live[c].formId == slot.formId && w.live[c].key == key && InWay(s, slot, key, c, i)
    ensures !KeysUnique(w.Visible())
  {
    assert w.Visible()[c] == w.live[c];
    assert w.Visible()[i] == s.Visible()[i];
  }

  /** A row of the first table is in the way exactly when it blocks. */
  lemma HolderInWay(
    base: Session, s: Session, slot: Slot, existing: map<string, int>, ps: seq<Node>, k: nat, c: int, r: int)
    requires k < |ps| && Reached(base, s, slot, existing, ps, k) && c == WrittenId(s, existing, ps[k])
    requires KeysDistinct(ps)
    requires r in base.live && base.live[r].formId == slot.formId && base.live[r].key == ps[k].key
    ensures InWay(s, slot, ps[k].key, c, r) <==> Blocks(base.live, slot, ps, r)
  {
    hide Reached;
    hide Blocks;
    hide Waiting;
    hide Waits;
    hide TreeKeys;
    hide HasKey;
    TreeBefore(base, s, slot, existing, ps, k);
    KeysSoFar(ps, k, ps[k].key);
    ToldAt(base, s, slot, existing, ps, k, c, r);
    WrittenChild(base, s, slot, existing, ps, k, c);
    if Below(base.live, slot, r) {
      var a := ChildOver(base.live, slot, r);
      ChildInWay(base, s, slot, existing, ps, k, c, a, r);
    } else {
      OutsideBlocks(base.live, slot, ps, r);
      assert !Swept(base.live, slot, ps, k, r) by {
        if Swept(base.live, slot, ps, k, r) {
          var a :| Under(base.live, slot, a, r);
          UnderIsBelow(base.live, slot, a, r);
        }
      }
      if r == c {
        OwnRowBelow(base.live, slot, c);
      }
    }
  }

  lemma OutsideBlocks(rows: Rows, slot: Slot, ps: seq<Node>, r: int)
    requires r in rows && !Below(rows, slot, r)
    ensures Blocks(rows, slot, ps, r)
  {
  }

  lemma OwnRowBelow(rows: Rows, slot: Slot, c: int)
    requires c in Children(rows, slot)
    ensures Below(rows, slot, c)
  {
    BelowUnfold(rows, slot, c);
  }

  lemma ChildInWay(
    base: Session, s: Session, slot: Slot, existing: map<string, int>, ps: seq<Node>, k: nat, c: int, a: int, r: int)
    requires k < |ps| && Reached(base, s, slot, existing, ps, k) && c == WrittenId(s, existing, ps[k])
    requires KeysDistinct(ps) && Under(base.live, slot, a, r)
    requires r in base.live && base.live[r].formId == slot.formId && base.live[r].key == ps[k].key
    ensures InWay(s, slot, ps[k].key, c, r) <==> Blocks(base.live, slot, ps, r)
  {
    hide Reached;
    hide Blocks;
    hide Waiting;
    hide Waits;
    hide Swept;
    hide TreeKeys;
    TreeBefore(base, s, slot, existing, ps, k);
    KeysSoFar(ps, k, ps[k].key);
    ToldAt(base, s, slot, existing, ps, k, c, r);
    WrittenChild(base, s, slot, existing, ps, k, c);
    BlocksAt(base.live, slot, ps, k, a, r);
    SweptAt(base.live, slot, ps, k, a, r);
    if k > 0 {
      WaitingAt(base.live, slot, ps, k, a, r);
    } else {
      assert !HasKey(ps[..k], base.live[a].key);
    }
    if r == c {
      UnderOne(base.live, slot, a, c, r);
    }
  }

  lemma InWayHolder(
    base: Session, s: Session, slot: Slot, existing: map<string, int>, ps: seq<Node>, k: nat, c: int, i: int)
    requires k < |ps| && Reached(base, s, slot, existing, ps, k) && c == WrittenId(s, existing, ps[k])
    requires KeysDistinct(ps) && InWay(s, slot, ps[k].key, c, i)
    ensures i in base.live && base.live[i].formId == slot.formId && base.live[i].key == ps[k].key
  {
    KeysSoFar(ps, k, ps[k].key);
  }

  // ---- The nested payload ----

  /** A row holding a key of the nested payload blocks it exactly when it blocks the whole. */
  lemma NestedBlocks(
    base: Session, s: Session, f: Session, slot: Slot, existing: map<string, int>, ps: seq<Node>, k: nat,
    c: int, r: int)
    requires k < |ps| && Reached(base, s, slot, existing, ps, k) && c == WrittenId(s, existing, ps[k])
    requires Flushed(base, s, f, slot, ps[k], c) && KeysDistinct(ps)
    requires r in base.live && base.live[r].formId == slot.formId && base.live[r].key in TreeKeys(ps[k].subFields)
    ensures Blocks(base.live, slot, ps, r) <==>
      r in f.live && f.live[r] == base.live[r] && Blocks(f.live, Inner(slot, c), ps[k].subFields, r)
  {
    hide Reached;
    hide Flushed;
    hide Blocks;
    hide KeysDistinct;
    TreeBefore(base, s, slot, existing, ps, k);
    if Below(base.live, slot, r) {
      var a := ChildOver(base.live, slot, r);
      NestedBelow(base, s, f, slot, existing, ps, k, c, a, r);
    } else {
      OutsideBlocks(base.live, slot, ps, r);
      OutsideKept(base, s, f, slot, existing, ps, k, c, r);
      OutsideBlocks(f.live, Inner(slot, c), ps[k].subFields, r);
    }
  }

  lemma NestedBelow(
    base: Session, s: Session, f: Session, slot: Slot, existing: map<string, int>, ps: seq<Node>, k: nat,
    c: int, a: int, r: int)
    requires k < |ps| && Reached(base, s, slot, existing, ps, k) && c == WrittenId(s, existing, ps[k])
    requires Flushed(base, s, f, slot, ps[k], c) && KeysDistinct(ps) && Under(base.live, slot, a, r)
    requires r in base.live && base.live[r].formId == slot.formId && base.live[r].key in TreeKeys(ps[k].subFields)
    ensures Blocks(base.live, slot, ps, r) <==>
      r in f.live && f.live[r] == base.live[r] && Blocks(f.live, Inner(slot, c), ps[k].subFields, r)
  {
    hide Reached;
    hide Flushed;
    hide Blocks;
    hide TreeKeys;
    hide HasKey;
    hide KeysDistinct;
    if base.live[a].key == ps[k].key {
      NestedOwn(base, s, f, slot, existing, ps, k, c, a, r);
    } else if HasKey(ps[..k], base.live[a].key) {
      NestedGone(base, s, f, slot, existing, ps, k, c, a, r);
    } else {
      NestedSpared(base, s, f, slot, existing, ps, k, c, a, r);
    }
  }

  lemma NestedOwn(
    base: Session, s: Session, f: Session, slot: Slot, existing: map<string, int>, ps: seq<Node>, k: nat,
    c: int, a: int, r: int)
    requires k < |ps| && Reached(base, s, slot, existing, ps, k) && c == WrittenId(s, existing, ps[k])
    requires Flushed(base, s, f, slot, ps[k], c) && KeysDistinct(ps) && Under(base.live, slot, a, r)
    requires r in base.live && base.live[r].formId == slot.formId && base.live[r].key in TreeKeys(ps[k].subFields)
    requires base.live[a].key == ps[k].key
    ensures r in f.live && f.live[r] == base.live[r]
    ensures Blocks(base.live, slot, ps, r) <==> Blocks(f.live, Inner(slot, c), ps[k].subFields, r)
  {
    hide Reached;
    hide Blocks;
    hide Waits;
    hide TreeKeys;
    hide HasKey;
    hide OnlyChildWritten;
    hide ConfinedTo;
    hide Carries;
    hide Untouched;
    TreeBefore(base, s, slot, existing, ps, k);
    KeysSoFar(ps, k, base.live[r].key);
    BlocksAt(base.live, slot, ps, k, a, r);
    OwnKept(base, s, f, slot, existing, ps, k, c, a, r);
    BlocksStable(base.live, f.live, Inner(slot, c), ps[k].subFields, r);
  }

  lemma NestedGone(
    base: Session, s: Session, f: Session, slot: Slot, existing: map<string, int>, ps: seq<Node>, k: nat,
    c: int, a: int, r: int)
    requires k < |ps| && Reached(base, s, slot, existing, ps, k) && c == WrittenId(s, existing, ps[k])
    requires Flushed(base, s, f, slot, ps[k], c) && KeysDistinct(ps) && Under(base.live, slot, a, r)
    requires r in base.live && base.live[r].formId == slot.formId && base.live[r].key in TreeKeys(ps[k].subFields)
    requires base.live[a].key != ps[k].key && HasKey(ps[..k], base.live[a].key)
    ensures !Blocks(base.live, slot, ps, r) && r !in f.live
  {
    hide Reached;
    hide Flushed;
    hide Blocks;
    hide Swept;
    hide TreeKeys;
    hide Waits;
    TreeBefore(base, s, slot, existing, ps, k);
    KeysSoFar(ps, k, base.live[r].key);
    BlocksAt(base.live, slot, ps, k, a, r);
    SweptAt(base.live, slot, ps, k, a, r);
    SweptGone(base, s, f, slot, existing, ps, k, c, r);
  }

  lemma NestedSpared(
    base: Session, s: Session, f: Session, slot: Slot, existing: map<string, int>, ps: seq<Node>, k: nat,
    c: int, a: int, r: int)
    requires k < |ps| && Reached(base, s, slot, existing, ps, k) && c == WrittenId(s, existing, ps[k])
    requires Flushed(base, s, f, slot, ps[k], c) && KeysDistinct(ps) && Under(base.live, slot, a, r)
    requires r in base.live && base.live[r].formId == slot.formId && base.live[r].key in TreeKeys(ps[k].subFields)
    requires base.live[a].key != ps[k].key && !HasKey(ps[..k], base.live[a].key)
    ensures Blocks(base.live, slot, ps, r)
    ensures r in f.live && f.live[r] == base.live[r] && Blocks(f.live, Inner(slot, c), ps[k].subFields, r)
  {
    hide Reached;
    hide Flushed;
    hide Blocks;
    hide TreeKeys;
    hide HasKey;
    TreeBefore(base, s, slot, existing, ps, k);
    KeysSoFar(ps, k, base.live[r].key);
    BlocksAt(base.live, slot, ps, k, a, r);
    SiblingsKept(base, s, f, slot, existing, ps, k, c, a, r);
    OutsideBlocks(f.live, Inner(slot, c), ps[k].subFields, r);
  }

  /** After the flush, a live row other than the written one was there before. */
  lemma FlushedOld(
    base: Session, s: Session, f: Session, slot: Slot, existing: map<string, int>, ps: seq<Node>, k: nat,
    c: int, i: int)
    requires k < |ps| && Reached(base, s, slot, existing, ps, k) && c == WrittenId(s, existing, ps[k])
    requires Flushed(base, s, f, slot, ps[k], c)
    requires i in f.live && Foreign(f.live[i], slot.formId, TreeKeys(ps[..k]))
    requires f.live[i].formId == slot.formId ==> f.live[i].key != ps[k].key
    ensures i in base.live && f.live[i] == base.live[i]
  {
    hide TreeKeys;
    hide Foreign;
    hide Progress;
    hide Swept;
    hide Waiting;
    hide Kept;
    hide Tree;
    hide Carries;
    hide Untouched;
    hide ConfinedTo;
    hide HasKey;
    assert i != c && s.live[i] == f.live[i];
  }

  /** A live row with a key of the nested payload was there before. */
  lemma NestedHolder(
    base: Session, s: Session, f: Session, slot: Slot, existing: map<string, int>, ps: seq<Node>, k: nat,
    c: int, i: int)
    requires k < |ps| && Reached(base, s, slot, existing, ps, k) && c == WrittenId(s, existing, ps[k])
    requires Flushed(base, s, f, slot, ps[k], c) && KeysDistinct(ps)
    requires i in f.live && f.live[i].formId == slot.formId && f.live[i].key in TreeKeys(ps[k].subFields)
    ensures i in base.live && f.live[i] == base.live[i]
  {
    hide TreeKeys;
    hide Reached;
    hide Flushed;
    KeysSoFar(ps, k, f.live[i].key);
    FlushedOld(base, s, f, slot, existing, ps, k, c, i);
  }

  lemma NestedClear(
    base: Session, s: Session, f: Session, slot: Slot, existing: map<string, int>, ps: seq<Node>, k: nat, c: int)
    requires k < |ps| && Reached(base, s, slot, existing, ps, k) && c == WrittenId(s, existing, ps[k])
    requires Flushed(base, s, f, slot, ps[k], c) && KeysDistinct(ps)
    ensures Free(f.live, Inner(slot, c), ps[k].subFields) <==>
      Clear(base.live, slot, ps, TreeKeys(ps[k].subFields))
  {
    hide Reached;
    hide Flushed;
    hide Blocks;
    hide TreeKeys;
    hide KeysDistinct;
    var inner, sub := Inner(slot, c), ps[k].subFields;
    if Clear(base.live, slot, ps, TreeKeys(sub)) {
      forall i | i in f.live && f.live[i].formId == slot.formId && f.live[i].key in TreeKeys(sub)
        ensures !Blocks(f.live, inner, sub, i)
      {
        NestedHolder(base, s, f, slot, existing, ps, k, c, i);
        NestedBlocks(base, s, f, slot, existing, ps, k, c, i);
      }
    }
    if Free(f.live, inner, sub) {
      forall r | r in base.live && base.live[r].formId == slot.formId && base.live[r].key in TreeKeys(sub)
        ensures !Blocks(base.live, slot, ps, r)
      {
        NestedBlocks(base, s, f, slot, existing, ps, k, c, r);
      }
    }
  }

  /** The node's write passes exactly when no row is in the way of its key. */
  lemma WriteClear(
    base: Session, s: Session, slot: Slot, existing: map<string, int>, ps: seq<Node>, k: nat, c: int)
    requires k < |ps| && Reached(base, s, slot, existing, ps, k) && c == WrittenId(s, existing, ps[k])
    requires KeysDistinct(ps) && Supplied(ps)
    ensures Flush(Write(s, slot, existing, ps[k], k)).Ok? <==> Clear(base.live, slot, ps, {ps[k].key})
  {
    assert Sound(s) && Current(s.live, slot, existing);
    hide Reached;
    hide Blocks;
    hide InWay;
    hide KeysDistinct;
    hide Flush;
    hide Write;
    WritePassesIff(s, slot, existing, ps, k, c);
    if Clear(base.live, slot, ps, {ps[k].key}) {
      forall i ensures !InWay(s, slot, ps[k].key, c, i) {
        if InWay(s, slot, ps[k].key, c, i) {
          InWayHolder(base, s, slot, existing, ps, k, c, i);
          HolderInWay(base, s, slot, existing, ps, k, c, i);
        }
      }
    } else {
      var r :|
        r in base.live && base.live[r].formId == slot.formId && base.live[r].key == ps[k].key
        && Blocks(base.live, slot, ps, r);
      HolderInWay(base, s, slot, existing, ps, k, c, r);
    }
  }

  // ---- One node done ----

  /** Synchronising the nested payload leaves a row swept up to here gone. */
  lemma StaysGone(f: Session, g: Session, inner: Slot, sub: seq<Node>, r: int)
    requires FreshIds(f, g) && Settled(f, inner, sub, g) && r !in f.live && r < f.nextId
    ensures r !in g.live && r !in g.doomed
  {
  }

  lemma TellSwept(
    base: Session, s: Session, f: Session, g: Session, slot: Slot, existing: map<string, int>, ps: seq<Node>, k: nat,
    c: int, a: int, r: int)
    requires k < |ps| && Reached(base, s, slot, existing, ps, k) && c == WrittenId(s, existing, ps[k])
    requires Flushed(base, s, f, slot, ps[k], c) && KeysDistinct(ps)
    requires Settled(f, Inner(slot, c), ps[k].subFields, g) && FreshIds(f, g)
    requires Under(base.live, slot, a, r) && HasKey(ps[..k], base.live[a].key)
    requires r in base.live && Foreign(base.live[r], slot.formId, TreeKeys(ps[..k]))
    ensures r !in g.live && r !in g.doomed && !Waiting(base.live, slot, ps, k + 1, r)
  {
    hide TreeKeys;
    hide Foreign;
    hide Waits;
    hide Settled;
    hide Told;
    hide Progress;
    hide Swept;
    hide HasKey;
    assert r in base.Visible();
    TreeBefore(base, s, slot, existing, ps, k);
    SweptAt(base.live, slot, ps, k, a, r);
    SweptGone(base, s, f, slot, existing, ps, k, c, r);
    StaysGone(f, g, Inner(slot, c), ps[k].subFields, r);
    KeysSoFar(ps, k, ps[k].key);
    WaitingAt(base.live, slot, ps, k + 1, a, r);
  }

  lemma TellOwn(
    base: Session, s: Session, f: Session, g: Session, slot: Slot, existing: map<string, int>, ps: seq<Node>, k: nat,
    c: int, a: int, r: int)
    requires k < |ps| && Reached(base, s, slot, existing, ps, k) && c == WrittenId(s, existing, ps[k])
    requires Flushed(base, s, f, slot, ps[k], c) && KeysDistinct(ps)
    requires Settled(f, Inner(slot, c), ps[k].subFields, g)
    requires Under(base.live, slot, a, r) && base.live[a].key == ps[k].key && r != a
    requires r in base.live && Foreign(base.live[r], slot.formId, TreeKeys(ps[k].subFields))
    ensures r !in g.live && (r in g.doomed <==> Waiting(base.live, slot, ps, k + 1, r))
  {
    hide TreeKeys;
    hide Foreign;
    hide Waits;
    hide Reached;
    hide OnlyChildWritten;
    hide ConfinedTo;
    hide Carries;
    hide Untouched;
    TreeBefore(base, s, slot, existing, ps, k);
    OwnKept(base, s, f, slot, existing, ps, k, c, a, r);
    WaitsStable(base.live, f.live, Inner(slot, c), ps[k].subFields, r);
    WaitingAt(base.live, slot, ps, k + 1, a, r);
  }

  lemma TellSpared(
    base: Session, s: Session, f: Session, g: Session, slot: Slot, existing: map<string, int>, ps: seq<Node>, k: nat,
    c: int, r: int)
    requires k < |ps| && Reached(base, s, slot, existing, ps, k) && c == WrittenId(s, existing, ps[k])
    requires Flushed(base, s, f, slot, ps[k], c) && KeysDistinct(ps)
    requires Settled(f, Inner(slot, c), ps[k].subFields, g)
    requires r in base.live && !Swept(base.live, slot, ps, k + 1, r)
    requires Foreign(base.live[r], slot.formId, TreeKeys(ps[k].subFields))
    ensures Kept(base.live, g, r)
  {
    hide TreeKeys;
    hide Foreign;
    hide Reached;
    hide Flushed;
    hide Waits;
    SparedKept(base, s, f, slot, existing, ps, k, c, r);
  }

  lemma ForeignSoFar(row: Field, formId: int, ps: seq<Node>, k: nat)
    requires KeysDistinct(ps) && k < |ps| && Foreign(row, formId, TreeKeys(ps[..k + 1]))
    ensures Foreign(row, formId, TreeKeys(ps[..k])) && Foreign(row, formId, TreeKeys(ps[k].subFields))
    ensures row.formId == formId ==> row.key != ps[k].key
  {
    hide TreeKeys;
    KeysSoFar(ps, k, row.key);
  }

  /** What the session after node k holds of one row with another key. */
  lemma TellRow(
    base: Session, s: Session, f: Session, g: Session, slot: Slot, existing: map<string, int>, ps: seq<Node>, k: nat,
    c: int, r: int)
    requires k < |ps| && Reached(base, s, slot, existing, ps, k) && c == WrittenId(s, existing, ps[k])
    requires Flushed(base, s, f, slot, ps[k], c) && KeysDistinct(ps)
    requires Settled(f, Inner(slot, c), ps[k].subFields, g) && FreshIds(f, g)
    requires r in base.live && Foreign(base.live[r], slot.formId, TreeKeys(ps[..k + 1]))
    ensures if Swept(base.live, slot, ps, k + 1, r)
      then r !in g.live && (r in g.doomed <==> Waiting(base.live, slot, ps, k + 1, r))
      else Kept(base.live, g, r)
  {
    hide TreeKeys;
    hide Foreign;
    hide Reached;
    hide Flushed;
    hide Settled;
    hide FreshIds;
    hide HasKey;
    hide Waiting;
    hide Kept;
    hide KeysDistinct;
    ForeignSoFar(base.live[r], slot.formId, ps, k);
    if Swept(base.live, slot, ps, k + 1, r) {
      var a :| Under(base.live, slot, a, r) && HasKey(ps[..k + 1], base.live[a].key);
      KeysSoFar(ps, k, base.live[a].key);
      if HasKey(ps[..k], base.live[a].key) {
        TellSwept(base, s, f, g, slot, existing, ps, k, c, a, r);
      } else {
        TellOwn(base, s, f, g, slot, existing, ps, k, c, a, r);
      }
    } else {
      TellSpared(base, s, f, g, slot, existing, ps, k, c, r);
    }
  }

  /** A live row with another key is the row of the first table. */
  lemma TellOld(
    base: Session, s: Session, f: Session, g: Session, slot: Slot, existing: map<string, int>, ps: seq<Node>, k: nat,
    c: int, i: int)
    requires k < |ps| && Reached(base, s, slot, existing, ps, k) && c == WrittenId(s, existing, ps[k])
    requires Flushed(base, s, f, slot, ps[k], c) && KeysDistinct(ps)
    requires Settled(f, Inner(slot, c), ps[k].subFields, g)
    requires i in g.live && Foreign(g.live[i], slot.formId, TreeKeys(ps[..k + 1]))
    ensures i in base.live && g.live[i] == base.live[i]
  {
    hide TreeKeys;
    hide Reached;
    hide Flushed;
    hide Foreign;
    hide Kept;
    hide Waits;
    hide KeysDistinct;
    ForeignSoFar(g.live[i], slot.formId, ps, k);
    assert i in f.live && f.live[i] == g.live[i];
    FlushedOld(base, s, f, slot, existing, ps, k, c, i);
  }

  lemma TellDoomed(
    base: Session, s: Session, f: Session, g: Session, slot: Slot, existing: map<string, int>, ps: seq<Node>, k: nat,
    c: int, i: int)
    requires k < |ps| && Reached(base, s, slot, existing, ps, k) && c == WrittenId(s, existing, ps[k])
    requires Flushed(base, s, f, slot, ps[k], c) && Settled(f, Inner(slot, c), ps[k].subFields, g)
    requires i in g.doomed
    ensures i in base.live && g.doomed[i] == base.live[i] && Below(base.live, slot, i)
  {
    hide TreeKeys;
    hide Progress;
    hide Told;
    assert Unchanged(base.live, f.live, i);
    TreeBefore(base, s, slot, existing, ps, k);
    SameBelow(base.live, f.live, Inner(slot, c), i);
    InnerIsChild(base.live, Inner(slot, c), i);
    WrittenChild(base, s, slot, existing, ps, k, c);
    BelowInside(base.live, slot, c, i);
  }

  lemma InnerIsChild(rows: Rows, slot: Slot, i: int)
    requires Tree(rows) && Below(rows, slot, i) && slot.parentId.Some?
    ensures slot.parentId.value in rows
  {
    var rank :| Ranked(rows, rank);
    var c := TopmostUnder(rows, rank, slot, i);
  }

  lemma TellLater(
    base: Session, s: Session, f: Session, g: Session, slot: Slot, existing: map<string, int>, ps: seq<Node>, k: nat,
    c: int, a: int)
    requires k < |ps| && Reached(base, s, slot, existing, ps, k) && c == WrittenId(s, existing, ps[k])
    requires Flushed(base, s, f, slot, ps[k], c) && KeysDistinct(ps)
    requires Tree(g.live) && ConfinedTo(f.live, g.live, slot, c)
    requires a in Children(base.live, slot) && !HasKey(ps[..k + 1], base.live[a].key)
    ensures a in Children(g.live, slot) && g.live[a] == base.live[a] && Untouched(base.live, g.live, Inner(slot, a))
  {
    KeysSoFar(ps, k, base.live[a].key);
    SiblingKept(base, s, f, slot, existing, ps, k, c, a);
    UntouchedTransitive(base.live, f.live, g.live, Inner(slot, a));
  }

  /** After node k's own children are synchronised one more node is told. */
  lemma OneMoreTold(
    base: Session, s: Session, f: Session, g: Session, slot: Slot, existing: map<string, int>, ps: seq<Node>, k: nat,
    c: int)
    requires k < |ps| && Reached(base, s, slot, existing, ps, k) && c == WrittenId(s, existing, ps[k])
    requires Flushed(base, s, f, slot, ps[k], c) && KeysDistinct(ps)
    requires Settled(f, Inner(slot, c), ps[k].subFields, g) && FreshIds(f, g)
    requires Tree(g.live) && ConfinedTo(f.live, g.live, slot, c)
    ensures Told(base.live, slot, ps, k + 1, g)
  {
    hide Reached;
    hide Flushed;
    hide Settled;
    hide FreshIds;
    hide ConfinedTo;
    hide Tree;
    hide KeysDistinct;
    hide TreeKeys;
    hide Foreign;
    hide Swept;
    hide Waiting;
    hide Kept;
    hide Below;
    hide HasKey;
    forall r | r in base.live && Foreign(base.live[r], slot.formId, TreeKeys(ps[..k + 1]))
      ensures if Swept(base.live, slot, ps, k + 1, r)
        then r !in g.live && (r in g.doomed <==> Waiting(base.live, slot, ps, k + 1, r))
        else Kept(base.live, g, r)
    {
      TellRow(base, s, f, g, slot, existing, ps, k, c, r);
    }
    forall i | i in g.live && Foreign(g.live[i], slot.formId, TreeKeys(ps[..k + 1]))
      ensures i in base.live && g.live[i] == base.live[i]
    {
      TellOld(base, s, f, g, slot, existing, ps, k, c, i);
    }
    forall i | i in g.doomed ensures i in base.live && g.doomed[i] == base.live[i] && Below(base.live, slot, i) {
      TellDoomed(base, s, f, g, slot, existing, ps, k, c, i);
    }
    forall a | a in Children(base.live, slot) && !HasKey(ps[..k + 1], base.live[a].key)
      ensures a in Children(g.live, slot) && g.live[a] == base.live[a] && Untouched(base.live, g.live, Inner(slot, a))
    {
      TellLater(base, s, f, g, slot, existing, ps, k, c, a);
    }
  }

  // ---- The end of a container ----

  lemma GoneIsBelow(rows: Rows, tops: set<int>, slot: Slot, i: int)
    requires Tree(rows) && tops <= Children(rows, slot) && i in SubtreesOf(rows, tops)
    ensures exists a :: a in tops && Under(rows, slot, a, i)
  {
    var a :| a in tops && a in rows && InSubtree(rows, a, i);
    assert Under(rows, slot, a, i);
  }

  /** The obsolete children are those of the first table that no node names. */
  lemma ObsoleteChild(base: Session, t: Session, slot: Slot, existing: map<string, int>, ps: seq<Node>, a: int)
    requires Reached(base, t, slot, existing, ps, |ps|)
    ensures a in Obsolete(existing, ps) <==> a in Children(base.live, slot) && !HasKey(ps, base.live[a].key)
    ensures a in Obsolete(existing, ps) ==>
      a in Children(t.live, slot) && t.live[a] == base.live[a] && Untouched(base.live, t.live, Inner(slot, a))
  {
    hide HasKey;
    hide Progress;
    hide Sound;
    assert ps[..|ps|] == ps;
    if a in Children(base.live, slot) && !HasKey(ps, base.live[a].key) {
      assert existing[base.live[a].key] == a;
    }
  }

  /** Marked for deletion at the end: exactly what hangs under an obsolete child. */
  lemma GoneIff(base: Session, t: Session, slot: Slot, existing: map<string, int>, ps: seq<Node>, i: int)
    requires Reached(base, t, slot, existing, ps, |ps|)
    ensures i in SubtreesOf(t.live, Obsolete(existing, ps)) <==>
      exists a :: Under(base.live, slot, a, i) && !HasKey(ps, base.live[a].key)
    ensures i in SubtreesOf(t.live, Obsolete(existing, ps)) ==>
      i in base.live && t.live[i] == base.live[i] && Below(base.live, slot, i)
  {
    hide HasKey;
    hide Obsolete;
    hide Reached;
    hide SubtreesOf;
    hide Below;
    hide Untouched;
    var tops := Obsolete(existing, ps);
    assert Tree(t.live) && Tree(base.live) by { TreeBefore(base, t, slot, existing, ps, |ps|); }
    forall a | a in tops ensures a in Children(t.live, slot) {
      ObsoleteChild(base, t, slot, existing, ps, a);
    }
    assert tops <= Children(t.live, slot);
    if i in SubtreesOf(t.live, tops) {
      GoneIsBelow(t.live, tops, slot, i);
      var a :| a in tops && Under(t.live, slot, a, i);
      ObsoleteChild(base, t, slot, existing, ps, a);
      SameInside(base.live, t.live, slot, a, i);
      UnderIsBelow(base.live, slot, a, i);
    }
    if a :| Under(base.live, slot, a, i) && !HasKey(ps, base.live[a].key) {
      ObsoleteChild(base, t, slot, existing, ps, a);
      SameInside(base.live, t.live, slot, a, i);
      UnderGone(t.live, tops, slot, a, i);
    }
  }

  lemma UnderGone(rows: Rows, tops: set<int>, slot: Slot, a: int, i: int)
    requires a in tops && Under(rows, slot, a, i) && i in rows
    ensures i in SubtreesOf(rows, tops)
  {
    assert InSubtrees(rows, tops, i);
  }

  lemma SameInside(old_: Rows, new_: Rows, slot: Slot, a: int, i: int)
    requires Tree(old_) && Tree(new_) && a in Children(old_, slot) && a in Children(new_, slot) && old_[a] == new_[a]
    requires Untouched(old_, new_, Inner(slot, a))
    ensures Under(old_, slot, a, i) <==> Under(new_, slot, a, i)
    ensures Under(old_, slot, a, i) ==> i in old_ && i in new_ && old_[i] == new_[i]
  {
    SameBelow(old_, new_, Inner(slot, a), i);
    if Under(old_, slot, a, i) && i != a {
      assert Unchanged(old_, new_, i);
    }
  }

  lemma ToldAtEnd(base: Session, t: Session, slot: Slot, existing: map<string, int>, ps: seq<Node>, r: int)
    requires Reached(base, t, slot, existing, ps, |ps|)
    requires r in base.live && Foreign(base.live[r], slot.formId, TreeKeys(ps))
    ensures if Swept(base.live, slot, ps, |ps|, r)
      then r !in t.live && (r in t.doomed <==> Waiting(base.live, slot, ps, |ps|, r))
      else Kept(base.live, t, r)
  {
    hide Foreign;
    hide TreeKeys;
    hide Waiting;
    hide Swept;
    hide Kept;
    hide Progress;
    assert ps[..|ps|] == ps;
  }

  /** Whether a row under a child is swept, waiting, to be deleted at the end. */
  lemma ChildAtEnd(rows: Rows, slot: Slot, ps: seq<Node>, a: int, r: int)
    requires Tree(rows) && Under(rows, slot, a, r)
    ensures Swept(rows, slot, ps, |ps|, r) <==> HasKey(ps, rows[a].key)
    ensures Waits(rows, slot, ps, r) <==> !HasKey(ps, rows[a].key) || Waiting(rows, slot, ps, |ps|, r)
  {
    hide Waits;
    hide Waiting;
    hide Swept;
    assert ps[..|ps|] == ps;
    SweptAt(rows, slot, ps, |ps|, a, r);
    WaitsAt(rows, slot, ps, a, r);
    if |ps| > 0 {
      WaitingAt(rows, slot, ps, |ps|, a, r);
    } else {
      assert !HasKey(ps, rows[a].key);
    }
  }

  /** What the session at the end holds of one row with another key. */
  lemma SettleRow(base: Session, t: Session, slot: Slot, existing: map<string, int>, ps: seq<Node>, r: int)
    requires Reached(base, t, slot, existing, ps, |ps|)
    requires r in base.live && Foreign(base.live[r], slot.formId, TreeKeys(ps))
    ensures var end := Doom(t, Obsolete(existing, ps));
      if Below(base.live, slot, r)
      then r !in end.live && (r in end.doomed <==> Waits(base.live, slot, ps, r))
      else Kept(base.live, end, r)
  {
    hide Obsolete;
    hide SubtreesOf;
    hide Foreign;
    hide HasKey;
    hide TreeKeys;
    hide Waits;
    hide Waiting;
    hide Swept;
    hide Reached;
    hide Below;
    hide Under;
    ToldAtEnd(base, t, slot, existing, ps, r);
    TreeBefore(base, t, slot, existing, ps, |ps|);
    if Below(base.live, slot, r) {
      var a := ChildOver(base.live, slot, r);
      ChildAtEnd(base.live, slot, ps, a, r);
      GoneAt(base, t, slot, existing, ps, a, r);
    } else {
      NotSweptOutside(base.live, slot, ps, |ps|, r);
      GoneIff(base, t, slot, existing, ps, r);
    }
  }

  lemma GoneAt(base: Session, t: Session, slot: Slot, existing: map<string, int>, ps: seq<Node>, a: int, r: int)
    requires Reached(base, t, slot, existing, ps, |ps|) && Under(base.live, slot, a, r)
    ensures r in SubtreesOf(t.live, Obsolete(existing, ps)) <==> !HasKey(ps, base.live[a].key)
  {
    hide Reached;
    hide Obsolete;
    hide SubtreesOf;
    hide HasKey;
    TreeBefore(base, t, slot, existing, ps, |ps|);
    GoneIff(base, t, slot, existing, ps, r);
    GoneUnder(base.live, slot, ps, a, r);
  }

  lemma NotSweptOutside(rows: Rows, slot: Slot, ps: seq<Node>, k: nat, r: int)
    requires Tree(rows) && k <= |ps| && !Below(rows, slot, r)
    ensures !Swept(rows, slot, ps, k, r)
  {
    if a :| Under(rows, slot, a, r) {
      UnderIsBelow(rows, slot, a, r);
    }
  }

  lemma GoneUnder(rows: Rows, slot: Slot, ps: seq<Node>, a: int, r: int)
    requires Tree(rows) && Under(rows, slot, a, r)
    ensures (exists b :: Under(rows, slot, b, r) && !HasKey(ps, rows[b].key)) <==> !HasKey(ps, rows[a].key)
  {
    hide HasKey;
    if b :| Under(rows, slot, b, r) && !HasKey(ps, rows[b].key) {
      UnderOne(rows, slot, a, b, r);
    }
  }

  /** Marking the obsolete children settles the container. */
  lemma EndSettles(base: Session, t: Session, slot: Slot, existing: map<string, int>, ps: seq<Node>)
    requires Reached(base, t, slot, existing, ps, |ps|)
    ensures Settled(base, slot, ps, Doom(t, Obsolete(existing, ps)))
  {
    hide Obsolete;
    hide SubtreesOf;
    hide Foreign;
    hide HasKey;
    hide TreeKeys;
    hide Waits;
    hide Waiting;
    hide Swept;
    hide Kept;
    hide Progress;
    hide Sound;
    hide Below;
    var end := Doom(t, Obsolete(existing, ps));
    assert ps[..|ps|] == ps;
    forall r | r in base.live && Foreign(base.live[r], slot.formId, TreeKeys(ps))
      ensures if Below(base.live, slot, r) then r !in end.live && (r in end.doomed <==> Waits(base.live, slot, ps, r))
        else Kept(base.live, end, r)
    {
      SettleRow(base, t, slot, existing, ps, r);
    }
    forall i | i in end.doomed ensures i in base.live && end.doomed[i] == base.live[i] && Below(base.live, slot, i) {
      GoneIff(base, t, slot, existing, ps, i);
    }
  }

  // ---- The theorem ----

  lemma NodeClear(rows: Rows, slot: Slot, ps: seq<Node>, node: Node)
    ensures Clear(rows, slot, ps, NodeKeys(node)) <==>
      Clear(rows, slot, ps, {node.key}) && Clear(rows, slot, ps, TreeKeys(node.subFields))
  {
    hide Blocks;
    hide TreeKeys;
  }

  ghost predicate RestClear(rows: Rows, slot: Slot, ps: seq<Node>, k: nat) {
    forall j :: k <= j < |ps| ==> Clear(rows, slot, ps, NodeKeys(ps[j]))
  }

  lemma FreeIsRestClear(rows: Rows, slot: Slot, ps: seq<Node>)
    ensures Free(rows, slot, ps) <==> RestClear(rows, slot, ps, 0)
  {
    hide Blocks;
    hide NodeKeys;
    if Free(rows, slot, ps) {
      forall j | 0 <= j < |ps| ensures Clear(rows, slot, ps, NodeKeys(ps[j])) {
        assert NodeKeys(ps[j]) <= TreeKeys(ps);
      }
    }
  }

  lemma RestClearUnfold(rows: Rows, slot: Slot, ps: seq<Node>, k: nat)
    requires k < |ps|
    ensures RestClear(rows, slot, ps, k) <==>
      Clear(rows, slot, ps, NodeKeys(ps[k])) && RestClear(rows, slot, ps, k + 1)
  {
    hide Clear;
    hide NodeKeys;
  }

  /**
   A payload with distinct keys that sets the NOT NULL columns goes through exactly when no row of the form is in
   the way of one of its keys; whenever one goes through, the session at the end is settled.
   */
  lemma {:induction false} SyncOutcome(s: Session, slot: Slot, ps: seq<Node>)
    requires Sound(s) && s.doomed == map[] && SlotOk(s.live, slot) && KeysDistinct(ps)
    ensures Supplied(ps) ==> (SyncChildren(s, slot, ps).Ok? <==> Free(s.live, slot, ps))
    ensures SyncChildren(s, slot, ps).Ok? ==> Settled(s, slot, ps, SyncChildren(s, slot, ps).value)
    decreases ps, |ps| + 1
  {
    hide Free;
    hide Settled;
    hide RestClear;
    hide Reached;
    hide Doom;
    hide Obsolete;
    hide KeysDistinct;
    hide Supplied;
    hide SlotOk;
    var existing := ExistingByKey(s.Visible(), slot);
    StartsReached(s, slot, existing, ps);
    SyncNodesOutcome(s, s, slot, existing, ps, 0);
    FreeIsRestClear(s.live, slot, ps);
    var r := SyncNodes(s, slot, existing, ps, 0);
    if r.Ok? {
      EndSettles(s, r.value, slot, existing, ps);
    }
  }

  lemma StartsReached(s: Session, slot: Slot, existing: map<string, int>, ps: seq<Node>)
    requires Sound(s) && s.doomed == map[] && SlotOk(s.live, slot) && existing == ExistingByKey(s.Visible(), slot)
    ensures Reached(s, s, slot, existing, ps, 0)
  {
    hide Told;
    hide Progress;
    StartsProgress(s, slot, ps);
    NothingTold(s, slot, ps);
    assert s.Visible() == s.live;
  }

  lemma {:induction false} SyncNodesOutcome(
    base: Session, s: Session, slot: Slot, existing: map<string, int>, ps: seq<Node>, k: nat)
    requires k <= |ps| && Reached(base, s, slot, existing, ps, k) && s.Coherent()
    requires KeysDistinct(ps)
    ensures var r := SyncNodes(s, slot, existing, ps, k);
      && (Supplied(ps) ==> (r.Ok? <==> RestClear(base.live, slot, ps, k)))
      && (r.Ok? ==> Reached(base, r.value, slot, existing, ps, |ps|))
    decreases ps, |ps| - k
  {
    hide SyncChildren;
    hide Reached;
    hide Clear;
    hide RestClear;
    hide KeysDistinct;
    hide Supplied;
    hide Settled;
    hide Free;
    hide Write;
    hide Flush;
    if k == |ps| {
      assert RestClear(base.live, slot, ps, k) by { NoneLeft(base.live, slot, ps, k); }
    } else {
      var c := WrittenId(s, existing, ps[k]);
      RestClearUnfold(base.live, slot, ps, k);
      NodeClear(base.live, slot, ps, ps[k]);
      if Supplied(ps) {
        WriteClear(base, s, slot, existing, ps, k, c);
      }
      var w := Flush(Write(s, slot, existing, ps[k], k));
      if w.Ok? {
        var f := w.value;
        NodeReady(base, s, f, slot, existing, ps, k, c);
        SyncOutcome(f, Inner(slot, c), ps[k].subFields);
        var g := SyncChildren(f, Inner(slot, c), ps[k].subFields);
        if g.Ok? {
          NodeDone(base, s, f, g.value, slot, existing, ps, k, c);
          SyncNodesOutcome(base, g.value, slot, existing, ps, k + 1);
        }
      }
    }
  }

  lemma NoneLeft(rows: Rows, slot: Slot, ps: seq<Node>, k: nat)
    requires k >= |ps|
    ensures RestClear(rows, slot, ps, k)
  {
  }

  lemma FlushReady(
    base: Session, s: Session, f: Session, slot: Slot, existing: map<string, int>, ps: seq<Node>, k: nat)
    requires k < |ps| && Reached(base, s, slot, existing, ps, k)
    requires Flush(Write(s, slot, existing, ps[k], k)) == Ok(f)
    ensures Sound(f) && f.doomed == map[] && SlotOk(f.live, Inner(slot, WrittenId(s, existing, ps[k])))
  {
    hide Told;
    hide Progress;
    hide Flush;
    hide Write;
    ReadyForChildren(base, s, f, slot, existing, ps, k);
  }

  lemma NodeReady(
    base: Session, s: Session, f: Session, slot: Slot, existing: map<string, int>, ps: seq<Node>, k: nat, c: int)
    requires k < |ps| && Reached(base, s, slot, existing, ps, k) && c == WrittenId(s, existing, ps[k])
    requires KeysDistinct(ps) && Flush(Write(s, slot, existing, ps[k], k)) == Ok(f)
    ensures Sound(f) && f.doomed == map[] && SlotOk(f.live, Inner(slot, c))
    ensures KeysDistinct(ps[k].subFields) && (Supplied(ps) ==> Supplied(ps[k].subFields))
    ensures Free(f.live, Inner(slot, c), ps[k].subFields) <==>
      Clear(base.live, slot, ps, TreeKeys(ps[k].subFields))
    ensures Flushed(base, s, f, slot, ps[k], c)
  {
    hide Reached;
    hide Free;
    hide Clear;
    hide Flush;
    hide Write;
    hide Flushed;
    KeysSoFar(ps, k, ps[k].key);
    FlushReady(base, s, f, slot, existing, ps, k);
    WriteFlushed(base, s, f, slot, existing, ps, k, c);
    NestedClear(base, s, f, slot, existing, ps, k, c);
  }

  lemma NodeDone(
    base: Session, s: Session, f: Session, g: Session, slot: Slot, existing: map<string, int>, ps: seq<Node>, k: nat,
    c: int)
    requires k < |ps| && Reached(base, s, slot, existing, ps, k) && c == WrittenId(s, existing, ps[k])
    requires KeysDistinct(ps) && Flush(Write(s, slot, existing, ps[k], k)) == Ok(f)
    requires Flushed(base, s, f, slot, ps[k], c)
    requires Sound(f) && f.doomed == map[] && SlotOk(f.live, Inner(slot, c))
    requires SyncChildren(f, Inner(slot, c), ps[k].subFields) == Ok(g)
    requires Settled(f, Inner(slot, c), ps[k].subFields, g)
    ensures Reached(base, g, slot, existing, ps, k + 1)
  {
    hide Told;
    hide SyncChildren;
    hide Progress;
    hide Matches;
    hide Settled;
    hide Flush;
    hide Write;
    hide KeysDistinct;
    SyncChildrenCorrect(f, Inner(slot, c), ps[k].subFields, g);
    OneMoreNode(base, s, f, g, slot, existing, ps, k);
    ChildSyncConfined(f.live, g.live, slot, c);
    OneMoreTold(base, s, f, g, slot, existing, ps, k, c);
  }

  /** A table holds each key once, so a payload that is realised in it repeats none. */
  lemma {:induction false} RealisedOnce(rows: Rows, slot: Slot, ps: seq<Node>)
    requires Tree(rows) && KeysUnique(rows) && Matches(rows, slot, ps) && SiblingsDistinct(ps)
    ensures KeysDistinct(ps)
    decreases ps
  {
    hide Matches;
    forall k | 0 <= k < |ps| ensures ps[k].key !in TreeKeys(ps[k].subFields) && KeysDistinct(ps[k].subFields) {
      var i := ChildRealising(rows, slot, ps, k);
      RealisedOnce(rows, Inner(slot, i), ps[k].subFields);
      if ps[k].key in TreeKeys(ps[k].subFields) {
        var x := PayloadKeyHeld(rows, Inner(slot, i), ps[k].subFields, ps[k].key);
        NotBelowItself(rows, slot, i);
      }
    }
    forall j, k | 0 <= j < k < |ps| ensures NodeKeys(ps[j]) !! NodeKeys(ps[k]) {
      forall key | key in NodeKeys(ps[j]) && key in NodeKeys(ps[k]) ensures false {
        var a, x := NodeKeyHeld(rows, slot, ps, j, key);
        var b, y := NodeKeyHeld(rows, slot, ps, k, key);
        assert x == y;
        UnderOne(rows, slot, a, b, x);
      }
    }
  }

  lemma NodeKeyHeld(rows: Rows, slot: Slot, ps: seq<Node>, k: nat, key: string) returns (a: int, i: int)
    requires Tree(rows) && Matches(rows, slot, ps) && SiblingsDistinct(ps)
    requires k < |ps| && key in NodeKeys(ps[k])
    ensures Under(rows, slot, a, i) && i in rows && rows[i].formId == slot.formId && rows[i].key == key
    ensures rows[a].key == ps[k].key
  {
    hide Matches;
    hide Below;
    a := ChildRealising(rows, slot, ps, k);
    if key == ps[k].key {
      i := a;
    } else {
      i := PayloadKeyHeld(rows, Inner(slot, a), ps[k].subFields, key);
    }
  }

  lemma NotBelowItself(rows: Rows, slot: Slot, a: int)
    requires Tree(rows) && a in Children(rows, slot)
    ensures !Below(rows, Inner(slot, a), a)
  {
    var rank :| Ranked(rows, rank);
    NotUnderSibling(rows, rank, slot, a, a);
  }

  /**
   For every payload whose siblings have distinct keys, a synchronisation goes through exactly when no key occurs
   twice anywhere in the payload and no row of the form is in the way of one of its keys.
   */
  lemma SyncSucceedsIff(s: Session, slot: Slot, ps: seq<Node>)
    requires Sound(s) && s.doomed == map[] && SlotOk(s.live, slot) && SiblingsDistinct(ps) && Supplied(ps)
    ensures SyncChildren(s, slot, ps).Ok? <==> KeysDistinct(ps) && Free(s.live, slot, ps)
  {
    hide SyncChildren;
    hide Free;
    hide KeysDistinct;
    hide Matches;
    hide Settled;
    if SyncChildren(s, slot, ps).Ok? {
      var end := SyncChildren(s, slot, ps).value;
      SyncChildrenCorrect(s, slot, ps, end);
      RealisedOnce(end.live, slot, ps);
    }
    if KeysDistinct(ps) {
      SyncOutcome(s, slot, ps);
    }
  }

  // ---- Payloads that never fail, and payloads that fail ----

  /** Each key is unused in the form or already sits under the same parent. */
  ghost predicate Placed(s: Session, slot: Slot, ps: seq<Node>)
    decreases ps, 1
  {
    forall k :: 0 <= k < |ps| ==> PlacedNode(s, slot, ps[k])
  }

  ghost predicate PlacedNode(s: Session, slot: Slot, node: Node)
    decreases node, 1
  {
    || NodeKeys(node) !! Used(s, slot.formId)
    || exists i :: i in Children(s.live, slot) && PlacedAt(s, slot, node, i)
  }

  ghost predicate PlacedAt(s: Session, slot: Slot, node: Node, i: int)
    requires i in s.live
    decreases node, 0
  {
    s.live[i].key == node.key && Placed(s, Inner(slot, i), node.subFields)
  }

  lemma {:induction false} PlacedIsFree(s: Session, slot: Slot, ps: seq<Node>, r: int)
    requires Sound(s) && s.doomed == map[] && KeysDistinct(ps) && Placed(s, slot, ps)
    requires r in s.live && s.live[r].formId == slot.formId && s.live[r].key in TreeKeys(ps)
    ensures !Blocks(s.live, slot, ps, r)
    decreases ps
  {
    hide Blocks;
    assert s.Visible() == s.live;
    var k :| 0 <= k < |ps| && s.live[r].key in NodeKeys(ps[k]);
    assert PlacedNode(s, slot, ps[k]);
    var i :| i in Children(s.live, slot) && PlacedAt(s, slot, ps[k], i);
    if r != i {
      PlacedIsFree(s, Inner(slot, i), ps[k].subFields, r);
      FreeIsBelow(s.live, Inner(slot, i), ps[k].subFields, r);
    }
    BlocksAt(s.live, slot, ps, k, i, r);
  }

  lemma FreeIsBelow(rows: Rows, slot: Slot, ps: seq<Node>, r: int)
    requires r in rows && !Blocks(rows, slot, ps, r)
    ensures Below(rows, slot, r)
  {
  }

  /**
   A payload whose keys are all different, each unused in the form or already under the
   same parent, and that sets every NOT NULL column, is synchronised without an error.
   */
  lemma SyncChildrenSucceeds(s: Session, slot: Slot, ps: seq<Node>)
    requires Sound(s) && s.doomed == map[] && SlotOk(s.live, slot)
    requires KeysDistinct(ps) && Supplied(ps) && Placed(s, slot, ps)
    ensures SyncChildren(s, slot, ps).Ok?
  {
    hide SyncChildren;
    hide Placed;
    hide Blocks;
    SyncOutcome(s, slot, ps);
    forall r | r in s.live && s.live[r].formId == slot.formId && s.live[r].key in TreeKeys(ps)
      ensures !Blocks(s.live, slot, ps, r)
    {
      PlacedIsFree(s, slot, ps, r);
    }
  }

  /**
   A key that a row of the subtree holds under a child the payload names later, or not at all, fails the
   synchronisation: the row is still there when the key is written.
   */
  lemma KeyHeldLaterFails(s: Session, slot: Slot, ps: seq<Node>, k: nat, a: int, holder: int)
    requires Sound(s) && s.doomed == map[] && SlotOk(s.live, slot) && KeysDistinct(ps) && Supplied(ps)
    requires k < |ps| && Under(s.live, slot, a, holder) && !HasKey(ps[..k + 1], s.live[a].key)
    requires holder in s.live && s.live[holder].formId == slot.formId && s.live[holder].key in NodeKeys(ps[k])
    ensures SyncChildren(s, slot, ps) == Err(Integrity)
  {
    hide SyncChildren;
    hide Blocks;
    hide NodeKeys;
    SyncOutcome(s, slot, ps);
    KeysSoFar(ps, k, s.live[a].key);
    BlocksAt(s.live, slot, ps, k, a, holder);
    assert s.live[holder].key in TreeKeys(ps);
  }

  lemma SameNode(ps: seq<Node>, j: nat, k: nat)
    requires KeysDistinct(ps) && j < |ps| && k < |ps|
    ensures ps[j].key == ps[k].key <==> j == k
  {
    assert ps[j].key in NodeKeys(ps[j]);
    if ps[j].key == ps[k].key {
      OneNode(ps, j, k, ps[k].key);
    }
  }

  /**
   A key that a row holds under a child the payload named earlier: the row is in the way of the key of the very
   next node only, and only while it waits to be deleted. Any other flush in between has freed the key.
   */
  lemma KeyHeldEarlier(s: Session, slot: Slot, ps: seq<Node>, j: nat, k: nat, a: int, holder: int)
    requires Sound(s) && KeysDistinct(ps) && j < k < |ps|
    requires Under(s.live, slot, a, holder) && s.live[a].key == ps[j].key
    requires holder in s.live && s.live[holder].key in NodeKeys(ps[k])
    ensures Blocks(s.live, slot, ps, holder) <==>
      s.live[holder].key == ps[k].key && j == k - 1 && Waits(s.live, Inner(slot, a), ps[j].subFields, holder)
  {
    hide Blocks;
    hide Waits;
    hide KeysDistinct;
    assert ps[..k][j].key == s.live[a].key;
    SameNode(ps, j, k);
    SameNode(ps, j, k - 1);
    BlocksAt(s.live, slot, ps, k, a, holder);
  }
}
