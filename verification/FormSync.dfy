/**
 The recursive tree synchroniser. The session does not flush before queries, so rows
 marked for deletion stay in the database, and in the way of the unique index, until
 the next flush: a session keeps them apart from the live rows.
 */
module FormSync {
  import opened Prelude
  import opened FormStore

  /** One field of a payload tree, with its nested fields. */
  datatype Node = Node(key: string, orderIndex: Option<int>, values: map<Column, Value>, subFields: seq<Node>)

  datatype Error = NotFound | InvalidParent | Integrity | Crashed

  datatype Session = Session(live: Rows, doomed: Rows, nextId: int)
  {
    /** What a query sees. */
    function Visible(): Rows { live + doomed }

    ghost predicate Coherent() {
      live.Keys !! doomed.Keys && KeysUnique(Visible()) && forall i :: i in Visible() ==> i < nextId
    }
  }

  const InsertDefaults: map<Column, Value> :=
    map[Label := Null, Type := Null, Required := Json("false"), Placeholder := Null, DefaultValue := Null,
        Validation := Null, Source := Null, Options := Null, Binding := Json("dynamic")]

  function PositionOr(order: Option<int>, index: nat): int {
    if order.None? then index else order.value
  }

  /** A new row holding the payload's values. */
  function NewField(slot: Slot, node: Node, index: nat): Field {
    Field(slot.formId, slot.parentId, node.key, PositionOr(node.orderIndex, index), InsertDefaults + node.values)
  }

  /** An existing row overwritten by the payload's values. */
  function Overwrite(row: Field, slot: Slot, node: Node, index: nat): Field {
    row.(parentId := slot.parentId, key := node.key, orderIndex := PositionOr(node.orderIndex, index),
         values := row.values + node.values)
  }

  /** Write pending rows, then delete the doomed ones; the unique index sees both. */
  function Flush(s: Session): Result<Session, Error> {
    if KeysUnique(s.Visible()) && AllComplete(s.live) then Ok(Session(s.live, map[], s.nextId)) else Err(Integrity)
  }

  function ExistingByKey(rows: Rows, slot: Slot): map<string, int>
    requires KeysUnique(rows)
  {
    map i | i in Children(rows, slot) :: rows[i].key := i
  }

  /** The session after one payload node is inserted or applied to its row, before the flush. */
  function Write(s: Session, slot: Slot, existing: map<string, int>, node: Node, index: nat): Session {
    if node.key in existing then
      var id := existing[node.key];
      if id in s.live then s.(live := s.live[id := Overwrite(s.live[id], slot, node, index)]) else s
    else
      s.(live := s.live[s.nextId := NewField(slot, node, index)], nextId := s.nextId + 1)
  }

  function WrittenId(s: Session, existing: map<string, int>, node: Node): int {
    if node.key in existing then existing[node.key] else s.nextId
  }

  lemma WriteIds(s: Session, slot: Slot, existing: map<string, int>, node: Node, index: nat)
    requires s.Coherent()
    ensures var w := Write(s, slot, existing, node, index);
      w.live.Keys !! w.doomed.Keys && forall i :: i in w.live ==> i < w.nextId
  {
    hide KeysUnique;
    hide NewField;
    hide Overwrite;
    assert forall i :: i in s.live || i in s.doomed ==> i in s.Visible();
  }

  lemma FlushCoherent(w: Session, f: Session)
    requires w.live.Keys !! w.doomed.Keys && forall i :: i in w.live ==> i < w.nextId
    requires Flush(w) == Ok(f)
    ensures f.Coherent()
  {
    assert f.Visible() == w.live;
    forall i | i in w.live ensures i in w.Visible() && w.Visible()[i] == w.live[i] {
    }
  }

  /** A write that passes the flush leaves a coherent session. */
  lemma WriteCoherent(s: Session, slot: Slot, existing: map<string, int>, node: Node, k: nat, f: Session)
    requires s.Coherent() && Flush(Write(s, slot, existing, node, k)) == Ok(f)
    ensures f.Coherent()
  {
    hide Write;
    hide Flush;
    WriteIds(s, slot, existing, node, k);
    FlushCoherent(Write(s, slot, existing, node, k), f);
  }

  ghost predicate InSubtrees(rows: Rows, tops: set<int>, id: int) {
    exists t :: t in tops && t in rows && InSubtree(rows, t, id)
  }

  ghost function SubtreesOf(rows: Rows, tops: set<int>): set<int> {
    set i | i in rows && InSubtrees(rows, tops, i)
  }

  function Taken(rows: Rows, gone: set<int>): Rows {
    map i | i in gone && i in rows :: rows[i]
  }

  function Withdraw(s: Session, gone: set<int>): Session {
    Session(s.live - gone, s.doomed + Taken(s.live, gone), s.nextId)
  }

  /** Mark the given fields and everything under them for deletion. */
  ghost function Doom(s: Session, tops: set<int>): Session {
    Withdraw(s, SubtreesOf(s.live, tops))
  }

  lemma WithdrawKeepsVisible(s: Session, gone: set<int>)
    requires s.Coherent()
    ensures Withdraw(s, gone).Visible() == s.Visible()
    ensures Withdraw(s, gone).Coherent()
  {
    var d := Withdraw(s, gone);
    forall i ensures i in d.Visible() <==> i in s.Visible() {
      assert i in d.live <==> i in s.live && i !in gone;
      assert i in d.doomed <==> i in s.doomed || (i in gone && i in s.live);
    }
    assert d.Visible().Keys == s.Visible().Keys;
    forall i | i in s.Visible() ensures d.Visible()[i] == s.Visible()[i] {
    }
    assert d.Visible() == s.Visible();
  }

  predicate HasKey(ps: seq<Node>, key: string) {
    exists k :: 0 <= k < |ps| && ps[k].key == key
  }

  function Obsolete(existing: map<string, int>, ps: seq<Node>): set<int> {
    set key | key in existing && !HasKey(ps, key) :: existing[key]
  }

  ghost function SyncChildren(s: Session, slot: Slot, ps: seq<Node>): (r: Result<Session, Error>)
    requires s.Coherent()
    ensures r.Ok? ==> r.value.Coherent()
    ensures r.Err? ==> r.error == Integrity
    decreases ps, |ps| + 1
  {
    var existing := ExistingByKey(s.Visible(), slot);
    var r := SyncNodes(s, slot, existing, ps, 0);
    if r.Err? then r else
      WithdrawKeepsVisible(r.value, SubtreesOf(r.value.live, Obsolete(existing, ps)));
      Ok(Doom(r.value, Obsolete(existing, ps)))
  }

  ghost function SyncNodes(s: Session, slot: Slot, existing: map<string, int>, ps: seq<Node>,
      k: nat): (r: Result<Session, Error>)
    requires s.Coherent() && k <= |ps|
    ensures r.Ok? ==> r.value.Coherent()
    ensures r.Err? ==> r.error == Integrity
    decreases ps, |ps| - k
  {
    if k == |ps| then Ok(s) else
      var f := Flush(Write(s, slot, existing, ps[k], k));
      if f.Err? then f else
        WriteCoherent(s, slot, existing, ps[k], k, f.value);
        var c := SyncChildren(f.value, Slot(slot.formId, Some(WrittenId(s, existing, ps[k]))), ps[k].subFields);
        if c.Err? then c else SyncNodes(c.value, slot, existing, ps, k + 1)
  }
}
