/**
 The store of forms and fields as the requests change it. Every operation either
 commits a store or reports an error, in which case nothing is committed.
 */
module FormOps {
  import opened Prelude
  import opened FormStore
  import opened FormSync

  datatype Scope = Global | Municipality

  datatype FormHead = FormHead(key: string, title: string, version: int, scope: Scope, scopeValue: Option<string>)

  /** ids below the counters have been handed out. */
  datatype Store = Store(forms: map<int, FormHead>, rows: Rows, nextField: int, nextForm: int)

  /** How a partial update treats one attribute. */
  datatype Patch<+T> = Keep | SetNull | SetTo(value: T)

  datatype FieldPatch = FieldPatch(
    formId: Patch<int>, parentId: Patch<int>, key: Patch<string>, orderIndex: Patch<int>, values: map<Column, Value>)

  /** What every request finds and leaves behind. */
  ghost predicate Valid(st: Store) {
    && Forest(st.rows) && FormsOk(st.forms)
    && (forall i :: i in st.rows ==> st.rows[i].formId in st.forms && i < st.nextField)
    && (forall f :: f in st.forms ==> f < st.nextForm)
  }

  function SessionOf(st: Store): Session {
    Session(st.rows, map[], st.nextField)
  }

  /** Commit a session: flush, then keep the live rows. */
  function Commit(st: Store, s: Session): Result<Store, Error> {
    var f := Flush(s);
    if f.Err? then Err(f.error) else Ok(st.(rows := f.value.live, nextField := f.value.nextId))
  }

  // ---- Parent assignment ----

  /** The ancestor walk from the proposed parent meets the field itself. */
  ghost predicate MeetsItself(rows: Rows, parent: int, current: Option<int>) {
    current.Some? && current.value in rows && InSubtree(rows, current.value, parent)
  }

  ghost function ValidateParent(rows: Rows, formId: int, parentId: Option<int>,
      current: Option<int>): (r: Result<Option<int>, Error>)
    ensures r.Ok? ==> r.value == parentId
  {
    if parentId.None? then Ok(None)
    else if parentId.value !in rows then Err(NotFound)
    else if rows[parentId.value].formId != formId then Err(InvalidParent)
    else if MeetsItself(rows, parentId.value, current) then Err(InvalidParent)
    else Ok(parentId)
  }

  // ---- Create ----

  ghost function CreateField(st: Store, formId: int, parentId: Option<int>, node: Node): Result<Store, Error>
    requires Valid(st)
  {
    if formId !in st.forms then Err(NotFound) else
      var p := ValidateParent(st.rows, formId, parentId, None);
      if p.Err? then Err(p.error) else
        var s := SessionOf(st);
        var row := NewField(Slot(formId, parentId), node, 0);
        var f := Flush(s.(live := s.live[s.nextId := row], nextId := s.nextId + 1));
        if f.Err? then Err(f.error) else
          InsertCoherent(st, formId, parentId, node);
          var g := SyncChildren(f.value, Slot(formId, Some(st.nextField)), node.subFields);
          if g.Err? then Err(g.error) else Commit(st, g.value)
  }

  lemma InsertCoherent(st: Store, formId: int, parentId: Option<int>, node: Node)
    requires Valid(st)
    ensures var s := SessionOf(st);
      var f := Flush(s.(live := s.live[s.nextId := NewField(Slot(formId, parentId), node, 0)], nextId := s.nextId + 1));
      f.Ok? ==> f.value.Coherent()
  {
  }

  // ---- Update ----

  function Patched(row: Field, formId: int, parentId: Option<int>, p: FieldPatch): Field {
    row.(formId := formId, parentId := parentId,
         key := if p.key.SetTo? then p.key.value else row.key,
         orderIndex := if p.orderIndex.SetTo? then p.orderIndex.value else row.orderIndex,
         values := row.values + p.values)
  }

  /** The given rows carry another form id. */
  function Relabel(rows: Rows, moved: set<int>, formId: int): Rows {
    map i | i in rows :: if i in moved then rows[i].(formId := formId) else rows[i]
  }

  ghost function Descendants(rows: Rows, top: int): set<int>
    requires top in rows
  {
    set i | i in rows && Below(rows, Slot(rows[top].formId, Some(top)), i)
  }

  function TargetForm(row: Field, p: FieldPatch): int {
    if p.formId.SetTo? then p.formId.value else row.formId
  }

  function TargetParent(row: Field, p: FieldPatch): Option<int> {
    match p.parentId
    case Keep => row.parentId
    case SetNull => None
    case SetTo(parent) => Some(parent)
  }

  /** The session once the field's own row is written and flushed. */
  ghost function FlushedUpdate(st: Store, id: int, p: FieldPatch): Result<Session, Error> {
    if id !in st.rows || p.formId.SetNull? then Err(NotFound) else
      var row := st.rows[id];
      var formId := TargetForm(row, p);
      if formId !in st.forms then Err(NotFound) else
        var v := ValidateParent(st.rows, formId, TargetParent(row, p), Some(id));
        if v.Err? then Err(v.error)
        else if p.key.SetNull? || p.orderIndex.SetNull? then Err(Integrity)
        else Flush(SessionOf(st).(live := st.rows[id := Patched(row, formId, v.value, p)]))
  }

  /** An update that says nothing about nested fields. */
  ghost function UpdateField(st: Store, id: int, p: FieldPatch): Result<Store, Error>
    requires Valid(st)
  {
    var f := FlushedUpdate(st, id, p);
    if f.Err? then Err(f.error)
    else if TargetForm(st.rows[id], p) == st.rows[id].formId then Commit(st, f.value)
    else Commit(st, f.value.(live := Relabel(f.value.live, Descendants(st.rows, id), TargetForm(st.rows[id], p))))
  }

  /** What an update says about nested fields. */
  datatype SubFields = Untouched | Emptied | Nonempty

  /**
   An empty list removes the nested fields, unless the field changes form as well: their new form is
   still pending when they are looked up, so none is found. A non-empty list fails on its first element.
   */
  ghost function UpdateWith(st: Store, id: int, p: FieldPatch, subs: SubFields): Result<Store, Error>
    requires Valid(st)
  {
    var f := FlushedUpdate(st, id, p);
    if f.Err? then Err(f.error)
    else if subs.Nonempty? then Err(Crashed)
    else
      var u := UpdateField(st, id, p);
      if u.Err? || subs.Untouched? || TargetForm(st.rows[id], p) != st.rows[id].formId then u
      else
        UpdateCoherent(st, id, p);
        var t := SyncChildren(SessionOf(u.value), Slot(TargetForm(st.rows[id], p), Some(id)), []);
        if t.Err? then Err(t.error) else Commit(u.value, t.value)
  }

  lemma CommitUnique(st: Store, s: Session)
    requires s.doomed == map[] && Commit(st, s).Ok?
    ensures var u := Commit(st, s).value; KeysUnique(u.rows) && u.rows == s.live && u.nextField == s.nextId
  {
    assert s.Visible() == s.live;
  }

  lemma FlushedRows(st: Store, id: int, p: FieldPatch)
    requires FlushedUpdate(st, id, p).Ok?
    ensures id in st.rows
    ensures var f := FlushedUpdate(st, id, p).value;
      f.doomed == map[] && f.nextId == st.nextField && f.live.Keys == st.rows.Keys
  {
    hide ValidateParent;
    hide Patched;
    hide TargetParent;
  }

  lemma UpdateCoherent(st: Store, id: int, p: FieldPatch)
    requires Valid(st)
    ensures var u := UpdateField(st, id, p); u.Ok? ==> SessionOf(u.value).Coherent()
  {
    hide FlushedUpdate;
    hide Commit;
    var u := UpdateField(st, id, p);
    if u.Ok? {
      FlushedRows(st, id, p);
      var f := FlushedUpdate(st, id, p).value;
      var s := if TargetForm(st.rows[id], p) == st.rows[id].formId then f
               else f.(live := Relabel(f.live, Descendants(st.rows, id), TargetForm(st.rows[id], p)));
      CommitUnique(st, s);
      assert SessionOf(u.value).Visible() == u.value.rows;
      assert u.value.rows.Keys == st.rows.Keys;
    }
  }

  // ---- Delete ----

  ghost function DeleteField(st: Store, id: int): Result<Store, Error> {
    if id !in st.rows then Err(NotFound) else Ok(st.(rows := st.rows - Subtree(st.rows, id)))
  }

  // ---- Forms ----

  function IndexedScope(h: FormHead): string {
    if h.scopeValue.Some? then h.scopeValue.value else ""
  }

  predicate SameIndexEntry(a: FormHead, b: FormHead) {
    a.key == b.key && a.scope == b.scope && IndexedScope(a) == IndexedScope(b) && a.version == b.version
  }

  /** The check constraint and the unique index over key, scope and version. */
  predicate FormsOk(forms: map<int, FormHead>) {
    && (forall f :: f in forms ==> (forms[f].scope.Global? <==> forms[f].scopeValue.None?))
    && (forall f, g :: f in forms && g in forms && SameIndexEntry(forms[f], forms[g]) ==> f == g)
  }

  function SaveForm(st: Store, id: int, head: FormHead): Result<Store, Error> {
    var forms := st.forms[id := head];
    if FormsOk(forms) then Ok(st.(forms := forms, nextForm := if st.nextForm <= id then id + 1 else st.nextForm))
    else Err(Integrity)
  }

  function CreateForm(st: Store, head: FormHead): Result<Store, Error> {
    SaveForm(st, st.nextForm, head)
  }

  function UpdateForm(st: Store, id: int, head: FormHead): Result<Store, Error> {
    if id !in st.forms then Err(NotFound) else SaveForm(st, id, head)
  }

  /** Deleting a form deletes its fields. */
  function DeleteForm(st: Store, id: int): Result<Store, Error> {
    if id !in st.forms then Err(NotFound)
    else Ok(st.(forms := st.forms - {id}, rows := map i | i in st.rows && st.rows[i].formId != id :: st.rows[i]))
  }

  // ---- Seeding ----

  datatype Seed = Seed(head: FormHead, fields: seq<Node>)

  predicate SameForm(a: FormHead, b: FormHead) {
    a.key == b.key && a.scope == b.scope && a.version == b.version && a.scopeValue == b.scopeValue
  }

  /** The stored form a seed definition describes, or a new id. */
  ghost function SeedTarget(st: Store, head: FormHead): int {
    if f :| f in st.forms && SameForm(st.forms[f], head) then f else st.nextForm
  }

  ghost function UpsertForm(st: Store, seed: Seed): Result<Store, Error>
    requires Valid(st)
  {
    var id := SeedTarget(st, seed.head);
    var saved := SaveForm(st, id, seed.head);
    if saved.Err? then saved else
      var s := SyncChildren(SessionOf(st), Slot(id, None), seed.fields);
      if s.Err? then Err(s.error) else Commit(saved.value, s.value)
  }
}
