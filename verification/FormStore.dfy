/**
 The table of form fields: a self-referencing table in which each row names its form
 and, optionally, a parent row. A container (Slot) is a form's top level or a field.
 */
module FormStore {
  import opened Prelude

  datatype Column =
    | Label | Type | Required | Placeholder | DefaultValue | Validation | Source | Options | Binding

  datatype Value = Null | Json(text: string)

  datatype Slot = Slot(formId: int, parentId: Option<int>)

  datatype Field = Field(
    formId: int, parentId: Option<int>, key: string, orderIndex: int, values: map<Column, Value>)
  {
    function Home(): Slot { Slot(formId, parentId) }

    /** The NOT NULL columns hold a value. */
    predicate Complete() {
      forall c | c in {Label, Type, Required, Binding} :: c in values && values[c] != Null
    }
  }

  type Rows = map<int, Field>

  function Children(rows: Rows, slot: Slot): set<int> {
    set i | i in rows && rows[i].Home() == slot
  }

  /** The unique index over (form_id, key). */
  predicate KeysUnique(rows: Rows) {
    forall i, j :: i in rows && j in rows && rows[i].formId == rows[j].formId && rows[i].key == rows[j].key ==> i == j
  }

  predicate AllComplete(rows: Rows) {
    forall i :: i in rows ==> rows[i].Complete()
  }

  /** Every parent exists, in the same form. */
  ghost predicate ParentsOk(rows: Rows) {
    forall i :: i in rows && rows[i].parentId.Some? ==>
      rows[i].parentId.value in rows && rows[rows[i].parentId.value].formId == rows[i].formId
  }

  /** A rank that decreases from child to parent. */
  ghost predicate Ranked(rows: Rows, rank: map<int, nat>) {
    forall i :: i in rows ==>
      && i in rank
      && (rows[i].parentId.Some? ==> rows[i].parentId.value in rank && rank[rows[i].parentId.value] < rank[i])
  }

  /** Parent chains never run in a circle. */
  ghost predicate Acyclic(rows: Rows) {
    exists rank :: Ranked(rows, rank)
  }

  ghost predicate Forest(rows: Rows) {
    ParentsOk(rows) && Acyclic(rows) && KeysUnique(rows) && AllComplete(rows)
  }

  /** id reaches the container slot in n + 1 steps up. */
  ghost predicate Chain(rows: Rows, slot: Slot, id: int, n: nat)
    decreases n
  {
    id in rows &&
    if n == 0 then rows[id].Home() == slot
    else rows[id].parentId.Some? && Chain(rows, slot, rows[id].parentId.value, n - 1)
  }

  /** id lies in the subtree hanging under the container slot. */
  ghost predicate Below(rows: Rows, slot: Slot, id: int) {
    exists n: nat :: Chain(rows, slot, id, n)
  }

  /** The field top and its descendants. */
  ghost predicate InSubtree(rows: Rows, top: int, id: int)
    requires top in rows
  {
    id == top || Below(rows, Slot(rows[top].formId, Some(top)), id)
  }

  ghost function Subtree(rows: Rows, top: int): set<int>
    requires top in rows
  {
    set i | i in rows && InSubtree(rows, top, i)
  }

  lemma BelowUnfold(rows: Rows, slot: Slot, id: int)
    ensures Below(rows, slot, id) <==>
      id in rows && (rows[id].Home() == slot || (rows[id].parentId.Some? && Below(rows, slot, rows[id].parentId.value)))
  {
    if Below(rows, slot, id) {
      var n: nat :| Chain(rows, slot, id, n);
      if n > 0 {
        assert Chain(rows, slot, rows[id].parentId.value, n - 1);
      }
    }
    if id in rows && rows[id].Home() == slot {
      assert Chain(rows, slot, id, 0);
    }
    if id in rows && rows[id].parentId.Some? && Below(rows, slot, rows[id].parentId.value) {
      var n: nat :| Chain(rows, slot, rows[id].parentId.value, n);
      assert Chain(rows, slot, id, n + 1);
    }
  }

  /** Descendants rank above their ancestor, and share its form. */
  lemma {:induction false} BelowRank(rows: Rows, rank: map<int, nat>, slot: Slot, id: int)
    requires ParentsOk(rows) && Ranked(rows, rank) && Below(rows, slot, id)
    ensures rows[id].formId == slot.formId
    ensures slot.parentId.Some? ==> slot.parentId.value in rank && rank[slot.parentId.value] < rank[id]
    decreases rank[id]
  {
    BelowUnfold(rows, slot, id);
    if rows[id].Home() != slot {
      BelowRank(rows, rank, slot, rows[id].parentId.value);
    }
  }

  /** Subtrees under two children of one container do not meet. */
  lemma {:induction false} SiblingsDisjoint(rows: Rows, rank: map<int, nat>, slot: Slot, a: int, b: int, x: int)
    requires ParentsOk(rows) && Ranked(rows, rank)
    requires a in Children(rows, slot) && b in Children(rows, slot) && a != b
    requires InSubtree(rows, a, x)
    ensures !InSubtree(rows, b, x)
    decreases rank[if x in rows then x else a]
  {
    var under := Slot(slot.formId, Some(b));
    BelowUnfold(rows, Slot(slot.formId, Some(a)), x);
    BelowUnfold(rows, under, x);
    if x == b {
      BelowRank(rows, rank, Slot(slot.formId, Some(a)), b);
      BelowUnfold(rows, Slot(slot.formId, Some(a)), b);
      NotUnderSibling(rows, rank, slot, a, b);
    } else if x == a {
      NotUnderSibling(rows, rank, slot, b, a);
    } else {
      SiblingsDisjoint(rows, rank, slot, a, b, rows[x].parentId.value);
    }
  }

  lemma NotUnderSibling(rows: Rows, rank: map<int, nat>, slot: Slot, a: int, b: int)
    requires ParentsOk(rows) && Ranked(rows, rank)
    requires a in Children(rows, slot) && b in Children(rows, slot)
    ensures !Below(rows, Slot(slot.formId, Some(a)), b)
  {
    var under := Slot(slot.formId, Some(a));
    BelowUnfold(rows, under, b);
    if Below(rows, under, b) && rows[b].Home() != under {
      BelowRank(rows, rank, under, rows[b].parentId.value);
    }
  }

  /** In a forest every field of a form hangs under the form's top level. */
  lemma {:induction false} FormIsTopSubtree(rows: Rows, rank: map<int, nat>, id: int)
    requires ParentsOk(rows) && Ranked(rows, rank) && id in rows
    ensures Below(rows, Slot(rows[id].formId, None), id)
    decreases rank[id]
  {
    BelowUnfold(rows, Slot(rows[id].formId, None), id);
    if rows[id].parentId.Some? {
      FormIsTopSubtree(rows, rank, rows[id].parentId.value);
    }
  }

  /** No field is its own descendant. */
  ghost predicate NoCycle(rows: Rows) {
    forall i :: i in rows ==> !Below(rows, Slot(rows[i].formId, Some(i)), i)
  }

  ghost function Ancestors(rows: Rows, id: int): set<int>
    requires id in rows
  {
    set a | a in rows && Below(rows, Slot(rows[id].formId, Some(a)), id)
  }

  /** A rank exists exactly when no field is its own descendant. */
  lemma AcyclicIffNoCycle(rows: Rows)
    requires ParentsOk(rows)
    ensures Acyclic(rows) <==> NoCycle(rows)
  {
    if Acyclic(rows) {
      var rank :| Ranked(rows, rank);
      forall i | i in rows && Below(rows, Slot(rows[i].formId, Some(i)), i) ensures false {
        BelowRank(rows, rank, Slot(rows[i].formId, Some(i)), i);
      }
    }
    if NoCycle(rows) {
      var rank := map i | i in rows :: |Ancestors(rows, i)|;
      forall i | i in rows && rows[i].parentId.Some? ensures rank[rows[i].parentId.value] < rank[i] {
        var p := rows[i].parentId.value;
        BelowUnfold(rows, Slot(rows[i].formId, Some(p)), i);
        forall a | a in Ancestors(rows, p) ensures a in Ancestors(rows, i) {
          BelowUnfold(rows, Slot(rows[i].formId, Some(a)), i);
        }
        assert p in Ancestors(rows, i) && p !in Ancestors(rows, p);
        ProperSubsetSmaller(Ancestors(rows, p), Ancestors(rows, i));
      }
      assert Ranked(rows, rank);
    }
  }

  lemma ProperSubsetSmaller(a: set<int>, b: set<int>)
    requires a < b
    ensures |a| < |b|
  {
    assert b == a + (b - a);
  }
}
