/** What a payload's view holds, when no label and no field name is given twice and in general. */
module PayloadViews {
  import opened Prelude
  import opened Strings
  import opened Metadata

  // ---- Fields of one model ----

  ghost predicate Names(fields: seq<FieldMetadata>, n: string) {
    exists i :: 0 <= i < |fields| && fields[i].name == n
  }

  ghost predicate Labels(models: seq<Listed>, l: string) {
    exists i :: 0 <= i < |models| && models[i].model.modelLabel == l
  }

  lemma NamesStep(fields: seq<FieldMetadata>, n: string)
    requires fields != []
    ensures Names(fields, n) <==> Names(fields[..|fields| - 1], n) || fields[|fields| - 1].name == n
  {
    var front := fields[..|fields| - 1];
    if Names(fields, n) && fields[|fields| - 1].name != n {
      var i :| 0 <= i < |fields| && fields[i].name == n;
      assert front[i].name == n;
    }
    if Names(front, n) {
      var i :| 0 <= i < |front| && front[i].name == n;
      assert fields[i].name == n;
    }
  }

  lemma LabelsStep(models: seq<Listed>, l: string)
    requires models != []
    ensures Labels(models, l) <==> Labels(models[..|models| - 1], l) || models[|models| - 1].model.modelLabel == l
  {
    var front := models[..|models| - 1];
    if Labels(models, l) && models[|models| - 1].model.modelLabel != l {
      var i :| 0 <= i < |models| && models[i].model.modelLabel == l;
      assert front[i].model.modelLabel == l;
    }
    if Labels(front, l) {
      var i :| 0 <= i < |front| && front[i].model.modelLabel == l;
      assert models[i].model.modelLabel == l;
    }
  }

  /** Adding fields touches the one model, and its fields become those it had and those named. */
  lemma {:induction false} AddFieldsEffect(v: View, l: string, fields: seq<FieldMetadata>)
    requires l in v
    ensures var w := AddFields(v, l, fields);
      && w.Keys == v.Keys && w[l].attributes == v[l].attributes
      && (forall k :: k in v && k != l ==> w[k] == v[k])
      && (forall n :: n in w[l].fields <==> n in v[l].fields || Names(fields, n))
  {
    if fields != [] {
      AddFieldsEffect(v, l, fields[..|fields| - 1]);
      forall n {
        NamesStep(fields, n);
      }
    }
  }

  /** The labels of a view are those the payload lists. */
  lemma {:induction false} ViewLabels(models: seq<Listed>, l: string)
    ensures l in PayloadView(models) <==> Labels(models, l)
  {
    if models != [] {
      var n := |models| - 1;
      ViewLabels(models[..n], l);
      LabelsStep(models, l);
      AddFieldsEffect(AddEntity(PayloadView(models[..n]), models[n].model), models[n].model.modelLabel,
        models[n].model.fields);
    }
  }

  lemma UnambiguousFront(models: seq<Listed>)
    requires models != [] && Unambiguous(models)
    ensures var n := |models| - 1;
      && Unambiguous(models[..n]) && UniqueNames(models[n].model.fields)
      && models[n].model.modelLabel !in PayloadView(models[..n])
  {
    var n := |models| - 1;
    ViewLabels(models[..n], models[n].model.modelLabel);
    var front := models[..n];
    forall i | 0 <= i < |front| ensures UniqueNames(front[i].model.fields) {
      assert front[i] == models[i];
    }
  }

  lemma UniqueFront(fields: seq<FieldMetadata>)
    requires fields != [] && UniqueNames(fields)
    ensures UniqueNames(fields[..|fields| - 1]) && !Names(fields[..|fields| - 1], fields[|fields| - 1].name)
  {
    var front := fields[..|fields| - 1];
    forall i, j | 0 <= i < j < |front| ensures front[i].name != front[j].name {
      assert fields[i].name != fields[j].name;
    }
  }

  // ---- Contents of an unambiguous payload ----

  /** With names used once, a model added with no fields yet ends with each of its fields. */
  lemma {:induction false} FieldsContents(v: View, l: string, fields: seq<FieldMetadata>, i: nat)
    requires l in v && UniqueNames(fields) && i < |fields|
    ensures var w := AddFields(v, l, fields);
      fields[i].name in w[l].fields && w[l].fields[fields[i].name] == Normalize(fields[i].attributes)
  {
    var n := |fields| - 1;
    UniqueFront(fields);
    if i < n {
      FieldsContents(v, l, fields[..n], i);
      assert fields[..n][i] == fields[i];
      assert fields[i].name != fields[n].name;
    }
  }

  /** A help text is shown without the white space around it, and one of white space only is not shown. */
  ghost predicate HelpTextShown(listed: Option<string>, shown: Option<string>) {
    match shown
    case None => listed.None? || AllSpace(listed.value)
    case Some(t) =>
      SolidEnds(t) && listed.Some? && exists a, b :: AllSpace(a) && AllSpace(b) && listed.value == a + t + b
  }

  /** Every attribute but the help text is shown as listed. */
  ghost predicate AttributesShown(listed: FieldAttributes, shown: FieldAttributes) {
    shown.(helpText := None) == listed.(helpText := None) && HelpTextShown(listed.helpText, shown.helpText)
  }

  lemma NormalizeShows(a: FieldAttributes)
    ensures AttributesShown(a, Normalize(a))
  {
    if a.helpText.Some? {
      var before, after := StripParts(a.helpText.value);
    }
  }

  ghost predicate ShowsModel(v: View, m: ModelMetadata) {
    && m.modelLabel in v && v[m.modelLabel].attributes == m.attributes
    && (forall n :: n in v[m.modelLabel].fields <==> Names(m.fields, n))
    && (forall i :: 0 <= i < |m.fields| ==>
          m.fields[i].name in v[m.modelLabel].fields
          && AttributesShown(m.fields[i].attributes, v[m.modelLabel].fields[m.fields[i].name]))
  }

  /** The view's entry of a model, with its fields normalized. */
  ghost predicate HoldsModel(v: View, m: ModelMetadata) {
    && m.modelLabel in v && v[m.modelLabel].attributes == m.attributes
    && (forall n :: n in v[m.modelLabel].fields <==> Names(m.fields, n))
    && (forall i :: 0 <= i < |m.fields| ==>
          m.fields[i].name in v[m.modelLabel].fields
          && v[m.modelLabel].fields[m.fields[i].name] == Normalize(m.fields[i].attributes))
  }

  lemma {:induction false} ViewHolds(models: seq<Listed>, i: nat)
    requires Unambiguous(models) && i < |models|
    ensures HoldsModel(PayloadView(models), models[i].model)
  {
    hide Normalize;
    hide HoldsModel;
    hide UniqueNames;
    hide AddFields;
    var n := |models| - 1;
    UnambiguousFront(models);
    var v, m := PayloadView(models[..n]), models[n].model;
    if i < n {
      ViewHolds(models[..n], i);
      assert models[..n][i] == models[i];
      EarlierHeld(v, m, models[i].model);
    } else {
      AddedModelHeld(AddEntity(v, m), m);
    }
  }

  lemma EarlierHeld(v: View, m: ModelMetadata, x: ModelMetadata)
    requires HoldsModel(v, x) && x.modelLabel != m.modelLabel
    ensures HoldsModel(AddModel(v, m), x)
  {
    hide Normalize;
    AddFieldsEffect(AddEntity(v, m), m.modelLabel, m.fields);
  }

  lemma AddedModelHeld(v: View, m: ModelMetadata)
    requires m.modelLabel in v && v[m.modelLabel] == EntityView(m.attributes, map[]) && UniqueNames(m.fields)
    ensures HoldsModel(AddFields(v, m.modelLabel, m.fields), m)
  {
    hide Normalize;
    var w := AddFields(v, m.modelLabel, m.fields);
    AddFieldsEffect(v, m.modelLabel, m.fields);
    forall j | 0 <= j < |m.fields|
      ensures m.fields[j].name in w[m.modelLabel].fields
      ensures w[m.modelLabel].fields[m.fields[j].name] == Normalize(m.fields[j].attributes)
    {
      FieldsContents(v, m.modelLabel, m.fields, j);
    }
  }

  /** The view of an unambiguous payload shows every model as listed. */
  lemma ViewContents(models: seq<Listed>, i: nat)
    requires Unambiguous(models) && i < |models|
    ensures ShowsModel(PayloadView(models), models[i].model)
  {
    hide AttributesShown;
    hide Normalize;
    hide PayloadView;
    ViewHolds(models, i);
    var m := models[i].model;
    forall j | 0 <= j < |m.fields| ensures AttributesShown(m.fields[j].attributes, Normalize(m.fields[j].attributes)) {
      NormalizeShows(m.fields[j].attributes);
    }
  }

  // ---- Sizes of an unambiguous payload ----

  lemma {:induction false} FieldsSize(v: View, l: string, fields: seq<FieldMetadata>)
    requires l in v && UniqueNames(fields) && (forall n :: n in v[l].fields ==> !Names(fields, n))
    ensures |Cells(AddFields(v, l, fields))| == |Cells(v)| + |fields|
  {
    if fields != [] {
      var n := |fields| - 1;
      var front, f := fields[..n], fields[n];
      UniqueFront(fields);
      forall k ensures Names(front, k) ==> Names(fields, k) {
        NamesStep(fields, k);
      }
      NamesStep(fields, f.name);
      FieldsSize(v, l, front);
      AddFieldsEffect(v, l, front);
      var w := AddFields(v, l, front);
      assert (l, f.name) !in Cells(w);
      CellsGrow(w, l, f);
    }
  }

  lemma CellsGrow(v: View, l: string, f: FieldMetadata)
    requires l in v
    ensures Cells(AddField(v, l, f)) == Cells(v) + {(l, f.name)}
  {
    forall c ensures c in Cells(AddField(v, l, f)) <==> c in Cells(v) || c == (l, f.name) {
    }
  }

  lemma ModelSize(v: View, m: ModelMetadata)
    requires m.modelLabel !in v && UniqueNames(m.fields)
    ensures |AddModel(v, m)| == |v| + 1 && |Cells(AddModel(v, m))| == |Cells(v)| + |m.fields|
  {
    var w := AddEntity(v, m);
    AddFieldsEffect(w, m.modelLabel, m.fields);
    assert Cells(w) == Cells(v);
    FieldsSize(w, m.modelLabel, m.fields);
    KeysSize(w, AddModel(v, m));
    AddedKey(v, m.modelLabel, w[m.modelLabel]);
  }

  lemma KeysSize(v: View, w: View)
    requires v.Keys == w.Keys
    ensures |v| == |w|
  {
    assert |v| == |v.Keys|;
    assert |w| == |w.Keys|;
  }

  lemma AddedKey(v: View, l: string, e: EntityView)
    requires l !in v
    ensures |v[l := e]| == |v| + 1
  {
    assert |v| == |v.Keys|;
    assert v[l := e].Keys == v.Keys + {l};
    assert |v[l := e]| == |v[l := e].Keys|;
  }

  /** Every listed model and every listed field counts once. */
  lemma {:induction false} ViewSize(models: seq<Listed>)
    requires Unambiguous(models)
    ensures |PayloadView(models)| == |models| && |Cells(PayloadView(models))| == FieldCount(models)
  {
    hide AddModel;
    hide Cells;
    if models == [] {
      NoCells();
    } else {
      var n := |models| - 1;
      UnambiguousFront(models);
      ViewSize(models[..n]);
      ModelSize(PayloadView(models[..n]), models[n].model);
    }
  }

  lemma NoCells()
    ensures Cells(map[]) == {}
  {
  }

  // ---- The models of a payload ----

  /** No model label occurs twice in the payload, and no field name twice in a model. */
  ghost predicate UnambiguousApps(apps: seq<AppMetadata>) {
    && (forall i, j :: 0 <= i < |apps| && 0 <= j < |apps[i].models| ==> UniqueNames(apps[i].models[j].fields))
    && (forall l, i, j, i', j' :: LabelAt(apps, l, i, j) && LabelAt(apps, l, i', j') ==> i == i' && j == j')
  }

  ghost predicate ListedAt(apps: seq<AppMetadata>, x: Listed, i: int, j: int) {
    0 <= i < |apps| && 0 <= j < |apps[i].models| && x == Listed(apps[i].appLabel, apps[i].models[j])
  }

  /** Every model of every app is listed under the app's label, and nothing else is. */
  lemma {:induction false} ModelsListed(apps: seq<AppMetadata>, x: Listed)
    ensures x in Models(apps) <==> exists i, j :: ListedAt(apps, x, i, j)
  {
    if apps != [] {
      var n := |apps| - 1;
      ModelsListed(apps[..n], x);
      if x in ListedIn(apps[n]) {
        var j :| 0 <= j < |apps[n].models| && x == Listed(apps[n].appLabel, apps[n].models[j]);
        assert ListedAt(apps, x, n, j);
      }
      if i, j :| ListedAt(apps[..n], x, i, j) {
        assert ListedAt(apps, x, i, j);
      }
      if i, j :| ListedAt(apps, x, i, j) {
        if i < n {
          assert ListedAt(apps[..n], x, i, j);
        } else {
          assert ListedIn(apps[n])[j] == x;
        }
      }
    }
  }

  /** Where no model label occurs twice in the apps, none is listed twice. */
  lemma {:induction false} ModelsUnambiguous(apps: seq<AppMetadata>)
    requires UnambiguousApps(apps)
    ensures Unambiguous(Models(apps))
  {
    if apps != [] {
      var n := |apps| - 1;
      var front, own := Models(apps[..n]), ListedIn(apps[n]);
      FrontUnambiguous(apps);
      ModelsUnambiguous(apps[..n]);
      forall i | 0 <= i < |front| ensures NotIn(own, front[i].model.modelLabel) {
        ModelsListed(apps[..n], front[i]);
        var k, l :| ListedAt(apps[..n], front[i], k, l);
        assert LabelAt(apps, front[i].model.modelLabel, k, l);
        forall j | 0 <= j < |own| ensures own[j].model.modelLabel != front[i].model.modelLabel {
          assert LabelAt(apps, own[j].model.modelLabel, n, j);
        }
      }
      JoinedUnambiguous(front, own);
    } else {
      assert Models(apps) == [];
    }
  }

  lemma FrontUnambiguous(apps: seq<AppMetadata>)
    requires apps != [] && UnambiguousApps(apps)
    ensures UnambiguousApps(apps[..|apps| - 1]) && Unambiguous(ListedIn(apps[|apps| - 1]))
  {
    var n := |apps| - 1;
    var front, own := apps[..n], ListedIn(apps[n]);
    forall l, i, j, i', j' | LabelAt(front, l, i, j) && LabelAt(front, l, i', j') ensures i == i' && j == j' {
      assert LabelAt(apps, l, i, j) && LabelAt(apps, l, i', j');
    }
    forall i, j | 0 <= i < |front| && 0 <= j < |front[i].models| ensures UniqueNames(front[i].models[j].fields) {
      assert front[i] == apps[i];
    }
    forall i, j | 0 <= i < j < |own| ensures own[i].model.modelLabel != own[j].model.modelLabel {
      assert LabelAt(apps, own[i].model.modelLabel, n, i) && LabelAt(apps, own[j].model.modelLabel, n, j);
    }
  }

  ghost predicate NotIn(models: seq<Listed>, l: string) {
    forall i :: 0 <= i < |models| ==> models[i].model.modelLabel != l
  }

  lemma JoinedUnambiguous(a: seq<Listed>, b: seq<Listed>)
    requires Unambiguous(a) && Unambiguous(b) && forall i :: 0 <= i < |a| ==> NotIn(b, a[i].model.modelLabel)
    ensures Unambiguous(a + b)
  {
    var all := a + b;
    assert forall i :: 0 <= i < |all| ==> all[i] == if i < |a| then a[i] else b[i - |a|];
  }

  /** The view of a payload shows every model of every app as it is, and no other label. */
  lemma PayloadShown(apps: seq<AppMetadata>)
    requires UnambiguousApps(apps)
    ensures forall i, j :: 0 <= i < |apps| && 0 <= j < |apps[i].models| ==>
      ShowsModel(PayloadView(Models(apps)), apps[i].models[j])
    ensures forall l :: l in PayloadView(Models(apps)) ==> exists i, j :: LabelAt(apps, l, i, j)
  {
    ModelsUnambiguous(apps);
    forall i, j | 0 <= i < |apps| && 0 <= j < |apps[i].models|
      ensures ShowsModel(PayloadView(Models(apps)), apps[i].models[j])
    {
      var x := Listed(apps[i].appLabel, apps[i].models[j]);
      assert ListedAt(apps, x, i, j);
      ModelsListed(apps, x);
      var k :| 0 <= k < |Models(apps)| && Models(apps)[k] == x;
      ViewContents(Models(apps), k);
    }
    forall l | l in PayloadView(Models(apps)) ensures exists i, j :: LabelAt(apps, l, i, j) {
      ViewLabels(Models(apps), l);
      var k :| 0 <= k < |Models(apps)| && Models(apps)[k].model.modelLabel == l;
      ModelsListed(apps, Models(apps)[k]);
      var i, j :| ListedAt(apps, Models(apps)[k], i, j);
      assert LabelAt(apps, l, i, j);
    }
  }

  ghost predicate LabelAt(apps: seq<AppMetadata>, l: string, i: int, j: int) {
    0 <= i < |apps| && 0 <= j < |apps[i].models| && apps[i].models[j].modelLabel == l
  }
}
