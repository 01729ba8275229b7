/** Metadata payloads: what a source sends, how it is hashed, and the view it describes. */
module Metadata {
  import opened Prelude
  import opened Strings

  /** A JSON value as parsed; numbers keep their literal. */
  datatype Json =
    | JsonNull
    | JsonBool(bool)
    | JsonNumber(literal: string)
    | JsonString(string)
    | JsonArray(seq<Json>)
    | JsonObject(map<string, Json>)

  datatype FieldAttributes = FieldAttributes(
    fieldType: string, dbColumn: Option<string>, nullable: bool, blank: bool, required: bool,
    primaryKey: bool, unique: bool, editable: bool, maxLength: Option<int>, defaultValue: Option<string>,
    choices: Option<seq<Json>>, helpText: Option<string>, relationKind: Option<string>,
    relatedModel: Option<string>, autoNow: Option<bool>, autoNowAdd: Option<bool>)

  datatype FieldMetadata = FieldMetadata(name: string, attributes: FieldAttributes)

  datatype EntityAttributes = EntityAttributes(
    modelName: string, dbTable: string, verboseName: Option<string>, verboseNamePlural: Option<string>,
    isManaged: Option<bool>, isProxy: Option<bool>)

  datatype ModelMetadata = ModelMetadata(modelLabel: string, attributes: EntityAttributes, fields: seq<FieldMetadata>)

  datatype AppMetadata = AppMetadata(appLabel: string, verboseName: Option<string>, models: seq<ModelMetadata>)

  datatype SourceInfo = SourceInfo(
    sourceName: string, organizationCode: Option<string>, appName: string, appVersion: Option<string>)

  datatype Payload = Payload(
    sourceKey: string, info: SourceInfo, generatedAt: int, generatorVersion: string, apps: seq<AppMetadata>)

  // ---- Hashes: a hash stands for exactly the record that is hashed ----

  datatype FieldHash = FieldHash(name: string, attributes: FieldAttributes)

  datatype EntityHash = EntityHash(appLabel: string, modelLabel: string, attributes: EntityAttributes)

  function NormalizeHelpText(text: Option<string>): Option<string> {
    if text.None? || Strip(text.value) == "" then None else Some(Strip(text.value))
  }

  /** The attributes as they are hashed and stored. */
  function Normalize(a: FieldAttributes): FieldAttributes {
    a.(helpText := NormalizeHelpText(a.helpText))
  }

  function ComputeFieldHash(f: FieldMetadata): FieldHash {
    FieldHash(f.name, Normalize(f.attributes))
  }

  /** The part of a model label before its first dot, or nothing. */
  function LabelPrefix(modelLabel: string): string {
    if '.' in modelLabel then modelLabel[..IndexOf(modelLabel, '.')] else ""
  }

  /** The hash takes the app label from the model label, not from the app that lists the model. */
  function ComputeEntityHash(m: ModelMetadata): EntityHash {
    EntityHash(LabelPrefix(m.modelLabel), m.modelLabel, m.attributes)
  }

  // ---- The view a payload describes ----

  /** A model as an app lists it. */
  datatype Listed = Listed(appLabel: string, model: ModelMetadata)

  function ListedIn(app: AppMetadata): seq<Listed> {
    seq(|app.models|, i requires 0 <= i < |app.models| => Listed(app.appLabel, app.models[i]))
  }

  /** The models of a payload in the order the synchroniser meets them. */
  function Models(apps: seq<AppMetadata>): seq<Listed> {
    if apps == [] then [] else Models(apps[..|apps| - 1]) + ListedIn(apps[|apps| - 1])
  }

  datatype EntityView = EntityView(attributes: EntityAttributes, fields: map<string, FieldAttributes>)

  type View = map<string, EntityView>

  /** A model seen again takes its later attributes and keeps the fields it already has. */
  function AddEntity(v: View, m: ModelMetadata): View {
    v[m.modelLabel := EntityView(m.attributes, if m.modelLabel in v then v[m.modelLabel].fields else map[])]
  }

  function AddField(v: View, l: string, f: FieldMetadata): View
    requires l in v
  {
    v[l := v[l].(fields := v[l].fields[f.name := Normalize(f.attributes)])]
  }

  function AddFields(v: View, l: string, fields: seq<FieldMetadata>): (w: View)
    requires l in v
    ensures l in w
  {
    if fields == [] then v
    else AddField(AddFields(v, l, fields[..|fields| - 1]), l, fields[|fields| - 1])
  }

  function AddModel(v: View, m: ModelMetadata): View {
    AddFields(AddEntity(v, m), m.modelLabel, m.fields)
  }

  /** Models by label, each with its fields by name; the last word on a name stands. */
  function PayloadView(models: seq<Listed>): View {
    if models == [] then map[] else AddModel(PayloadView(models[..|models| - 1]), models[|models| - 1].model)
  }

  function FieldCount(models: seq<Listed>): nat {
    if models == [] then 0 else FieldCount(models[..|models| - 1]) + |models[|models| - 1].model.fields|
  }

  /** No label twice, no field name twice in a model. */
  ghost predicate Unambiguous(models: seq<Listed>) {
    && (forall i, j :: 0 <= i < j < |models| ==> models[i].model.modelLabel != models[j].model.modelLabel)
    && (forall i :: 0 <= i < |models| ==> UniqueNames(models[i].model.fields))
  }

  ghost predicate UniqueNames(fields: seq<FieldMetadata>) {
    forall i, j :: 0 <= i < j < |fields| ==> fields[i].name != fields[j].name
  }

  /** The (model, field) pairs of a view. */
  function Cells(v: View): set<(string, string)> {
    set l, n | l in v && n in v[l].fields :: (l, n)
  }
}
