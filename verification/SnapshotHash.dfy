/** The canonical form of a snapshot, which is what its hash is taken of. */
module SnapshotHash {
  import opened Prelude
  import opened Ordering
  import opened Strings
  import opened Metadata

  predicate FieldOrder(a: FieldMetadata, b: FieldMetadata) {
    !Less(b.name, a.name)
  }

  predicate ModelOrder(a: ModelMetadata, b: ModelMetadata) {
    !Less(b.modelLabel, a.modelLabel)
  }

  predicate AppOrder(a: AppMetadata, b: AppMetadata) {
    !Less(b.appLabel, a.appLabel)
  }

  function CanonicalModel(m: ModelMetadata): ModelMetadata {
    m.(fields := Sort(FieldOrder, m.fields))
  }

  function CanonicalApp(a: AppMetadata): AppMetadata {
    a.(models := Map(CanonicalModel, Sort(ModelOrder, a.models)))
  }

  function Canonical(p: Payload): Payload {
    p.(apps := Sort(AppOrder, Map(CanonicalApp, p.apps)))
  }

  /** compute_snapshot_hash, before the digest. */
  method ComputeSnapshotHash(p: Payload) returns (hash: Payload)
    ensures hash == Canonical(p)
  {
    var normalizedApps: seq<AppMetadata> := [];
    for i := 0 to |p.apps|
      invariant |normalizedApps| == i
      invariant forall k :: 0 <= k < i ==> normalizedApps[k] == CanonicalApp(p.apps[k])
    {
      var models := Sort(ModelOrder, p.apps[i].models);
      var normalizedModels: seq<ModelMetadata> := [];
      for j := 0 to |models|
        invariant |normalizedModels| == j
        invariant forall k :: 0 <= k < j ==> normalizedModels[k] == CanonicalModel(models[k])
      {
        normalizedModels := normalizedModels + [models[j].(fields := Sort(FieldOrder, models[j].fields))];
      }
      assert normalizedModels == Map(CanonicalModel, models);
      normalizedApps := normalizedApps + [p.apps[i].(models := normalizedModels)];
    }
    assert normalizedApps == Map(CanonicalApp, p.apps);
    hash := p.(apps := Sort(AppOrder, normalizedApps));
  }

  // ---- The same snapshot in another order ----

  /** Every item of either list has its counterpart in the other; with distinct names this is a permutation. */
  ghost predicate Counterparts<T(!new)>(s: seq<T>, t: seq<T>, same: (T, T) -> bool) {
    && (forall x :: x in s ==> exists y :: y in t && same(x, y))
    && (forall y :: y in t ==> exists x :: x in s && same(x, y))
  }

  ghost predicate SameModel(m: ModelMetadata, n: ModelMetadata) {
    n == m.(fields := n.fields) && Counterparts(m.fields, n.fields, (f, g) => f == g)
  }

  ghost predicate SameApp(a: AppMetadata, b: AppMetadata) {
    b == a.(models := b.models) && Counterparts(a.models, b.models, (m, n) => SameModel(m, n))
  }

  ghost predicate SameSnapshot(p: Payload, q: Payload) {
    q == p.(apps := q.apps) && Counterparts(p.apps, q.apps, (a, b) => SameApp(a, b))
  }

  ghost predicate DistinctKeys<T>(s: seq<T>, key: T -> string) {
    forall i, j :: 0 <= i < j < |s| ==> key(s[i]) != key(s[j])
  }

  function FieldKey(f: FieldMetadata): string { f.name }

  function ModelKey(m: ModelMetadata): string { m.modelLabel }

  function AppKey(a: AppMetadata): string { a.appLabel }

  /** Names are distinct at each level: fields in a model, models in an app, apps in the snapshot. */
  ghost predicate WellNamedModel(m: ModelMetadata) {
    DistinctKeys(m.fields, FieldKey)
  }

  ghost predicate WellNamedApp(a: AppMetadata) {
    DistinctKeys(a.models, ModelKey) && forall m :: m in a.models ==> WellNamedModel(m)
  }

  ghost predicate WellNamed(p: Payload) {
    DistinctKeys(p.apps, AppKey) && forall a :: a in p.apps ==> WellNamedApp(a)
  }

  // ---- Sorting by a key ----

  ghost predicate ByKey<T(!new)>(le: (T, T) -> bool, key: T -> string) {
    forall x, y :: le(x, y) <==> !Less(key(y), key(x))
  }

  lemma KeyOrderTotal<T(!new)>(le: (T, T) -> bool, key: T -> string)
    requires ByKey(le, key)
    ensures TotalOrder(le)
  {
    forall x, y ensures le(x, y) || le(y, x) {
      LessTotal(key(x), key(y));
    }
    forall x, y, z | le(x, y) && le(y, z) ensures le(x, z) {
      LessTotal(key(x), key(y));
      LessTotal(key(y), key(z));
      LessTotal(key(x), key(z));
      if Less(key(z), key(x)) {
        if Less(key(x), key(y)) {
          LessTransitive(key(z), key(x), key(y));
        }
      }
    }
  }

  lemma DistinctKeysDecide<T(!new)>(s: seq<T>, le: (T, T) -> bool, key: T -> string)
    requires ByKey(le, key) && DistinctKeys(s, key)
    ensures Decides(le, s) && Distinct(s)
  {
    forall x, y | x in s && y in s && le(x, y) && le(y, x) ensures x == y {
      LessTotal(key(x), key(y));
      var i :| 0 <= i < |s| && s[i] == x;
      var j :| 0 <= j < |s| && s[j] == y;
      assert i == j;
    }
    forall i, j | 0 <= i < j < |s| ensures s[i] != s[j] {
      assert key(s[i]) != key(s[j]);
    }
  }

  /** With distinct keys, two lists sort to the same list exactly when they have the same elements. */
  lemma SortEqual<T(!new)>(s: seq<T>, t: seq<T>, le: (T, T) -> bool, key: T -> string)
    requires ByKey(le, key) && DistinctKeys(s, key) && DistinctKeys(t, key)
    ensures Sort(le, s) == Sort(le, t) <==> forall x :: x in s <==> x in t
  {
    KeyOrderTotal(le, key);
    DistinctKeysDecide(s, le, key);
    DistinctKeysDecide(t, le, key);
    if forall x :: x in s <==> x in t {
      SameElementsPermute(s, t);
      SortForgetsOrder(le, s, t);
    }
    if Sort(le, s) == Sort(le, t) {
      SortSameElements(le, s);
      SortSameElements(le, t);
    }
  }

  // ---- Canonical forms agree exactly for the same snapshot ----

  lemma CanonicalModelEqual(m: ModelMetadata, n: ModelMetadata)
    requires WellNamedModel(m) && WellNamedModel(n)
    ensures CanonicalModel(m) == CanonicalModel(n) <==> SameModel(m, n)
  {
    SortEqual(m.fields, n.fields, FieldOrder, FieldKey);
    var eq := (f: FieldMetadata, g: FieldMetadata) => f == g;
    if forall f :: f in m.fields <==> f in n.fields {
      forall f | f in m.fields ensures exists g :: g in n.fields && eq(f, g) {
        assert f in n.fields && eq(f, f);
      }
      forall g | g in n.fields ensures exists f :: f in m.fields && eq(f, g) {
        assert g in m.fields && eq(g, g);
      }
      assert Counterparts(m.fields, n.fields, (f, g) => f == g);
    }
  }

  /** Mapping commutes with sorting when the map keeps the key. */
  lemma {:induction false} SortMap<T(!new)>(s: seq<T>, le: (T, T) -> bool, key: T -> string, f: T -> T)
    requires ByKey(le, key) && forall x :: key(f(x)) == key(x)
    ensures Map(f, Sort(le, s)) == Sort(le, Map(f, s))
  {
    if s != [] {
      SortMap(s[1..], le, key, f);
      assert Map(f, s)[1..] == Map(f, s[1..]);
      InsertMap(s[0], Sort(le, s[1..]), le, key, f);
    }
  }

  lemma MapCons<T>(f: T -> T, x: T, s: seq<T>)
    ensures Map(f, [x] + s) == [f(x)] + Map(f, s)
  {
  }

  lemma {:induction false} InsertMap<T(!new)>(x: T, s: seq<T>, le: (T, T) -> bool, key: T -> string, f: T -> T)
    requires ByKey(le, key) && forall y :: key(f(y)) == key(y)
    ensures Map(f, Insert(le, x, s)) == Insert(le, f(x), Map(f, s))
  {
    if s != [] {
      assert le(x, s[0]) <==> le(f(x), f(s[0]));
      MapCons(f, s[0], s[1..]);
      assert s == [s[0]] + s[1..];
      MapCons(f, x, s);
      MapCons(f, s[0], Insert(le, x, s[1..]));
      hide Map;
      if !le(x, s[0]) {
        InsertMap(x, s[1..], le, key, f);
        assert Map(f, s)[1..] == Map(f, s[1..]);
      }
    }
  }

  lemma InImage<T(!new)>(f: T -> T, s: seq<T>, x: T)
    requires x in s
    ensures f(x) in Map(f, s)
  {
    var i :| 0 <= i < |s| && s[i] == x;
    assert Map(f, s)[i] == f(x);
  }

  lemma ImageOf<T(!new)>(f: T -> T, s: seq<T>, y: T) returns (x: T)
    requires y in Map(f, s)
    ensures x in s && f(x) == y
  {
    var i :| 0 <= i < |s| && Map(f, s)[i] == y;
    x := s[i];
  }
  /** Lists of canonical items sort equal exactly when the items are counterparts. */
  lemma CanonicalLists<T(!new)>(s: seq<T>, t: seq<T>, le: (T, T) -> bool, key: T -> string, f: T -> T,
      same: (T, T) -> bool)
    requires ByKey(le, key) && DistinctKeys(s, key) && DistinctKeys(t, key) && forall x :: key(f(x)) == key(x)
    requires forall x, y :: x in s && y in t ==> (f(x) == f(y) <==> same(x, y))
    ensures Sort(le, Map(f, s)) == Sort(le, Map(f, t)) <==> Counterparts(s, t, same)
  {
    SortEqual(Map(f, s), Map(f, t), le, key);
    ImagesCorrespond(s, t, f, same);
  }

  lemma ImageFound<T(!new)>(s: seq<T>, t: seq<T>, f: T -> T, same: (T, T) -> bool, z: T)
    requires forall x, y :: x in s && y in t ==> (f(x) == f(y) <==> same(x, y))
    requires Counterparts(s, t, same)
    ensures z in Map(f, s) <==> z in Map(f, t)
  {
    hide Map;
    if z in Map(f, s) {
      var x := ImageOf(f, s, z);
      var y :| y in t && same(x, y);
      InImage(f, t, y);
    }
    if z in Map(f, t) {
      var y := ImageOf(f, t, z);
      var x :| x in s && same(x, y);
      InImage(f, s, x);
    }
  }

  lemma CounterpartsFound<T(!new)>(s: seq<T>, t: seq<T>, f: T -> T, same: (T, T) -> bool)
    requires forall x, y :: x in s && y in t ==> (f(x) == f(y) <==> same(x, y))
    requires forall z :: z in Map(f, s) <==> z in Map(f, t)
    ensures Counterparts(s, t, same)
  {
    hide Map;
    forall x | x in s ensures exists y :: y in t && same(x, y) {
      InImage(f, s, x);
      var y := ImageOf(f, t, f(x));
    }
    forall y | y in t ensures exists x :: x in s && same(x, y) {
      InImage(f, t, y);
      var x := ImageOf(f, s, f(y));
    }
  }

  /** Two lists have the same images exactly when their members correspond. */
  lemma ImagesCorrespond<T(!new)>(s: seq<T>, t: seq<T>, f: T -> T, same: (T, T) -> bool)
    requires forall x, y :: x in s && y in t ==> (f(x) == f(y) <==> same(x, y))
    ensures (forall z :: z in Map(f, s) <==> z in Map(f, t)) <==> Counterparts(s, t, same)
  {
    if Counterparts(s, t, same) {
      forall z ensures z in Map(f, s) <==> z in Map(f, t) {
        ImageFound(s, t, f, same, z);
      }
    }
    if forall z :: z in Map(f, s) <==> z in Map(f, t) {
      CounterpartsFound(s, t, f, same);
    }
  }

  lemma CanonicalAppEqual(a: AppMetadata, b: AppMetadata)
    requires WellNamedApp(a) && WellNamedApp(b)
    ensures CanonicalApp(a) == CanonicalApp(b) <==> SameApp(a, b)
  {
    SortMap(a.models, ModelOrder, ModelKey, CanonicalModel);
    SortMap(b.models, ModelOrder, ModelKey, CanonicalModel);
    var same := (m: ModelMetadata, n: ModelMetadata) => SameModel(m, n);
    forall m, n | m in a.models && n in b.models ensures CanonicalModel(m) == CanonicalModel(n) <==> same(m, n) {
      CanonicalModelEqual(m, n);
    }
    CanonicalLists(a.models, b.models, ModelOrder, ModelKey, CanonicalModel, same);
    SameCounterparts(a.models, b.models, same, (m, n) => SameModel(m, n));
  }

  lemma SameCounterparts<T(!new)>(s: seq<T>, t: seq<T>, p: (T, T) -> bool, q: (T, T) -> bool)
    requires forall x, y :: p(x, y) == q(x, y)
    ensures Counterparts(s, t, p) <==> Counterparts(s, t, q)
  {
  }

  /**
   The hash of a snapshot does not depend on the order of its apps, models and fields, and depends on
   everything else: equal canonical forms are the same snapshot in another order, and the other way round.
   */
  lemma HashForgetsOrderOnly(p: Payload, q: Payload)
    requires WellNamed(p) && WellNamed(q)
    ensures Canonical(p) == Canonical(q) <==> SameSnapshot(p, q)
  {
    var same := (a: AppMetadata, b: AppMetadata) => SameApp(a, b);
    forall a, b | a in p.apps && b in q.apps ensures CanonicalApp(a) == CanonicalApp(b) <==> same(a, b) {
      CanonicalAppEqual(a, b);
    }
    CanonicalLists(p.apps, q.apps, AppOrder, AppKey, CanonicalApp, same);
    SameCounterparts(p.apps, q.apps, same, (a, b) => SameApp(a, b));
  }
}
