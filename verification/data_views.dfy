/** Portable data views and the exact replacement delta between two of them. */
module DataViews {
  import opened Wrappers

  /** Parsed JSON where the order of object keys does not count. */
  datatype Json =
    | Null | Bool(flag: bool) | Number(lexeme: string) | Str(text: string)
    | Arr(items: seq<Json>) | Obj(fields: map<string, Json>)

  datatype Spec = Spec(
    id: string, title: string, name: Option<string>, timeFieldName: Option<string>,
    allowNoIndex: bool, allowHidden: bool, sourceFilters: seq<Json>,
    fieldFormats: map<string, Json>, runtimeFieldMap: map<string, Json>,
    fieldAttrs: map<string, Json>, fields: map<string, Json>,
    viewType: Option<string>, typeMeta: Option<map<string, Json>>)

  /** White space as `str::trim` sees it. */
  predicate IsSpace(c: char) {
    var n := c as int;
    || 0x9 <= n <= 0xD || n == 0x20 || n == 0x85 || n == 0xA0 || n == 0x1680
    || 0x2000 <= n <= 0x200A || n == 0x2028 || n == 0x2029 || n == 0x202F || n == 0x205F || n == 0x3000
  }

  predicate Blank(s: string) { forall c :: c in s ==> IsSpace(c) }

  /** A portable spec: named, titled, attributes are objects, no legacy scripted fields. */
  predicate Valid(spec: Spec) {
    && !Blank(spec.id) && !Blank(spec.title)
    && (forall name :: name in spec.fieldAttrs ==> spec.fieldAttrs[name].Obj?)
    && spec.fields == map[]
  }

  /** Id and title have a visible character each. */
  lemma ValidIff(spec: Spec)
    ensures Valid(spec) <==>
            && (exists i :: 0 <= i < |spec.id| && !IsSpace(spec.id[i]))
            && (exists i :: 0 <= i < |spec.title| && !IsSpace(spec.title[i]))
            && (forall name :: name in spec.fieldAttrs ==> spec.fieldAttrs[name].Obj?)
            && spec.fields.Keys == {}
  {
    hide IsSpace;
    if !Blank(spec.id) {
      var c :| c in spec.id && !IsSpace(c);
    }
    if !Blank(spec.title) {
      var c :| c in spec.title && !IsSpace(c);
    }
    assert spec.fields == map[] <==> spec.fields.Keys == {};
  }

  /** Partial-update fields; None leaves a field out of the request. */
  datatype Update = Update(
    allowNoIndex: Option<bool>, fieldFormats: Option<map<string, Json>>, fields: Option<map<string, Json>>,
    name: Option<string>, runtimeFieldMap: Option<map<string, Json>>, sourceFilters: Option<seq<Json>>,
    timeFieldName: Option<string>, title: Option<string>, viewType: Option<string>,
    typeMeta: Option<map<string, Json>>)

  datatype Patch = Patch(base: Option<Update>, fieldMetadata: map<string, Json>)

  const NO_PATCH := Patch(None, map[])

  function Changed<T(==)>(current: T, desired: T): Option<T> {
    if current != desired then Some(desired) else None
  }

  function Flatten<T>(value: Option<Option<T>>): Option<T> {
    if value.Some? then value.value else None
  }

  predicate IsEmptyUpdate(u: Update) {
    && u.allowNoIndex.None? && u.fieldFormats.None? && u.fields.None? && u.name.None?
    && u.runtimeFieldMap.None? && u.sourceFilters.None? && u.timeFieldName.None? && u.title.None?
    && u.viewType.None? && u.typeMeta.None?
  }

  /** What the update routes cannot express. */
  predicate Supported(current: Spec, desired: Spec) {
    && Valid(current) && Valid(desired)
    && current.id == desired.id && current.allowHidden == desired.allowHidden
    && (current.name.Some? ==> desired.name.Some?)
    && (current.timeFieldName.Some? ==> desired.timeFieldName.Some?)
    && (current.viewType.Some? ==> desired.viewType.Some?)
    && (current.typeMeta.Some? ==> desired.typeMeta.Some?)
  }

  function BaseUpdate(current: Spec, desired: Spec): Update {
    Update(
      Changed(current.allowNoIndex, desired.allowNoIndex),
      Changed(current.fieldFormats, desired.fieldFormats),
      Changed(current.fields, desired.fields),
      Flatten(Changed(current.name, desired.name)),
      Changed(current.runtimeFieldMap, desired.runtimeFieldMap),
      Changed(current.sourceFilters, desired.sourceFilters),
      Flatten(Changed(current.timeFieldName, desired.timeFieldName)),
      Changed(current.title, desired.title),
      Flatten(Changed(current.viewType, desired.viewType)),
      Flatten(Changed(current.typeMeta, desired.typeMeta)))
  }

  function Lookup<T>(m: map<string, T>, key: string): Option<T> {
    if key in m then Some(m[key]) else None
  }

  /** The attribute object of one field, empty when the field carries none. */
  function Attrs(attrs: map<string, Json>, name: string): map<string, Json> {
    if name in attrs && attrs[name].Obj? then attrs[name].fields else map[]
  }

  /** Keys whose values differ, with the desired value or null for a removal. */
  function Delta(current: map<string, Json>, desired: map<string, Json>): map<string, Json> {
    map key | key in current.Keys + desired.Keys && Lookup(current, key) != Lookup(desired, key) ::
      if key in desired then desired[key] else Null
  }

  function FieldDelta(current: map<string, Json>, desired: map<string, Json>, name: string): map<string, Json> {
    Delta(Attrs(current, name), Attrs(desired, name))
  }

  /** The deltas of all fields that have one, among `names`. */
  function Metadata(current: map<string, Json>, desired: map<string, Json>, names: set<string>): map<string, Json> {
    map name | name in names && FieldDelta(current, desired, name) != map[] ::
      Obj(FieldDelta(current, desired, name))
  }

  function PatchOf(current: Spec, desired: Spec): Patch {
    var base := BaseUpdate(current, desired);
    Patch(
      if IsEmptyUpdate(base) then None else Some(base),
      Metadata(current.fieldAttrs, desired.fieldAttrs, current.fieldAttrs.Keys + desired.fieldAttrs.Keys))
  }

  method BuildDelta(current: map<string, Json>, desired: map<string, Json>) returns (delta: map<string, Json>)
    ensures delta == Delta(current, desired)
  {
    delta := map[];
    var keys := current.Keys + desired.Keys;
    while keys != {}
      invariant keys <= current.Keys + desired.Keys
      invariant delta == map key | key in current.Keys + desired.Keys - keys &&
                Lookup(current, key) != Lookup(desired, key) ::
                           if key in desired then desired[key] else Null
      decreases keys
    {
      var key :| key in keys;
      var before, after := Lookup(current, key), Lookup(desired, key);
      if before != after {
        delta := delta[key := if after.Some? then after.value else Null];
      }
      keys := keys - {key};
    }
  }

  /** The documented replacement delta, or None when the update routes cannot express it. */
  method BuildPatch(current: Spec, desired: Spec) returns (patch: Option<Patch>)
    ensures patch == if Supported(current, desired) then Some(PatchOf(current, desired)) else None
    ensures patch.Some? <==> Valid(current) && Valid(desired) && Reachable(current, desired)
    ensures patch.Some? ==> Equivalent(ApplyPatch(current, patch.value), desired)
  {
    SupportedIff(current, desired);
    if !Supported(current, desired) {
      return None;
    }
    PatchReachesDesired(current, desired);
    var base := BaseUpdate(current, desired);
    var metadata := BuildMetadata(current.fieldAttrs, desired.fieldAttrs);
    return Some(Patch(if IsEmptyUpdate(base) then None else Some(base), metadata));
  }

  lemma MetadataStep(current: map<string, Json>, desired: map<string, Json>, done: set<string>, name: string)
    ensures var delta := FieldDelta(current, desired, name);
            Metadata(current, desired, done + {name}) ==
            if delta == map[] then Metadata(current, desired, done) - {name}
            else Metadata(current, desired, done)[name := Obj(delta)]
    ensures Metadata(current, desired, {}) == map[]
    ensures name !in done ==> name !in Metadata(current, desired, done)
  {
    hide FieldDelta;
  }

  method BuildMetadata(current: map<string, Json>, desired: map<string, Json>) returns (metadata: map<string, Json>)
    ensures metadata == Metadata(current, desired, current.Keys + desired.Keys)
  {
    hide Delta, Attrs, Metadata;
    metadata := map[];
    var names := current.Keys + desired.Keys;
    ghost var done := {};
    MetadataStep(current, desired, {}, "");
    while names != {}
      invariant done !! names && done + names == current.Keys + desired.Keys
      invariant metadata == Metadata(current, desired, done)
      decreases names
    {
      var name :| name in names;
      MetadataStep(current, desired, done, name);
      var delta := BuildDelta(Attrs(current, name), Attrs(desired, name));
      if delta != map[] {
        metadata := metadata[name := Obj(delta)];
      }
      names, done := names - {name}, done + {name};
    }
    assert done == current.Keys + desired.Keys;
  }

  // ---- what a patch does to the view it is sent to ----

  function Or<T>(update: Option<T>, current: T): T {
    if update.Some? then update.value else current
  }

  function OrSome<T>(update: Option<T>, current: Option<T>): Option<T> {
    if update.Some? then update else current
  }

  function ApplyBase(spec: Spec, u: Update): Spec {
    spec.(allowNoIndex := Or(u.allowNoIndex, spec.allowNoIndex),
          fieldFormats := Or(u.fieldFormats, spec.fieldFormats),
          fields := Or(u.fields, spec.fields),
          name := OrSome(u.name, spec.name),
          runtimeFieldMap := Or(u.runtimeFieldMap, spec.runtimeFieldMap),
          sourceFilters := Or(u.sourceFilters, spec.sourceFilters),
          timeFieldName := OrSome(u.timeFieldName, spec.timeFieldName),
          title := Or(u.title, spec.title),
          viewType := OrSome(u.viewType, spec.viewType),
          typeMeta := OrSome(u.typeMeta, spec.typeMeta))
  }

  /** Merge a metadata delta: a value is set, null deletes. */
  function Merge(attrs: map<string, Json>, delta: map<string, Json>): map<string, Json> {
    map key | key in attrs.Keys + delta.Keys && !(key in delta && delta[key] == Null) ::
      if key in delta then delta[key] else attrs[key]
  }

  function ApplyMetadata(attrs: map<string, Json>, metadata: map<string, Json>): map<string, Json> {
    map name | name in attrs.Keys + metadata.Keys ::
      Obj(Merge(Attrs(attrs, name), Attrs(metadata, name)))
  }

  function ApplyPatch(spec: Spec, patch: Patch): Spec {
    var based := if patch.base.Some? then ApplyBase(spec, patch.base.value) else spec;
    based.(fieldAttrs := ApplyMetadata(based.fieldAttrs, patch.fieldMetadata))
  }

  /** One attribute, null read as absent. */
  function Attribute(spec: Spec, name: string, key: string): Json {
    if name in spec.fieldAttrs && spec.fieldAttrs[name].Obj? && key in spec.fieldAttrs[name].fields
    then spec.fieldAttrs[name].fields[key] else Null
  }

  /** Every base field and every attribute agree, null read as absent. */
  ghost predicate Equivalent(a: Spec, b: Spec) {
    && a.(fieldAttrs := b.fieldAttrs) == b
    && forall name, key :: Attribute(a, name, key) == Attribute(b, name, key)
  }

  /** Some request of the update routes turns `current` into `desired`. */
  ghost predicate Reachable(current: Spec, desired: Spec) {
    exists patch: Patch :: Equivalent(ApplyPatch(current, patch), desired)
  }

  /** Nothing is refused that any request could express. */
  lemma SupportedIff(current: Spec, desired: Spec)
    ensures Supported(current, desired) <==> Valid(current) && Valid(desired) && Reachable(current, desired)
  {
    if Supported(current, desired) {
      PatchReachesDesired(current, desired);
    }
  }

  lemma MergeReaches(current: map<string, Json>, desired: map<string, Json>, key: string)
    ensures var merged := Merge(current, Delta(current, desired));
            (if key in merged then merged[key] else Null) == (if key in desired then desired[key] else Null)
  {
    assert Lookup(current, key) == Lookup(desired, key) ||
           key in Delta(current, desired);
  }

  lemma MetadataAttrs(current: map<string, Json>, desired: map<string, Json>, name: string)
    ensures var metadata := Metadata(current, desired, current.Keys + desired.Keys);
            && Attrs(metadata, name) == FieldDelta(current, desired, name)
            && Attrs(ApplyMetadata(current, metadata), name) ==
               Merge(Attrs(current, name), FieldDelta(current, desired, name))
  {}

  /** Sent to the view it was computed from, the patch produces the desired view. */
  lemma PatchReachesDesired(current: Spec, desired: Spec)
    requires Supported(current, desired)
    ensures Equivalent(ApplyPatch(current, PatchOf(current, desired)), desired)
  {
    var result := ApplyPatch(current, PatchOf(current, desired));
    assert result.(fieldAttrs := desired.fieldAttrs) == desired;
    assert result.fieldAttrs == ApplyMetadata(current.fieldAttrs, PatchOf(current, desired).fieldMetadata);
    hide Delta, Merge, Metadata, ApplyMetadata, ApplyBase, BaseUpdate, Valid, Attrs, Attribute, FieldDelta;
    forall name, key ensures Attribute(result, name, key) == Attribute(desired, name, key) {
      MetadataAttrs(current.fieldAttrs, desired.fieldAttrs, name);
      DeltaOfField(current.fieldAttrs, desired.fieldAttrs, name);
      MergeReaches(Attrs(current.fieldAttrs, name), Attrs(desired.fieldAttrs, name), key);
      AttributeIs(result, name, key);
      AttributeIs(desired, name, key);
    }
  }

  lemma DeltaOfField(current: map<string, Json>, desired: map<string, Json>, name: string)
    ensures FieldDelta(current, desired, name) == Delta(Attrs(current, name), Attrs(desired, name))
  {}

  lemma AttributeIs(spec: Spec, name: string, key: string)
    ensures var attrs := Attrs(spec.fieldAttrs, name);
            Attribute(spec, name, key) == if key in attrs then attrs[key] else Null
  {}

  /** A field's attributes name a key with that value. */
  ghost predicate Carries(attrs: map<string, Json>, name: string, key: string, value: Json) {
    name in attrs && attrs[name].Obj? && key in attrs[name].fields && attrs[name].fields[key] == value
  }

  /** Both views have the attribute with one value, or neither has it. */
  ghost predicate SameAttribute(a: Spec, b: Spec, name: string, key: string) {
    forall value :: Carries(a.fieldAttrs, name, key, value) <==> Carries(b.fieldAttrs, name, key, value)
  }

  /** Every field and attribute the patch names really differs. */
  lemma PatchIsMinimal(current: Spec, desired: Spec)
    requires Supported(current, desired)
    ensures var patch := PatchOf(current, desired);
            && (patch.base.Some? ==>
                  var u := patch.base.value;
                  && !IsEmptyUpdate(u)
                  && (u.allowNoIndex.Some? ==> u.allowNoIndex.value != current.allowNoIndex)
                  && (u.fieldFormats.Some? ==> u.fieldFormats.value != current.fieldFormats)
                  && u.fields.None?
                  && (u.name.Some? ==> u.name != current.name)
                  && (u.runtimeFieldMap.Some? ==> u.runtimeFieldMap.value != current.runtimeFieldMap)
                  && (u.sourceFilters.Some? ==> u.sourceFilters.value != current.sourceFilters)
                  && (u.timeFieldName.Some? ==> u.timeFieldName != current.timeFieldName)
                  && (u.title.Some? ==> u.title.value != current.title)
                  && (u.viewType.Some? ==> u.viewType != current.viewType)
                  && (u.typeMeta.Some? ==> u.typeMeta != current.typeMeta))
            && (forall name :: name in patch.fieldMetadata ==>
                  patch.fieldMetadata[name].Obj? && patch.fieldMetadata[name].fields != map[])
            && forall name, key, value :: Carries(patch.fieldMetadata, name, key, value) ==>
                 value == Attribute(desired, name, key) && !SameAttribute(current, desired, name, key)
  {
    var patch := PatchOf(current, desired);
    forall name, key, value | Carries(patch.fieldMetadata, name, key, value)
      ensures value == Attribute(desired, name, key) && !SameAttribute(current, desired, name, key)
    {
      MetadataAttrs(current.fieldAttrs, desired.fieldAttrs, name);
      LookupIs(current, name, key);
      LookupIs(desired, name, key);
    }
  }

  /** An attribute and its lookup: null as a value is not the same as no value here. */
  lemma LookupIs(spec: Spec, name: string, key: string)
    ensures var found := Lookup(Attrs(spec.fieldAttrs, name), key);
            && (forall value :: Carries(spec.fieldAttrs, name, key, value) <==> found == Some(value))
            && Attribute(spec, name, key) == if found.Some? then found.value else Null
  {}

  /** No patch is needed exactly when nothing differs, down to the last attribute. */
  lemma PatchEmptyIff(current: Spec, desired: Spec)
    requires Supported(current, desired)
    ensures PatchOf(current, desired) == NO_PATCH <==>
            current.(fieldAttrs := desired.fieldAttrs) == desired &&
            forall name, key :: SameAttribute(current, desired, name, key)
  {
    var patch := PatchOf(current, desired);
    if patch == NO_PATCH {
      forall name, key ensures SameAttribute(current, desired, name, key) {
        MetadataAttrs(current.fieldAttrs, desired.fieldAttrs, name);
        LookupIs(current, name, key);
        LookupIs(desired, name, key);
        assert key !in FieldDelta(current.fieldAttrs, desired.fieldAttrs, name);
      }
    } else if forall name, key :: SameAttribute(current, desired, name, key) {
      forall name ensures FieldDelta(current.fieldAttrs, desired.fieldAttrs, name) == map[] {
        SameAttrs(current, desired, name);
      }
      assert patch.fieldMetadata == map[];
    }
  }

  lemma SameAttrs(current: Spec, desired: Spec, name: string)
    requires forall key :: SameAttribute(current, desired, name, key)
    ensures Attrs(current.fieldAttrs, name) == Attrs(desired.fieldAttrs, name)
  {
    var a, b := Attrs(current.fieldAttrs, name), Attrs(desired.fieldAttrs, name);
    forall key ensures Lookup(a, key) == Lookup(b, key) {
      LookupIs(current, name, key);
      LookupIs(desired, name, key);
      assert SameAttribute(current, desired, name, key);
      if key in a {
        assert Carries(current.fieldAttrs, name, key, a[key]);
      }
      if key in b {
        assert Carries(desired.fieldAttrs, name, key, b[key]);
      }
    }
    SameLookups(a, b);
  }

  lemma SameLookups(a: map<string, Json>, b: map<string, Json>)
    requires forall key :: Lookup(a, key) == Lookup(b, key)
    ensures a == b
  {
    forall key ensures key in a <==> key in b {
      assert Lookup(a, key) == Lookup(b, key);
    }
    forall key | key in a ensures a[key] == b[key] {
      assert Lookup(a, key) == Lookup(b, key);
    }
  }
}
