/** The checksum's normal form of storage/dashboard_read_model.py: a snapshot
    with its volatile parts removed at every depth. */
module SnapshotChecksum {

  datatype Json =
    | JNull
    | JBool(flag: bool)
    | JNumber(number: real)
    | JString(text: string)
    | JList(items: seq<Json>)
    | JObject(fields: map<string, Json>)

  const VOLATILE := {
    "generated_at", "snapshot_age_sec", "source_runtime_cycle_age_sec", "build_duration_ms", "updated_at",
    "last_write_at"}

  const STABLE_METADATA := {
    "enabled", "source", "view_name", "schema_version", "generation", "status", "stale", "stale_after_sec",
    "source_runtime_cycle_at", "source_runtime_cycle_count", "fallback_used", "persisted", "warnings"}

  const READ_MODEL := "read_model"

  /** The fields of an object; anything else counts as an empty one. */
  function FieldsOf(value: Json): map<string, Json> {
    if value.JObject? then value.fields else map[]
  }

  function Stable(value: Json): Json
    decreases value, 0
  {
    match value
    case JObject(fields) => JObject(map k | k in fields && k !in VOLATILE :: StableField(k, fields[k]))
    case JList(items) => JList(seq(|items|, i requires 0 <= i < |items| => Stable(items[i])))
    case _ => value
  }

  function StableField(name: string, value: Json): Json
    decreases value, 1
  {
    if name == READ_MODEL then StableMetadata(value) else Stable(value)
  }

  function StableMetadata(item: Json): Json
    decreases item, 0
  {
    if item.JObject? then
      JObject(map k | k in item.fields && k in STABLE_METADATA :: Stable(item.fields[k]))
    else JObject(map[])
  }

  /** Normalising twice is normalising once, on every tree. */
  lemma {:induction false} StableIsIdempotent(value: Json)
    ensures Stable(Stable(value)) == Stable(value)
  {
    match value
    case JObject(fields) =>
      forall k | k in fields && k !in VOLATILE
        ensures var once := Stable(value).fields[k];
                StableField(k, once) == once
      {
        if k == READ_MODEL {
          StableMetadataIsIdempotent(fields[k]);
        } else {
          StableIsIdempotent(fields[k]);
        }
      }
      assert Stable(Stable(value)).fields == Stable(value).fields;
    case JList(items) =>
      forall i | 0 <= i < |items| ensures Stable(Stable(items[i])) == Stable(items[i]) {
        StableIsIdempotent(items[i]);
      }
    case _ =>
  }

  lemma {:induction false} StableMetadataIsIdempotent(item: Json)
    ensures StableMetadata(StableMetadata(item)) == StableMetadata(item)
  {
    if item.JObject? {
      forall k | k in item.fields && k in STABLE_METADATA ensures Stable(Stable(item.fields[k])) == Stable(item.fields[k]) {
        StableIsIdempotent(item.fields[k]);
      }
      assert StableMetadata(StableMetadata(item)).fields == StableMetadata(item).fields;
    }
  }

  // ------------------------------------------------- what the checksum ignores

  /** The trees differ, at any depth, only under volatile keys and in
      read_model fields outside the list. */
  ghost predicate Agree(a: Json, b: Json)
    decreases a, 0
  {
    if a.JObject? && b.JObject? then
      (forall k :: k in a.fields && k !in VOLATILE ==> k in b.fields && AgreeField(k, a.fields[k], b.fields[k]))
      && forall k :: k in b.fields && k !in VOLATILE ==> k in a.fields
    else if a.JList? && b.JList? then
      |a.items| == |b.items| && forall i :: 0 <= i < |a.items| ==> Agree(a.items[i], b.items[i])
    else a == b
  }

  ghost predicate AgreeField(name: string, a: Json, b: Json)
    decreases a, 1
  {
    if name == READ_MODEL then AgreeMetadata(a, b) else Agree(a, b)
  }

  ghost predicate AgreeMetadata(a: Json, b: Json)
    decreases a, 0
  {
    (a.JObject? ==> forall k :: k in a.fields && k in STABLE_METADATA ==>
       k in FieldsOf(b) && Agree(a.fields[k], FieldsOf(b)[k]))
    && forall k :: k in FieldsOf(b) && k in STABLE_METADATA ==> k in FieldsOf(a)
  }

  /** Two trees have one normal form exactly when they differ in nothing else. */
  lemma {:induction false} SameFormExactlyWhenAgree(a: Json, b: Json)
    ensures Agree(a, b) <==> Stable(a) == Stable(b)
    decreases a, 0
  {
    if a.JObject? && b.JObject? {
      forall k | k in a.fields && k in b.fields && k !in VOLATILE
        ensures AgreeField(k, a.fields[k], b.fields[k]) <==> StableField(k, a.fields[k]) == StableField(k, b.fields[k])
      {
        SameFieldExactlyWhenAgree(k, a.fields[k], b.fields[k]);
      }
      ObjectFormsAgree(a, b);
    } else if a.JList? && b.JList? {
      var x, y := Stable(a).items, Stable(b).items;
      forall i | 0 <= i < |a.items| && i < |b.items| ensures Agree(a.items[i], b.items[i]) <==> x[i] == y[i] {
        SameFormExactlyWhenAgree(a.items[i], b.items[i]);
      }
      if Stable(a) == Stable(b) {
        assert |x| == |a.items| && |y| == |b.items|;
      } else {
        assert x != y;
      }
    }
  }

  lemma {:induction false} SameFieldExactlyWhenAgree(name: string, a: Json, b: Json)
    ensures AgreeField(name, a, b) <==> StableField(name, a) == StableField(name, b)
    decreases a, 1
  {
    if name == READ_MODEL {
      SameMetadataExactlyWhenAgree(a, b);
    } else {
      SameFormExactlyWhenAgree(a, b);
    }
  }

  /** Equality of two object forms, key by key. */
  lemma ObjectFormsAgree(a: Json, b: Json)
    requires a.JObject? && b.JObject?
    requires forall k :: k in a.fields && k in b.fields && k !in VOLATILE ==>
               (AgreeField(k, a.fields[k], b.fields[k]) <==> StableField(k, a.fields[k]) == StableField(k, b.fields[k]))
    ensures Agree(a, b) <==> Stable(a) == Stable(b)
  {
    var x, y := Stable(a).fields, Stable(b).fields;
    assert forall k :: k in x <==> k in a.fields && k !in VOLATILE;
    assert forall k :: k in y <==> k in b.fields && k !in VOLATILE;
    if Agree(a, b) {
      assert x.Keys == y.Keys;
      assert x == y;
    }
    if x == y {
      forall k | k in a.fields && k !in VOLATILE ensures k in b.fields && AgreeField(k, a.fields[k], b.fields[k]) {
        assert k in y && x[k] == y[k];
      }
      forall k | k in b.fields && k !in VOLATILE ensures k in a.fields {
        assert k in x;
      }
    }
  }

  lemma {:induction false} SameMetadataExactlyWhenAgree(a: Json, b: Json)
    ensures AgreeMetadata(a, b) <==> StableMetadata(a) == StableMetadata(b)
    decreases a, 0
  {
    var x, y := StableMetadata(a).fields, StableMetadata(b).fields;
    assert forall k :: k in x <==> k in FieldsOf(a) && k in STABLE_METADATA;
    assert forall k :: k in y <==> k in FieldsOf(b) && k in STABLE_METADATA;
    if a.JObject? && b.JObject? {
      forall k | k in a.fields && k in b.fields && k in STABLE_METADATA
        ensures Agree(a.fields[k], b.fields[k]) <==> x[k] == y[k]
      {
        SameFormExactlyWhenAgree(a.fields[k], b.fields[k]);
      }
    }
    if AgreeMetadata(a, b) {
      assert x.Keys == y.Keys;
      assert x == y;
    }
    if x == y {
      assert forall k :: k in x <==> k in y;
    }
  }

  // ------------------------------------------------------------------- edits

  datatype Hop = Key(name: string) | Index(i: nat)

  /** Write new at the end of the path; a path that leads nowhere changes nothing. */
  function Put(value: Json, path: seq<Hop>, new': Json): Json
    decreases |path|
  {
    if path == [] then new'
    else match path[0]
      case Key(name) =>
        if value.JObject? && (name in value.fields || |path| == 1)
        then JObject(value.fields[name := if name in value.fields then Put(value.fields[name], path[1..], new') else new'])
        else value
      case Index(i) =>
        if value.JList? && i < |value.items|
        then JList(value.items[i := Put(value.items[i], path[1..], new')])
        else value
  }

  /** The path runs through a volatile key, or from read_model to a field
      outside the list. */
  predicate Hidden(path: seq<Hop>, inReadModel: bool)
    decreases |path|
  {
    path != []
    && match path[0]
       case Key(name) =>
         if inReadModel then name !in STABLE_METADATA || Hidden(path[1..], false)
         else name in VOLATILE || Hidden(path[1..], name == READ_MODEL)
       case Index(_) => Hidden(path[1..], false)
  }

  lemma MetadataWith(fields: map<string, Json>, name: string, value: Json)
    ensures StableMetadata(JObject(fields[name := value])) ==
              if name in STABLE_METADATA
              then JObject(StableMetadata(JObject(fields)).fields[name := Stable(value)])
              else StableMetadata(JObject(fields))
  {
    var x := StableMetadata(JObject(fields[name := value])).fields;
    var y := StableMetadata(JObject(fields)).fields;
    if name in STABLE_METADATA {
      assert x == y[name := Stable(value)];
    } else {
      assert x == y;
    }
  }

  /** Metadata that differ in one field, and there not in the normal form. */
  lemma MetadataEditIsInvisible(fields: map<string, Json>, name: string, value: Json)
    requires name in STABLE_METADATA ==> name in fields && Stable(value) == Stable(fields[name])
    ensures StableMetadata(JObject(fields[name := value])) == StableMetadata(JObject(fields))
  {
    MetadataWith(fields, name, value);
    assert StableMetadata(JObject(fields)).JObject?;
    if name in STABLE_METADATA {
      var x := StableMetadata(JObject(fields)).fields;
      assert x[name := Stable(value)] == x;
    }
  }

  /** Writing anything at the end of a hidden path leaves the normal form alone. */
  lemma {:induction false} HiddenEditsAreInvisible(value: Json, path: seq<Hop>, new': Json)
    requires Hidden(path, false)
    ensures Stable(Put(value, path, new')) == Stable(value)
    decreases |path|, 0
  {
    var edited := Put(value, path, new');
    match path[0]
    case Key(name) =>
      if edited != value && value.JObject? {
        if name in VOLATILE {
        } else if name == READ_MODEL {
          HiddenMetadataEditsAreInvisible(value.fields[name], path[1..], new');
        } else {
          HiddenEditsAreInvisible(value.fields[name], path[1..], new');
        }
        assert Stable(edited).fields == Stable(value).fields;
      }
    case Index(i) =>
      if edited != value && value.JList? {
        HiddenEditsAreInvisible(value.items[i], path[1..], new');
        assert Stable(edited).items == Stable(value).items;
      }
  }

  lemma {:induction false} HiddenMetadataEditsAreInvisible(item: Json, path: seq<Hop>, new': Json)
    requires Hidden(path, true)
    ensures StableMetadata(Put(item, path, new')) == StableMetadata(item)
    decreases |path|, 1
  {
    if path[0].Key? && item.JObject? {
      var name := path[0].name;
      if name in item.fields {
        if name in STABLE_METADATA {
          HiddenEditsAreInvisible(item.fields[name], path[1..], new');
        }
        MetadataEditIsInvisible(item.fields, name, Put(item.fields[name], path[1..], new'));
      } else if |path| == 1 {
        MetadataEditIsInvisible(item.fields, name, new');
      }
    }
  }
}
