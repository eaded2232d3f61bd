/**
 * The field lists the serializers expose. `RecipeDetailSerializer` inherits
 * `RecipeSerializer`'s options and appends "description" to its field list.
 */
module SerializerFields {

  /** `TagSerializer.Meta.fields` and its read-only part. */
  const TagFields: seq<string> := ["id", "name"]
  const TagReadOnlyFields: seq<string> := ["id"]

  /** `RecipeSerializer.Meta.fields` and its read-only part. */
  const RecipeFields: seq<string> := ["id", "title", "time_minutes", "price", "tags"]
  const RecipeReadOnlyFields: seq<string> := ["id"]

  /** The field list of a view that extends a base view with extra fields. */
  function Extend(base: seq<string>, extra: seq<string>): (r: seq<string>)
    ensures |r| == |base| + |extra|
    ensures r[..|base|] == base && r[|base|..] == extra
  {
    base + extra
  }

  /** `RecipeDetailSerializer.Meta.fields`. */
  function RecipeDetailFields(): (r: seq<string>)
    ensures |r| == |RecipeFields| + 1
    ensures r[..|RecipeFields|] == RecipeFields && r[|RecipeFields|] == "description"
  {
    Extend(RecipeFields, ["description"])
  }

  /** No name occurs twice. */
  predicate NoDuplicates(fields: seq<string>)
  {
    forall i, j :: 0 <= i < j < |fields| ==> fields[i] != fields[j]
  }

  /** The fields accepted on input: those not declared read-only, in order. */
  function Writable(fields: seq<string>, readOnly: seq<string>): (r: seq<string>)
    ensures forall f :: f in r <==> f in fields && f !in readOnly
    ensures |r| <= |fields|
    decreases |fields|
  {
    if fields == [] then []
    else if fields[0] in readOnly then Writable(fields[1..], readOnly)
    else [fields[0]] + Writable(fields[1..], readOnly)
  }

  /**
   * The detail view shows every field of the list view, in the same order,
   * followed by exactly one new field, "description"; and it still has no
   * repeated names.
   */
  lemma DetailExtendsList()
    ensures RecipeDetailFields()[..|RecipeFields|] == RecipeFields
    ensures forall f :: f in RecipeDetailFields() <==> f in RecipeFields || f == "description"
    ensures "description" !in RecipeFields
    ensures NoDuplicates(RecipeFields) && NoDuplicates(RecipeDetailFields())
  {
    var d := RecipeDetailFields();
    assert d == ["id", "title", "time_minutes", "price", "tags", "description"];
  }

  /**
   * The tag serializer's lists: no field is listed twice and the read-only
   * field is one of the listed fields.
   */
  lemma TagMeta()
    ensures NoDuplicates(TagFields)
    ensures forall f :: f in TagReadOnlyFields ==> f in TagFields
    ensures "id" in TagReadOnlyFields && "name" in TagFields && "name" !in TagReadOnlyFields
  {
  }

  /**
   * The recipe serializer's lists: no field is listed twice, the read-only
   * field is one of the listed fields, and "description" is not listed.
   */
  lemma RecipeMeta()
    ensures NoDuplicates(RecipeFields)
    ensures forall f :: f in RecipeReadOnlyFields ==> f in RecipeFields
    ensures "tags" in RecipeFields && "description" !in RecipeFields
  {
  }

  /** Filtering read-only fields distributes over concatenation. */
  lemma {:induction false} WritableAppend(a: seq<string>, b: seq<string>, readOnly: seq<string>)
    ensures Writable(a + b, readOnly) == Writable(a, readOnly) + Writable(b, readOnly)
    decreases |a|
  {
    if a == [] {
      assert a + b == b;
    } else {
      assert (a + b)[0] == a[0] && (a + b)[1..] == a[1..] + b;
      WritableAppend(a[1..], b, readOnly);
    }
  }

  /** A list none of whose fields is read-only is accepted whole. */
  lemma {:induction false} WritableKeepsAll(fields: seq<string>, readOnly: seq<string>)
    requires forall i :: 0 <= i < |fields| ==> fields[i] !in readOnly
    ensures Writable(fields, readOnly) == fields
    decreases |fields|
  {
    if fields != [] {
      WritableKeepsAll(fields[1..], readOnly);
    }
  }

  /** On input a tag accepts only "name". */
  lemma TagWritable()
    ensures Writable(TagFields, TagReadOnlyFields) == ["name"]
  {
    assert TagFields[1..] == ["name"];
    assert ["name"][1..] == [];
  }

  /** On input a recipe accepts every listed field except "id". */
  lemma RecipeWritable()
    ensures Writable(RecipeFields, RecipeReadOnlyFields) == ["title", "time_minutes", "price", "tags"]
  {
    var rest := ["title", "time_minutes", "price", "tags"];
    assert RecipeFields == ["id"] + rest;
    WritableAppend(["id"], rest, RecipeReadOnlyFields);
    assert ["id"][1..] == [];
    WritableKeepsAll(rest, RecipeReadOnlyFields);
  }

  /**
   * The detail view keeps the list view's read-only fields, so on input it
   * accepts what the list view accepts followed by "description".
   */
  lemma DetailWritable()
    ensures Writable(RecipeDetailFields(), RecipeReadOnlyFields) ==
      Writable(RecipeFields, RecipeReadOnlyFields) + ["description"]
  {
    WritableAppend(RecipeFields, ["description"], RecipeReadOnlyFields);
    assert ["description"][1..] == [];
  }
}
