/**
 * The persisted entities the recipe serializers work on: users (by id),
 * tags, recipes, and the payload shapes the serializers receive.
 */
module Models {
  import opened Wrappers

  type UserId = nat
  type TagId = nat
  type RecipeId = nat

  /** A tag row: a short label owned by one user. */
  datatype Tag = Tag(id: TagId, owner: UserId, name: string)

  /** One element of the nested `tags` list on input: only `name` is writable. */
  datatype TagSpec = TagSpec(name: string)

  /**
   * The scalar columns of a recipe. `price` is a fixed-point decimal in the
   * source; here it is a whole number of cents.
   */
  datatype Scalars = Scalars(title: string, timeMinutes: int, price: int, description: string)

  /** A recipe row: its owner, its scalar columns and the ids of its tags. */
  datatype Recipe = Recipe(id: RecipeId, owner: UserId, fields: Scalars, tags: set<TagId>)

  /**
   * The scalar part of an update payload: a field is `Some` exactly when its
   * key is present in the validated data.
   */
  datatype ScalarPatch = ScalarPatch(
    title: Option<string>,
    timeMinutes: Option<int>,
    price: Option<int>,
    description: Option<string>)

  /** The names of the scalar columns an update may assign. */
  datatype Field = Title | TimeMinutes | Price | Description

  /** A scalar column's value, whatever its type. */
  datatype Value = Text(s: string) | Number(n: int)

  /** The value a record holds in column `f`. */
  function FieldOf(r: Scalars, f: Field): (v: Value)
  {
    match f
    case Title => Text(r.title)
    case TimeMinutes => Number(r.timeMinutes)
    case Price => Number(r.price)
    case Description => Text(r.description)
  }

  /** The value a patch carries for column `f`, if its key is present. */
  function PatchOf(p: ScalarPatch, f: Field): (v: Option<Value>)
  {
    match f
    case Title => if p.title.Some? then Some(Text(p.title.value)) else None
    case TimeMinutes => if p.timeMinutes.Some? then Some(Number(p.timeMinutes.value)) else None
    case Price => if p.price.Some? then Some(Number(p.price.value)) else None
    case Description => if p.description.Some? then Some(Text(p.description.value)) else None
  }

  /** The patch with no keys present. */
  const EmptyPatch := ScalarPatch(None, None, None, None)

  /**
   * Assigns every field present in the patch onto the record, one field at a
   * time by name, and keeps every other field.
   */
  function ApplyPatch(r: Scalars, p: ScalarPatch): (r': Scalars)
    ensures forall f: Field :: FieldOf(r', f) == PatchOf(p, f).GetOr(FieldOf(r, f))
  {
    Scalars(
      p.title.GetOr(r.title),
      p.timeMinutes.GetOr(r.timeMinutes),
      p.price.GetOr(r.price),
      p.description.GetOr(r.description))
  }

  /** Column values determine the record. */
  lemma {:induction false} FieldsDetermineRecord(a: Scalars, b: Scalars)
    requires forall f: Field :: FieldOf(a, f) == FieldOf(b, f)
    ensures a == b
  {
    assert FieldOf(a, Title) == FieldOf(b, Title);
    assert FieldOf(a, TimeMinutes) == FieldOf(b, TimeMinutes);
    assert FieldOf(a, Price) == FieldOf(b, Price);
    assert FieldOf(a, Description) == FieldOf(b, Description);
  }

  /** A payload with no scalar keys leaves the record as it was. */
  lemma EmptyPatchKeeps(r: Scalars)
    ensures ApplyPatch(r, EmptyPatch) == r
  {
    FieldsDetermineRecord(ApplyPatch(r, EmptyPatch), r);
  }

  /** Applying the same payload twice is the same as applying it once. */
  lemma ApplyPatchIdempotent(r: Scalars, p: ScalarPatch)
    ensures ApplyPatch(ApplyPatch(r, p), p) == ApplyPatch(r, p)
  {
    FieldsDetermineRecord(ApplyPatch(ApplyPatch(r, p), p), ApplyPatch(r, p));
  }
}
