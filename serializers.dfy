/**
 * The write paths of the recipe serializer over an in-memory store holding
 * the tag table and the recipe table. The requesting user, which the
 * serializer reads from its request context, is an explicit parameter.
 */
module Serializers {
  import opened Wrappers
  import opened Models
  import opened TagTable

  class RecipeStore {
    /** The tag table; a tag's id is its position. */
    var tags: seq<Tag>
    /** The recipe table; a recipe's id is its position. */
    var recipes: seq<Recipe>

    /**
     * Ids are positions, no two tags share an (owner, name) pair, and every
     * tag a recipe refers to exists.
     */
    ghost predicate Valid()
      reads this
    {
      && IdsArePositions(tags)
      && UniqueKeys(tags)
      && (forall i :: 0 <= i < |recipes| ==> recipes[i].id == i)
      && (forall i, t :: 0 <= i < |recipes| && t in recipes[i].tags ==> t < |tags|)
    }

    /** Every tag attached to recipe `rid` is owned by `user`. */
    ghost predicate TagsOwnedBy(rid: RecipeId, user: UserId)
      reads this
      requires Valid() && rid < |recipes|
    {
      forall t :: t in recipes[rid].tags ==> tags[t].owner == user
    }

    /** An empty store. */
    constructor ()
      ensures Valid() && tags == [] && recipes == []
    {
      tags := [];
      recipes := [];
    }

    /**
     * `Tag.objects.get_or_create(user=user, **spec)`: the id of the row
     * matching (user, spec.name), inserted when there is none.
     */
    method GetOrCreateTag(user: UserId, spec: TagSpec) returns (id: TagId)
      requires Valid()
      modifies this`tags
      ensures Valid()
      ensures var got := GetOrCreate(old(tags), user, spec.name);
        tags == got.table && id == got.id
    {
      GetOrCreateKeepsIds(tags, user, spec.name);
      GetOrCreateKeepsUnique(tags, user, spec.name);
      match Lookup(tags, user, spec.name)
      case Some(i) =>
        id := i;
      case None =>
        id := |tags|;
        tags := tags + [Tag(id, user, spec.name)];
    }

    /**
     * `recipe.tags.add(tag)`: a set insertion, so adding a tag the recipe
     * already has changes nothing. No other recipe changes.
     */
    method AddTag(rid: RecipeId, id: TagId)
      requires Valid() && rid < |recipes| && id < |tags|
      modifies this`recipes
      ensures Valid()
      ensures recipes == old(recipes)[rid := old(recipes)[rid].(tags := old(recipes)[rid].tags + {id})]
      ensures id in old(recipes)[rid].tags ==> recipes == old(recipes)
    {
      var r := recipes[rid];
      if id in r.tags {
        assert r.(tags := r.tags + {id}) == r;
      }
      recipes := recipes[rid := r.(tags := r.tags + {id})];
    }

    /**
     * One turn of the loop in `_get_or_create_tags`: get or create the tag
     * `spec` names for `user`, then add it to recipe `rid`.
     */
    method AttachOne(user: UserId, spec: TagSpec, rid: RecipeId)
      requires Valid() && rid < |recipes|
      modifies this
      ensures Valid()
      ensures var got := GetOrCreate(old(tags), user, spec.name);
        tags == got.table &&
        recipes == old(recipes)[rid := old(recipes)[rid].(tags := old(recipes)[rid].tags + {got.id})]
    {
      var id := GetOrCreateTag(user, spec);
      AddTag(rid, id);
    }

    /**
     * `_get_or_create_tags`: one get-or-create per specification, in order,
     * each resulting tag added to recipe `rid`'s tag set. No other recipe
     * changes.
     */
    method GetOrCreateTags(user: UserId, specs: seq<TagSpec>, rid: RecipeId)
      requires Valid() && rid < |recipes|
      modifies this
      ensures Valid()
      ensures var res := Resolve(old(tags), user, specs);
        tags == res.table &&
        recipes == old(recipes)[rid := old(recipes)[rid].(tags := old(recipes)[rid].tags + res.ids)]
    {
      ghost var start := recipes[rid];
      ghost var done := Resolve(tags, user, []);
      var i := 0;
      while i < |specs|
        invariant 0 <= i <= |specs|
        invariant Valid() && |recipes| == |old(recipes)|
        invariant done == Resolve(old(tags), user, specs[..i])
        invariant tags == done.table
        invariant forall j :: 0 <= j < |recipes| && j != rid ==> recipes[j] == old(recipes)[j]
        invariant recipes[rid] == start.(tags := start.tags + done.ids)
      {
        ghost var got := GetOrCreate(tags, user, specs[i].name);
        ResolvePrefixStep(old(tags), user, specs, i);
        AttachOne(user, specs[i], rid);
        assert start.tags + done.ids + {got.id} == start.tags + (done.ids + {got.id});
        done := Resolution(got.table, done.ids + {got.id});
        i := i + 1;
      }
      assert specs[..i] == specs;
      assert recipes == old(recipes)[rid := start.(tags := start.tags + done.ids)];
    }

    /**
     * `create`: an absent `tags` key counts as an empty list; the recipe row
     * is inserted with the next free id and no tags, then the tags are
     * resolved for the requesting user and attached to it.
     */
    method Create(user: UserId, owner: UserId, fields: Scalars, tagsKey: Option<seq<TagSpec>>)
      returns (rid: RecipeId)
      requires Valid()
      modifies this
      ensures Valid()
      ensures var res := Resolve(old(tags), user, tagsKey.GetOr([]));
        rid == |old(recipes)| && tags == res.table &&
        recipes == old(recipes) + [Recipe(rid, owner, fields, res.ids)]
      ensures tagsKey.None? ==> tags == old(tags) && recipes[rid].tags == {}
      ensures old(tags) <= tags
      ensures user == owner ==> TagsOwnedBy(rid, user)
    {
      var specs := tagsKey.GetOr([]);
      rid := |recipes|;
      recipes := recipes + [Recipe(rid, owner, fields, {})];
      GetOrCreateTags(user, specs, rid);
      ghost var res := Resolve(old(tags), user, specs);
      assert {} + res.ids == res.ids;
      assert recipes == old(recipes) + [Recipe(rid, owner, fields, res.ids)];
      ResolveAttached(old(tags), user, specs);
    }

    /**
     * `update`: with the `tags` key present (even as an empty list) the
     * recipe's tag set is cleared and rebuilt from the list; with it absent
     * the tag set and the tag table are untouched. Every scalar field in the
     * payload is then assigned; the others, the owner and every other recipe
     * keep their values.
     */
    method Update(user: UserId, rid: RecipeId, patch: ScalarPatch, tagsKey: Option<seq<TagSpec>>)
      requires Valid() && rid < |recipes|
      modifies this
      ensures Valid()
      ensures |recipes| == |old(recipes)|
      ensures forall j :: 0 <= j < |recipes| && j != rid ==> recipes[j] == old(recipes[j])
      ensures recipes[rid].id == old(recipes[rid].id) && recipes[rid].owner == old(recipes[rid].owner)
      ensures recipes[rid].fields == ApplyPatch(old(recipes[rid].fields), patch)
      ensures tagsKey.None? ==> tags == old(tags) && recipes[rid].tags == old(recipes[rid].tags)
      ensures tagsKey.Some? ==>
        var res := Resolve(old(tags), user, tagsKey.value);
        tags == res.table && recipes[rid].tags == res.ids
      ensures tagsKey == Some([]) ==> tags == old(tags) && recipes[rid].tags == {}
      ensures old(tags) <= tags
      ensures user == recipes[rid].owner && (tagsKey.Some? || old(TagsOwnedBy(rid, user))) ==>
        TagsOwnedBy(rid, user)
    {
      match tagsKey {
        case Some(specs) =>
          recipes := recipes[rid := recipes[rid].(tags := {})];
          GetOrCreateTags(user, specs, rid);
          ResolveAttached(old(tags), user, specs);
        case None =>
      }
      var r := recipes[rid];
      recipes := recipes[rid := r.(fields := ApplyPatch(r.fields, patch))];
    }
  }
}
