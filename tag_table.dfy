/**
 * The tag table as a value and the get-or-create reconciliation that the
 * recipe serializer runs over it: `Lookup` is the `get` by (owner, name),
 * `GetOrCreate` one call of `get_or_create`, `Resolve` the whole loop over a
 * list of tag specifications. The stateful methods in module Serializers are
 * proved against these functions.
 */
module TagTable {
  import opened Wrappers
  import opened Models

  /** Tag `t` is the row `get_or_create(user=user, name=name)` looks for. */
  predicate Matches(t: Tag, user: UserId, name: string)
  {
    t.owner == user && t.name == name
  }

  /** Every tag's id is its position: ids are allocated on insert. */
  predicate IdsArePositions(tags: seq<Tag>)
  {
    forall i :: 0 <= i < |tags| ==> tags[i].id == i
  }

  /** No two rows share an (owner, name) pair. */
  predicate UniqueKeys(tags: seq<Tag>)
  {
    forall i, j :: 0 <= i < |tags| && 0 <= j < |tags| && i != j ==>
      !Matches(tags[j], tags[i].owner, tags[i].name)
  }

  /** Row `i` is the one and only row of the table matching (user, name). */
  predicate OnlyMatch(tags: seq<Tag>, i: int, user: UserId, name: string)
  {
    0 <= i < |tags| && Matches(tags[i], user, name) &&
    forall j :: 0 <= j < |tags| && Matches(tags[j], user, name) ==> j == i
  }

  /** The names in a list of tag specifications. */
  function Names(specs: seq<TagSpec>): (s: set<string>)
    decreases |specs|
  {
    if specs == [] then {} else Names(specs[..|specs| - 1]) + {specs[|specs| - 1].name}
  }

  /** The first row matching (user, name), if any. */
  function Lookup(tags: seq<Tag>, user: UserId, name: string): (r: Option<nat>)
    ensures r.Some? ==> r.value < |tags| && Matches(tags[r.value], user, name)
    ensures r.Some? ==> forall j :: 0 <= j < r.value ==> !Matches(tags[j], user, name)
    ensures r.None? <==> forall j :: 0 <= j < |tags| ==> !Matches(tags[j], user, name)
  {
    if tags == [] then None
    else
      match Lookup(tags[..|tags| - 1], user, name)
      case Some(i) => Some(i)
      case None => if Matches(tags[|tags| - 1], user, name) then Some(|tags| - 1) else None
  }

  /** What one `get_or_create` call yields: the table after it, the row, and whether it was inserted. */
  datatype Outcome = Outcome(table: seq<Tag>, id: TagId, created: bool)

  /**
   * One `get_or_create(user=user, name=name)`: reuse the matching row, or
   * append a new one whose id is the next free position.
   */
  function GetOrCreate(tags: seq<Tag>, user: UserId, name: string): (r: Outcome)
    ensures tags <= r.table
    ensures r.id < |r.table| && Matches(r.table[r.id], user, name)
    ensures r.created <==> forall j :: 0 <= j < |tags| ==> !Matches(tags[j], user, name)
    ensures |r.table| == if r.created then |tags| + 1 else |tags|
  {
    match Lookup(tags, user, name)
    case Some(i) =>
      Outcome(tags, i, false)
    case None =>
      Outcome(tags + [Tag(|tags|, user, name)], |tags|, true)
  }

  /** The table after a list of get-or-creates, and the ids they returned. */
  datatype Resolution = Resolution(table: seq<Tag>, ids: set<TagId>)

  /**
   * The tag loop of `_get_or_create_tags`: one get-or-create per
   * specification, in order, each id added to the set of ids to attach.
   */
  function Resolve(tags: seq<Tag>, user: UserId, specs: seq<TagSpec>): (r: Resolution)
    ensures tags <= r.table
    ensures forall id :: id in r.ids ==> id < |r.table|
    decreases |specs|
  {
    if specs == [] then Resolution(tags, {})
    else
      var prev := Resolve(tags, user, specs[..|specs| - 1]);
      var got := GetOrCreate(prev.table, user, specs[|specs| - 1].name);
      Resolution(got.table, prev.ids + {got.id})
  }

  /** `user` owns a tag called `name`. */
  predicate Owns(tags: seq<Tag>, user: UserId, name: string)
  {
    Lookup(tags, user, name).Some?
  }

  /** A name is in the list exactly when some specification carries it. */
  lemma {:induction false} NamesMember(specs: seq<TagSpec>, n: string)
    ensures n in Names(specs) <==> exists k :: 0 <= k < |specs| && specs[k].name == n
    decreases |specs|
  {
    if specs != [] {
      var init := specs[..|specs| - 1];
      NamesMember(init, n);
      if n in Names(init) {
        var k :| 0 <= k < |init| && init[k].name == n;
        assert specs[k] == init[k];
      }
      if exists k :: 0 <= k < |specs| && specs[k].name == n {
        var k :| 0 <= k < |specs| && specs[k].name == n;
        if k < |init| { assert init[k] == specs[k]; }
      }
    }
  }

  /** Looking up in a table with one more row at the end. */
  lemma LookupAppend(tags: seq<Tag>, t: Tag, user: UserId, name: string)
    ensures Lookup(tags + [t], user, name) ==
      if Lookup(tags, user, name).Some? then Lookup(tags, user, name)
      else if Matches(t, user, name) then Some(|tags|) else None
  {
    assert (tags + [t])[..|tags|] == tags;
  }

  /** One get-or-create gives `user` the name and gives nobody else anything. */
  lemma GetOrCreateOwns(tags: seq<Tag>, user: UserId, name: string)
    ensures var g := GetOrCreate(tags, user, name);
      forall v, n :: Owns(g.table, v, n) <==> Owns(tags, v, n) || (v == user && n == name)
  {
    var g := GetOrCreate(tags, user, name);
    if g.created {
      forall v, n ensures Owns(g.table, v, n) <==> Owns(tags, v, n) || (v == user && n == name) {
        LookupAppend(tags, Tag(|tags|, user, name), v, n);
      }
    }
  }

  /** A get-or-create keeps ids equal to positions. */
  lemma GetOrCreateKeepsIds(tags: seq<Tag>, user: UserId, name: string)
    requires IdsArePositions(tags)
    ensures IdsArePositions(GetOrCreate(tags, user, name).table)
  {
  }

  /** A get-or-create never introduces a second row for an (owner, name) pair. */
  lemma GetOrCreateKeepsUnique(tags: seq<Tag>, user: UserId, name: string)
    requires UniqueKeys(tags)
    ensures UniqueKeys(GetOrCreate(tags, user, name).table)
  {
  }

  /** Resolving keeps ids equal to positions. */
  lemma {:induction false} ResolveKeepsIds(tags: seq<Tag>, user: UserId, specs: seq<TagSpec>)
    requires IdsArePositions(tags)
    ensures IdsArePositions(Resolve(tags, user, specs).table)
    decreases |specs|
  {
    if specs != [] {
      var init := specs[..|specs| - 1];
      ResolveKeepsIds(tags, user, init);
      GetOrCreateKeepsIds(Resolve(tags, user, init).table, user, specs[|specs| - 1].name);
    }
  }

  /** Resolving keeps at most one row per (owner, name). */
  lemma {:induction false} ResolveKeepsUnique(tags: seq<Tag>, user: UserId, specs: seq<TagSpec>)
    requires UniqueKeys(tags)
    ensures UniqueKeys(Resolve(tags, user, specs).table)
    decreases |specs|
  {
    if specs != [] {
      var init := specs[..|specs| - 1];
      ResolveKeepsUnique(tags, user, init);
      GetOrCreateKeepsUnique(Resolve(tags, user, init).table, user, specs[|specs| - 1].name);
    }
  }

  /**
   * After resolving, `user` owns exactly the names it owned before plus the
   * names in the list, and every other owner owns what it owned before.
   */
  lemma {:induction false} ResolveOwns(tags: seq<Tag>, user: UserId, specs: seq<TagSpec>)
    ensures forall v, n :: Owns(Resolve(tags, user, specs).table, v, n) <==>
      Owns(tags, v, n) || (v == user && n in Names(specs))
    decreases |specs|
  {
    if specs != [] {
      var init := specs[..|specs| - 1];
      ResolveOwns(tags, user, init);
      GetOrCreateOwns(Resolve(tags, user, init).table, user, specs[|specs| - 1].name);
    }
  }

  /** Row `t` is one a resolution of `specs` for `user` over `tags` may insert. */
  predicate Inserted(t: Tag, tags: seq<Tag>, user: UserId, specs: seq<TagSpec>)
  {
    t.owner == user && t.name in Names(specs) && !Owns(tags, user, t.name)
  }

  /**
   * Every row a resolution inserts is owned by `user` and carries a name of
   * the list that `user` did not own before.
   */
  lemma {:induction false} ResolveInserted(tags: seq<Tag>, user: UserId, specs: seq<TagSpec>)
    ensures forall i :: |tags| <= i < |Resolve(tags, user, specs).table| ==>
      Inserted(Resolve(tags, user, specs).table[i], tags, user, specs)
    decreases |specs|
  {
    if specs != [] {
      var init := specs[..|specs| - 1];
      var last := specs[|specs| - 1].name;
      var prev := Resolve(tags, user, init);
      ResolveInserted(tags, user, init);
      var t := Resolve(tags, user, specs).table;
      assert Names(init) <= Names(specs);
      if GetOrCreate(prev.table, user, last).created {
        ResolveOwns(tags, user, init);
        assert !Owns(prev.table, user, last);
        assert t == prev.table + [Tag(|prev.table|, user, last)];
      }
      forall i | |tags| <= i < |t|
        ensures Inserted(t[i], tags, user, specs)
      {
        if i < |prev.table| {
          assert t[i] == prev.table[i];
        } else {
          assert t == prev.table + [Tag(|prev.table|, user, last)];
        }
      }
    }
  }

  /** The distinct names of the list that `user` did not own beforehand. */
  function NewNames(tags: seq<Tag>, user: UserId, specs: seq<TagSpec>): (s: set<string>)
  {
    set n | n in Names(specs) && !Owns(tags, user, n)
  }

  /** The new names of a list are those of all but its last entry, plus possibly the last one. */
  lemma NewNamesSnoc(tags: seq<Tag>, user: UserId, specs: seq<TagSpec>)
    requires specs != []
    ensures var init := specs[..|specs| - 1];
      var last := specs[|specs| - 1].name;
      NewNames(tags, user, specs) ==
        NewNames(tags, user, init) + (if last !in Names(init) && !Owns(tags, user, last) then {last} else {})
  {
  }

  /** A resolution inserts exactly one row per distinct name `user` did not own. */
  lemma {:induction false} ResolveCount(tags: seq<Tag>, user: UserId, specs: seq<TagSpec>)
    ensures |Resolve(tags, user, specs).table| == |tags| + |NewNames(tags, user, specs)|
    decreases |specs|
  {
    if specs == [] {
      assert NewNames(tags, user, specs) == {};
    } else {
      var init := specs[..|specs| - 1];
      var last := specs[|specs| - 1].name;
      var prev := Resolve(tags, user, init);
      ResolveCount(tags, user, init);
      ResolveOwns(tags, user, init);
      NewNamesSnoc(tags, user, specs);
      assert Owns(prev.table, user, last) <==> Owns(tags, user, last) || last in Names(init);
      assert last in NewNames(tags, user, init) ==> last in Names(init);
    }
  }

  /** Row `i` of `table` is owned by `user` and named by one of `specs`. */
  predicate Attachable(table: seq<Tag>, i: int, user: UserId, specs: seq<TagSpec>)
  {
    0 <= i < |table| && table[i].owner == user && table[i].name in Names(specs)
  }

  /**
   * The ids a resolution attaches are exactly the rows owned by `user` whose
   * name is in the list: never another owner's row, never a row the list
   * does not name.
   */
  lemma {:induction false} ResolveAttached(tags: seq<Tag>, user: UserId, specs: seq<TagSpec>)
    requires UniqueKeys(tags)
    ensures forall i :: i in Resolve(tags, user, specs).ids <==>
      Attachable(Resolve(tags, user, specs).table, i, user, specs)
    decreases |specs|
  {
    var r := Resolve(tags, user, specs);
    if specs != [] {
      var init := specs[..|specs| - 1];
      var last := specs[|specs| - 1].name;
      var prev := Resolve(tags, user, init);
      var got := GetOrCreate(prev.table, user, last);
      ResolveAttached(tags, user, init);
      ResolveKeepsUnique(tags, user, init);
      GetOrCreateKeepsUnique(prev.table, user, last);
      assert Names(init) <= Names(specs);
      forall i ensures i in r.ids <==> Attachable(r.table, i, user, specs) {
        if i in prev.ids {
          assert Attachable(prev.table, i, user, init);
          assert r.table[i] == prev.table[i];
        }
        if Attachable(r.table, i, user, specs) {
          if r.table[i].name == last {
            assert Matches(r.table[got.id], r.table[i].owner, r.table[i].name);
          } else if i < |prev.table| {
            assert r.table[i] == prev.table[i];
            assert Attachable(prev.table, i, user, init);
          }
        }
      }
    }
  }

  /**
   * After resolving, every specification names exactly one row of `user`'s,
   * the one `get` finds, and that row is attached.
   */
  lemma {:induction false} ResolveCovers(tags: seq<Tag>, user: UserId, specs: seq<TagSpec>)
    requires UniqueKeys(tags)
    ensures forall k :: 0 <= k < |specs| ==>
      Lookup(Resolve(tags, user, specs).table, user, specs[k].name).Some? &&
      OnlyMatch(Resolve(tags, user, specs).table,
                Lookup(Resolve(tags, user, specs).table, user, specs[k].name).value, user, specs[k].name) &&
      Lookup(Resolve(tags, user, specs).table, user, specs[k].name).value in Resolve(tags, user, specs).ids
  {
    var r := Resolve(tags, user, specs);
    ResolveOwns(tags, user, specs);
    ResolveAttached(tags, user, specs);
    ResolveKeepsUnique(tags, user, specs);
    forall k | 0 <= k < |specs|
      ensures Lookup(r.table, user, specs[k].name).Some?
      ensures OnlyMatch(r.table, Lookup(r.table, user, specs[k].name).value, user, specs[k].name)
      ensures Lookup(r.table, user, specs[k].name).value in r.ids
    {
      var n := specs[k].name;
      NamesMember(specs, n);
      assert Owns(r.table, user, n);
      var i := Lookup(r.table, user, n).value;
      assert Attachable(r.table, i, user, specs);
    }
  }

  /**
   * A name that already occurs in the list changes nothing when it occurs
   * again: no new row, and the attached set gains nothing.
   */
  lemma {:induction false} ResolveDuplicate(tags: seq<Tag>, user: UserId, specs: seq<TagSpec>, s: TagSpec)
    requires UniqueKeys(tags)
    requires s.name in Names(specs)
    ensures Resolve(tags, user, specs + [s]) == Resolve(tags, user, specs)
  {
    var more := specs + [s];
    assert more[..|more| - 1] == specs;
    var prev := Resolve(tags, user, specs);
    var got := GetOrCreate(prev.table, user, s.name);
    ResolveOwns(tags, user, specs);
    ResolveAttached(tags, user, specs);
    assert Owns(prev.table, user, s.name);
    assert got.table == prev.table;
    assert Attachable(prev.table, got.id, user, specs);
  }

  /**
   * Two owners resolving the same name get two distinct rows, each owned by
   * the one who asked for it.
   */
  lemma {:induction false} CrossOwnerDistinct(tags: seq<Tag>, u1: UserId, u2: UserId, name: string)
    requires UniqueKeys(tags)
    requires u1 != u2
    ensures var r1 := Resolve(tags, u1, [TagSpec(name)]);
      var r2 := Resolve(r1.table, u2, [TagSpec(name)]);
      forall a, b :: a in r1.ids && b in r2.ids ==>
        a != b && a < |r2.table| && b < |r2.table| &&
        r2.table[a].owner == u1 && r2.table[a].name == name &&
        r2.table[b].owner == u2 && r2.table[b].name == name
  {
    var specs := [TagSpec(name)];
    assert specs[..0] == [];
    assert Names(specs) == {name};
    var r1 := Resolve(tags, u1, specs);
    var r2 := Resolve(r1.table, u2, specs);
    ResolveAttached(tags, u1, specs);
    ResolveKeepsUnique(tags, u1, specs);
    ResolveAttached(r1.table, u2, specs);
    forall a, b | a in r1.ids && b in r2.ids
      ensures a != b && a < |r2.table| && b < |r2.table|
      ensures r2.table[a].owner == u1 && r2.table[a].name == name
      ensures r2.table[b].owner == u2 && r2.table[b].name == name
    {
      assert Attachable(r1.table, a, u1, specs);
      assert Attachable(r2.table, b, u2, specs);
      assert r2.table[a] == r1.table[a];
    }
  }

  /** Two tags named "Tag1" in one list on an empty table yield a single row. */
  lemma DuplicateNamesExample(user: UserId)
    ensures Resolve([], user, [TagSpec("Tag1"), TagSpec("Tag1")]) == Resolution([Tag(0, user, "Tag1")], {0})
  {
    var one := [TagSpec("Tag1")];
    assert one[..0] == [];
    assert Resolve([], user, one) == Resolution([Tag(0, user, "Tag1")], {0});
    assert Names(one) == {"Tag1"};
    ResolveDuplicate([], user, one, TagSpec("Tag1"));
  }

  /** Resolving one more specification of a list is one more get-or-create. */
  lemma ResolvePrefixStep(tags: seq<Tag>, user: UserId, specs: seq<TagSpec>, i: nat)
    requires i < |specs|
    ensures var prev := Resolve(tags, user, specs[..i]);
      var got := GetOrCreate(prev.table, user, specs[i].name);
      Resolve(tags, user, specs[..i + 1]) == Resolution(got.table, prev.ids + {got.id})
  {
    assert specs[..i + 1][..i] == specs[..i];
  }
}
