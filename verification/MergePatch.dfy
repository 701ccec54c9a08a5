// The merge patch of RFC 7396.
module MergePatch {
  import opened Json

  function Members(j: Json): map<string, Json> {
    if j.Obj? then j.members else map[]
  }

  // The members of the result: those of the target that the patch does not name, and
  // those the patch names with something other than null.
  function Merge(target: Json, patch: Json): Json
    decreases patch
  {
    if !patch.Obj? then patch
    else
      Obj(map k | k in Members(target).Keys + patch.members.Keys && !(k in patch.members && patch.members[k].Null?) ::
            if k in patch.members then Merge(target.At(k), patch.members[k]) else target.At(k))
  }

  method Apply(target: Json, patch: Json) returns (result: Json)
    ensures result == Merge(target, patch)
    decreases patch
  {
    if !patch.Obj? {
      return patch;
    }
    var members := Members(target);
    var left := patch.members.Keys;
    while left != {}
      invariant left <= patch.members.Keys
      invariant forall k :: k !in patch.members || k in left ==>
        (k in members <==> k in Members(target)) && (k in members ==> members[k] == target.At(k))
      invariant forall k :: k in patch.members.Keys - left ==>
        (k in members <==> !patch.members[k].Null?) &&
            (k in members ==> members[k] == Merge(target.At(k), patch.members[k]))
      decreases left
    {
      var key :| key in left;
      left := left - {key};
      if patch.members[key].Null? {
        members := members - {key};
      } else {
        var merged := Apply(if key in members then members[key] else Null, patch.members[key]);
        members := members[key := merged];
      }
    }
    result := Obj(members);
    assert members == Merge(target, patch).members;
  }

  // ------------------------------------------------------------------
  // What one patch does, member by member

  lemma MergeMembers(target: Json, patch: Json, k: string)
    requires patch.Obj?
    ensures Merge(target, patch).Obj?
    // a member the patch does not name is kept
    ensures k !in patch.members ==>
      (Merge(target, patch).Has(k) <==> target.Has(k)) && Merge(target, patch).At(k) == target.At(k)
    // a member it names with null is gone
    ensures patch.Has(k) && patch.members[k].Null? ==> !Merge(target, patch).Has(k)
    // any other member it names is there, merged in turn
    ensures patch.Has(k) && !patch.members[k].Null? ==>
      Merge(target, patch).Has(k) && Merge(target, patch).At(k) == Merge(target.At(k), patch.members[k])
  {
  }

  lemma SameMembers(a: Json, b: Json)
    requires a.Obj? && b.Obj?
    requires forall k :: (a.Has(k) <==> b.Has(k)) && a.At(k) == b.At(k)
    ensures a == b
  {
    forall k: string
      ensures k in a.members <==> k in b.members
      ensures k in a.members ==> a.members[k] == b.members[k]
    {
      assert a.Has(k) <==> b.Has(k);
      assert a.At(k) == b.At(k);
    }
    assert a.members == b.members;
  }

  // Main result 1. Applying a patch twice is applying it once, at any depth.
  lemma {:induction false} MergeIsIdempotent(target: Json, patch: Json)
    ensures Merge(Merge(target, patch), patch) == Merge(target, patch)
    decreases patch
  {
    if patch.Obj? {
      var once := Merge(target, patch);
      var twice := Merge(once, patch);
      forall k: string
        ensures (twice.Has(k) <==> once.Has(k)) && twice.At(k) == once.At(k)
      {
        MergeMembers(target, patch, k);
        MergeMembers(once, patch, k);
        if patch.Has(k) {
          MergeIsIdempotent(target.At(k), patch.members[k]);
        }
      }
      SameMembers(twice, once);
    }
  }

  // No member is null, here or in any object reached through members.
  ghost predicate NullFree(j: Json)
    decreases j
  {
    j.Obj? ==> forall k :: k in j.members ==> !j.members[k].Null? && NullFree(j.members[k])
  }

  // Main result 2. A patch, whatever nulls it holds, never puts a null member into a
  // document that has none.
  lemma {:induction false} MergeKeepsNullFree(target: Json, patch: Json)
    requires NullFree(target)
    ensures NullFree(Merge(target, patch))
    decreases patch
  {
    if patch.Obj? {
      var merged := Merge(target, patch);
      forall k | k in merged.members
        ensures !merged.members[k].Null? && NullFree(merged.members[k])
      {
        MergeMembers(target, patch, k);
        assert merged.At(k) == merged.members[k];
        if patch.Has(k) {
          MergeKeepsNullFree(target.At(k), patch.members[k]);
          if !patch.members[k].Obj? {
            assert merged.members[k] == patch.members[k];
          }
        } else {
          assert target.Has(k);
        }
      }
    }
  }

  // No member is null anywhere, inside arrays neither.
  ghost predicate Deep(j: Json)
    decreases j
  {
    && (j.Obj? ==> forall k :: k in j.members ==> !j.members[k].Null? && Deep(j.members[k]))
    && (j.Arr? ==> forall i :: 0 <= i < |j.items| ==> Deep(j.items[i]))
  }

  // Whatever the patch puts in place whole, arrays in particular, has no null members;
  // its own nulls only erase.
  ghost predicate CleanLeaves(patch: Json)
    decreases patch
  {
    if patch.Obj? then forall k :: k in patch.members ==> patch.members[k].Null? || CleanLeaves(patch.members[k])
    else Deep(patch)
  }

  // Main result 3. Inside an array there is no such promise, because arrays are replaced
  // whole: a document without null members anywhere stays one exactly under the patches
  // with clean leaves.
  lemma {:induction false} MergeKeepsDeep(target: Json, patch: Json)
    requires Deep(target)
    ensures Deep(Merge(target, patch)) <==> CleanLeaves(patch)
    decreases patch
  {
    if patch.Obj? {
      var merged := Merge(target, patch);
      forall k | patch.Has(k) && !patch.members[k].Null?
        ensures k in merged.members && (Deep(merged.members[k]) <==> CleanLeaves(patch.members[k]))
      {
        MergeMembers(target, patch, k);
        MergeKeepsDeep(target.At(k), patch.members[k]);
      }
      if CleanLeaves(patch) {
        forall k | k in merged.members
          ensures !merged.members[k].Null? && Deep(merged.members[k])
        {
          MergedMember(target, patch, k);
        }
      } else {
        var k :| k in patch.members && !patch.members[k].Null? && !CleanLeaves(patch.members[k]);
        assert !Deep(merged.members[k]);
      }
    }
  }

  // A member of the result is a member of the target or merged from a member of the patch.
  lemma MergedMember(target: Json, patch: Json, k: string)
    requires patch.Obj? && k in Merge(target, patch).members
    ensures var m := Merge(target, patch).members[k];
      if patch.Has(k) then !patch.members[k].Null? && !m.Null? else target.Has(k) && m == target.members[k]
  {
    MergeMembers(target, patch, k);
  }

  // The smallest instance: an array that holds an object with a null member.
  lemma ArraysMayBringNulls()
    ensures
      var patch := Obj(map["a" := Arr([Obj(map["b" := Null])])]);
      Merge(Obj(map[]), patch) == patch && !Deep(patch) && !CleanLeaves(patch)
  {
    var inner := Obj(map["b" := Null]);
    var patch := Obj(map["a" := Arr([inner])]);
    var merged := Merge(Obj(map[]), patch);
    forall k: string
      ensures (merged.Has(k) <==> patch.Has(k)) && merged.At(k) == patch.At(k)
    {
      MergeMembers(Obj(map[]), patch, k);
    }
    SameMembers(merged, patch);
    assert "b" in inner.members && !Deep(inner);
    assert Arr([inner]).items[0] == inner;
    assert "a" in patch.members && !Deep(patch.members["a"]);
    MergeKeepsDeep(Obj(map[]), patch);
  }

  // The patch that turns one document into another.
  function Diff(a: Json, b: Json): Json
    decreases b
  {
    if !b.Obj? then b
    else
      Obj(map k | k in Members(a).Keys + b.members.Keys && !(a.Has(k) && b.Has(k) && a.At(k) == b.At(k)) ::
            if k in b.members then Diff(a.At(k), b.members[k]) else Null)
  }

  lemma DiffIsNullOnlyToRemove(a: Json, b: Json)
    ensures Diff(a, b).Null? <==> b.Null?
  {
  }

  // Main result 4. Every document without null members can be reached from every other
  // document by one patch.
  lemma {:induction false} SomePatchReaches(a: Json, b: Json)
    requires NullFree(b)
    ensures Merge(a, Diff(a, b)) == b
    decreases b
  {
    if b.Obj? {
      var patch := Diff(a, b);
      var merged := Merge(a, patch);
      forall k: string
        ensures (merged.Has(k) <==> b.Has(k)) && merged.At(k) == b.At(k)
      {
        MergeMembers(a, patch, k);
        if b.Has(k) {
          DiffIsNullOnlyToRemove(a.At(k), b.members[k]);
          SomePatchReaches(a.At(k), b.members[k]);
        }
      }
      SameMembers(merged, b);
    }
  }

  // The empty patch changes no object.
  lemma EmptyPatch(target: Json)
    requires target.Obj?
    ensures Merge(target, Obj(map[])) == target
  {
    forall k: string
      ensures (Merge(target, Obj(map[])).Has(k) <==> target.Has(k)) && Merge(target, Obj(map[])).At(k) == target.At(k)
    {
      MergeMembers(target, Obj(map[]), k);
    }
    SameMembers(Merge(target, Obj(map[])), target);
  }
}
