// JSON values and JSON Merge Patch (section 2 of RFC 7396).
module Json {
  datatype Json =
    | Null
    | Bool(b: bool)
    | Num(n: int)
    | Str(s: string)
    | Arr(items: seq<Json>)
    | Obj(members: map<string, Json>)

  function Members(j: Json): map<string, Json>
  {
    if j.Obj? then j.members else map[]
  }

  function MergePatch(target: Json, patch: Json): Json
    decreases patch
  {
    if patch.Obj? then
      var t := Members(target);
      var p := patch.members;
      Obj(map k | k in t.Keys + p.Keys && !(k in p && p[k].Null?) ::
            if k in p then MergePatch(if k in t then t[k] else Null, p[k]) else t[k])
    else patch
  }

  // Applying a patch again changes nothing, however deep it goes.
  lemma {:induction false} MergeIdempotent(target: Json, patch: Json)
    ensures MergePatch(MergePatch(target, patch), patch) == MergePatch(target, patch)
    decreases patch
  {
    if patch.Obj? {
      var t, p := Members(target), patch.members;
      var once := MergePatch(target, patch);
      var twice := MergePatch(once, patch);
      assert once.members.Keys == twice.members.Keys;
      forall k | k in once.members
        ensures twice.members[k] == once.members[k]
      {
        if k in p {
          MergeIdempotent(if k in t then t[k] else Null, p[k]);
        }
      }
    }
  }

  // No member is itself an object.
  predicate Flat(m: map<string, Json>)
  {
    forall k :: k in m ==> !m[k].Obj?
  }

  // A flat patch names exactly what it changes: a named member is replaced, or
  // removed when null; every other member stays, and none appears.
  lemma {:induction false} FlatMerge(target: map<string, Json>, patch: map<string, Json>, k: string)
    requires Flat(patch)
    ensures var after := Members(MergePatch(Obj(target), Obj(patch)));
            if k !in patch then
              (k in after <==> k in target) && (k in target ==> after[k] == target[k])
            else if patch[k].Null? then k !in after
            else k in after && after[k] == patch[k]
  {}

  // Two patches in a row are one patch, the later one winning where both speak.
  lemma {:induction false} MergeCompose(target: Json, p: map<string, Json>, q: map<string, Json>)
    requires Flat(q)
    ensures MergePatch(MergePatch(target, Obj(p)), Obj(q)) == MergePatch(target, Obj(p + q))
  {
    var one := MergePatch(target, Obj(p));
    var two, both := MergePatch(one, Obj(q)), MergePatch(target, Obj(p + q));
    assert forall k :: k in two.members <==> k in both.members;
    assert two.members.Keys == both.members.Keys;
    forall k | k in two.members
      ensures two.members[k] == both.members[k]
    {
      if k in q {
        assert (p + q)[k] == q[k];
        assert MergePatch(if k in one.members then one.members[k] else Null, q[k]) == q[k];
        assert MergePatch(if k in Members(target) then Members(target)[k] else Null, q[k]) == q[k];
      } else if k in p {
        assert (p + q)[k] == p[k];
      }
    }
  }

  // Nested objects are merged, not replaced: what a nested patch does not name
  // stays, what it names with null goes, and an object takes any other place.
  lemma {:induction false} NestedMerge(
      target: map<string, Json>, inner: map<string, Json>, outer: string, patch: map<string, Json>, k: string)
    requires outer in target && target[outer] == Obj(inner) && Flat(patch)
    ensures var after := Members(MergePatch(Obj(target), Obj(map[outer := Obj(patch)])));
            && after.Keys == target.Keys
            && (forall o :: o in target && o != outer ==> after[o] == target[o])
            && after[outer].Obj?
            && var m := after[outer].members;
               if k !in patch then (k in m <==> k in inner) && (k in inner ==> m[k] == inner[k])
               else if patch[k].Null? then k !in m
               else k in m && m[k] == patch[k]
  {
    var one := map[outer := Obj(patch)];
    var after := Members(MergePatch(Obj(target), Obj(one)));
    assert one[outer] == Obj(patch) && !one[outer].Null?;
    assert after[outer] == MergePatch(Obj(inner), Obj(patch));
    FlatMerge(inner, patch, k);
  }
}
