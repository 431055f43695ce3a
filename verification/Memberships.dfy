// Group memberships (memberships.go): the bodies Patch and ReplaceAll send, the
// set semantics the endpoint documents, and concurrent callers.
module Memberships {
  import opened Json
  import opened GoEncoding

  type ID = string

  datatype Patch = Patch(add: seq<ID>, remove: seq<ID>)

  // Removals come before additions.
  function Applied(members: set<ID>, p: Patch): set<ID>
  {
    (members - Elems(p.remove)) + Elems(p.add)
  }

  function Elems(ids: seq<ID>): set<ID> { set id | id in ids }

  // After a patch an ID is a member exactly if it was added, or was one and not
  // removed; after a replacement exactly if it is listed.
  lemma {:induction false} AppliedExactly(members: set<ID>, p: Patch, ids: seq<ID>, id: ID)
    ensures id in Applied(members, p) <==> id in p.add || (id in members && id !in p.remove)
    ensures id in Replaced(ids) <==> id in ids
    ensures id in Touched(p) <==> id in p.add || id in p.remove
  {}

  function Touched(p: Patch): set<ID> { Elems(p.add) + Elems(p.remove) }

  function Replaced(ids: seq<ID>): set<ID> { Elems(ids) }

  // ----- On the wire -----

  // A Go slice argument; isNil tells a nil slice from an empty one.
  function SliceOf(ids: seq<ID>, isNil: bool): GoValue
  {
    if isNil && ids == [] then NilSlice else Elements(Texts(ids))
  }

  const PATCH_FIELDS: seq<Field> := [
    Field("Add", Slice(Named("string", Strings)), Tagged("add", true)),
    Field("Remove", Slice(Named("string", Strings)), Tagged("remove", true))]

  function PatchBody(p: Patch, nilAdd: bool, nilRemove: bool): map<string, Json>
  {
    EncodeStruct(PATCH_FIELDS, [SliceOf(p.add, nilAdd), SliceOf(p.remove, nilRemove)])
  }

  const ENTRY_FIELDS: seq<Field> := [Field("ActorID", Named("string", Strings), Tagged("actor_id", false))]

  method ReplaceBody(ids: seq<ID>) returns (body: Json)
    ensures body == Arr(EntriesJSON(ids))
  {
    var entries := new Json[|ids|];
    for i := 0 to |ids|
      invariant forall j :: 0 <= j < i ==> entries[j] == EntryJSON(ids[j])
    {
      entries[i] := EntryJSON(ids[i]);
    }
    assert entries[..] == EntriesJSON(ids);
    body := Arr(entries[..]);
  }

  function EntryJSON(id: ID): Json
  {
    Obj(EncodeStruct(ENTRY_FIELDS, [Text(id)]))
  }

  function EntriesJSON(ids: seq<ID>): (r: seq<Json>)
    ensures |r| == |ids| && forall i :: 0 <= i < |ids| ==> r[i] == EntryJSON(ids[i])
  {
    if ids == [] then [] else [EntryJSON(ids[0])] + EntriesJSON(ids[1..])
  }

  // The endpoint's reading of a list of IDs; a missing list is empty.
  function IDsIn(items: seq<Json>): seq<ID>
  {
    if items == [] then []
    else (if items[0].Str? then [items[0].s] else []) + IDsIn(items[1..])
  }

  function ReadList(body: map<string, Json>, k: string): seq<ID>
  {
    if k in body && body[k].Arr? then IDsIn(body[k].items) else []
  }

  function ReadPatch(body: map<string, Json>): Patch
  {
    Patch(ReadList(body, "add"), ReadList(body, "remove"))
  }

  function ReadEntries(items: seq<Json>): seq<ID>
  {
    if items == [] then []
    else
      var m := Members(items[0]);
      (if "actor_id" in m && m["actor_id"].Str? then [m["actor_id"].s] else []) + ReadEntries(items[1..])
  }

  lemma {:induction false} TextsRead(ids: seq<ID>)
    ensures IDsIn(MarshalAll(Texts(ids))) == ids
  {
    if ids != [] {
      TextsRead(ids[1..]);
      assert Texts(ids)[1..] == Texts(ids[1..]);
      assert MarshalAll(Texts(ids))[1..] == MarshalAll(Texts(ids[1..]));
    }
  }

  lemma {:induction false} SliceReads(ids: seq<ID>, isNil: bool, i: nat, values: seq<GoValue>)
    requires i < |PATCH_FIELDS| == |values| && values[i] == SliceOf(ids, isNil)
    ensures ReadList(EncodeStruct(PATCH_FIELDS, values), PATCH_FIELDS[i].tag.name) == ids
  {
    RegularField(PATCH_FIELDS, values, i);
    TextsRead(ids);
    assert Texts(ids) == [] <==> ids == [];
  }

  // Leaving out an empty list loses nothing: the endpoint reads back the patch.
  lemma {:induction false} PatchRoundTrip(p: Patch, nilAdd: bool, nilRemove: bool)
    ensures ReadPatch(PatchBody(p, nilAdd, nilRemove)) == p
  {
    var values := [SliceOf(p.add, nilAdd), SliceOf(p.remove, nilRemove)];
    SliceReads(p.add, nilAdd, 0, values);
    SliceReads(p.remove, nilRemove, 1, values);
  }

  // A replacement sends every ID, and no IDs as an empty list rather than null.
  lemma {:induction false} ReplaceRoundTrip(ids: seq<ID>)
    ensures ReadEntries(EntriesJSON(ids)) == ids
  {
    if ids != [] {
      ReplaceRoundTrip(ids[1..]);
      RegularField(ENTRY_FIELDS, [Text(ids[0])], 0);
      assert EntriesJSON(ids)[1..] == EntriesJSON(ids[1..]);
    }
  }

  // ----- Concurrent callers -----

  datatype Call = Call(caller: nat, patch: Patch)

  function Run(members: set<ID>, calls: seq<Call>): set<ID>
    decreases |calls|
  {
    if calls == [] then members else Run(Applied(members, calls[0].patch), calls[1..])
  }

  // The calls of one caller, in order.
  function Of(calls: seq<Call>, caller: nat): seq<Call>
  {
    if calls == [] then []
    else (if calls[0].caller == caller then [calls[0]] else []) + Of(calls[1..], caller)
  }

  // The calls that touch one ID, in order.
  function Touching(calls: seq<Call>, id: ID): seq<Call>
  {
    if calls == [] then []
    else (if id in Touched(calls[0].patch) then [calls[0]] else []) + Touching(calls[1..], id)
  }

  lemma {:induction false} OfElements(calls: seq<Call>, caller: nat, c: Call)
    ensures c in Of(calls, caller) <==> c in calls && c.caller == caller
  {
    if calls != [] {
      OfElements(calls[1..], caller, c);
    }
  }

  // Only the calls that touch an ID decide whether it ends up a member.
  lemma {:induction false} OnlyTouchingCounts(members: set<ID>, other: set<ID>, calls: seq<Call>, id: ID)
    requires id in members <==> id in other
    ensures id in Run(members, calls) <==> id in Run(other, Touching(calls, id))
    decreases |calls|
  {
    if calls != [] {
      var p := calls[0].patch;
      if id in Touched(p) {
        assert Touching(calls, id)[1..] == Touching(calls[1..], id);
        OnlyTouchingCounts(Applied(members, p), Applied(other, p), calls[1..], id);
      } else {
        assert id !in Elems(p.add) && id !in Elems(p.remove);
        assert Touching(calls, id) == Touching(calls[1..], id);
        OnlyTouchingCounts(Applied(members, p), other, calls[1..], id);
      }
    }
  }

  // Callers with nothing in common.
  predicate Disjoint(calls: seq<Call>)
  {
    forall i, j :: 0 <= i < |calls| && 0 <= j < |calls| && calls[i].caller != calls[j].caller ==>
      Touched(calls[i].patch) !! Touched(calls[j].patch)
  }

  lemma {:induction false} TouchingOneCaller(calls: seq<Call>, id: ID, caller: nat)
    requires forall c :: c in calls && id in Touched(c.patch) ==> c.caller == caller
    ensures Touching(calls, id) == Touching(Of(calls, caller), id)
  {
    if calls != [] {
      TouchingOneCaller(calls[1..], id, caller);
      if calls[0].caller == caller {
        assert Of(calls, caller)[1..] == Of(calls[1..], caller);
      } else {
        assert calls[0] in calls;
        assert Of(calls, caller) == Of(calls[1..], caller);
        assert Touching(calls, id) == Touching(calls[1..], id);
      }
    }
  }

  // b interleaves the same callers' calls as a, each caller's in its own order.
  ghost predicate SameCalls(a: seq<Call>, b: seq<Call>)
  {
    forall caller :: Of(a, caller) == Of(b, caller)
  }

  // Any two interleavings of callers that touch disjoint IDs end in one set.
  lemma {:induction false} InterleavingsConverge(members: set<ID>, a: seq<Call>, b: seq<Call>)
    requires Disjoint(a) && SameCalls(a, b)
    ensures Run(members, a) == Run(members, b)
  {
    forall id
      ensures id in Run(members, a) <==> id in Run(members, b)
    {
      SameTouching(a, b, id);
      OnlyTouchingCounts(members, members, a, id);
      OnlyTouchingCounts(members, members, b, id);
    }
  }

  lemma {:induction false} SameTouching(a: seq<Call>, b: seq<Call>, id: ID)
    requires Disjoint(a) && SameCalls(a, b)
    ensures Touching(a, id) == Touching(b, id)
  {
    var caller: nat := 0;
    if c :| c in a && id in Touched(c.patch) {
      caller := c.caller;
    }
    forall c | c in b
      ensures c in a
    {
      OfElements(b, c.caller, c);
      OfElements(a, c.caller, c);
      assert Of(a, c.caller) == Of(b, c.caller);
    }
    TouchingOneCaller(a, id, caller);
    TouchingOneCaller(b, id, caller);
    assert Of(a, caller) == Of(b, caller);
  }

  // Every caller's intent is kept: the IDs a caller touches end up as that
  // caller's calls alone would leave them.
  lemma {:induction false} IntentKept(members: set<ID>, calls: seq<Call>, caller: nat, id: ID)
    requires Disjoint(calls)
    requires exists c :: c in calls && c.caller == caller && id in Touched(c.patch)
    ensures id in Run(members, calls) <==> id in Run(members, Of(calls, caller))
  {
    TouchingOneCaller(calls, id, caller);
    OnlyTouchingCounts(members, members, calls, id);
    OnlyTouchingCounts(members, members, Of(calls, caller), id);
  }

  // An ID is a member in the end exactly if the last call touching it adds it,
  // or nobody touches it and it was a member before.
  lemma {:induction false} LastCallDecides(members: set<ID>, calls: seq<Call>, id: ID)
    ensures var t := Touching(calls, id);
            id in Run(members, calls) <==>
              if t == [] then id in members else id in Elems(t[|t| - 1].patch.add)
    decreases |calls|
  {
    if calls != [] {
      LastCallDecides(Applied(members, calls[0].patch), calls[1..], id);
      var t := Touching(calls[1..], id);
      if id in Touched(calls[0].patch) {
        assert Touching(calls, id) == [calls[0]] + t;
      }
    }
  }

  lemma {:induction false} TouchingAppend(a: seq<Call>, b: seq<Call>, id: ID)
    ensures Touching(a + b, id) == Touching(a, id) + Touching(b, id)
  {
    if a == [] {
      assert a + b == b;
    } else {
      assert (a + b)[1..] == a[1..] + b;
      TouchingAppend(a[1..], b, id);
    }
  }

  // A patch that may already have been applied is safe to send again, also
  // after other callers' patches of other IDs.
  lemma {:induction false} RedeliveryHarmless(members: set<ID>, p: Call, others: seq<Call>)
    requires forall c :: c in others ==> Touched(c.patch) !! Touched(p.patch)
    ensures Run(members, [p] + others + [p]) == Run(members, [p] + others)
  {
    forall id
      ensures id in Run(members, [p] + others + [p]) <==> id in Run(members, [p] + others)
    {
      TouchingAppend([p] + others, [p], id);
      TouchingAppend([p], others, id);
      LastCallDecides(members, [p] + others + [p], id);
      LastCallDecides(members, [p] + others, id);
      TouchingSingle(p, id);
      if id in Touched(p.patch) {
        NoneTouching(others, id);
      }
    }
  }

  lemma {:induction false} TouchingSingle(p: Call, id: ID)
    ensures Touching([p], id) == if id in Touched(p.patch) then [p] else []
  {
    assert [p][1..] == [];
  }

  lemma {:induction false} NoneTouching(calls: seq<Call>, id: ID)
    requires forall c :: c in calls ==> id !in Touched(c.patch)
    ensures Touching(calls, id) == []
  {
    if calls != [] {
      NoneTouching(calls[1..], id);
    }
  }

  datatype Write = Patched(patch: Patch) | Overwritten(ids: seq<ID>)

  function Written(members: set<ID>, w: Write): set<ID>
  {
    match w
    case Patched(p) => Applied(members, p)
    case Overwritten(ids) => Replaced(ids)
  }

  function RunWrites(members: set<ID>, ws: seq<Write>): set<ID>
    decreases |ws|
  {
    if ws == [] then members else RunWrites(Written(members, ws[0]), ws[1..])
  }

  // A replacement determines the result alone: whatever the members were and
  // whatever was written before it leaves no trace - which is why it is no
  // choice for callers that share a group.
  lemma {:induction false} ReplaceAllDetermines(members: set<ID>, before: seq<Write>, ids: seq<ID>, after: seq<Write>)
    ensures RunWrites(members, before + [Overwritten(ids)] + after) == RunWrites(Elems(ids), after)
    decreases |before|
  {
    var all := before + [Overwritten(ids)] + after;
    if before == [] {
      assert all[1..] == after;
    } else {
      assert all[1..] == before[1..] + [Overwritten(ids)] + after;
      ReplaceAllDetermines(Written(members, before[0]), before[1..], ids, after);
    }
  }
}
