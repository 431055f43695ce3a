// The two walks over struct declarations in spec_test.go, each flattening
// embedded structs its own way, and exactly when they agree.
module Embedding {
  import opened GoEncoding

  datatype StructDecl = StructDecl(fields: seq<Field>, embeds: seq<string>)

  type Table = map<string, StructDecl>

  function OwnNames(fields: seq<Field>): seq<string>
  {
    if fields == [] then []
    else (if fields[0].NamedByTag() then [fields[0].tag.name] else []) + OwnNames(fields[1..])
  }

  // The first walk, parseStructs, keeps every struct; the second,
  // parseStructFieldTypes, only structs with a JSON name of their own.
  datatype Walk = EveryStruct | TaggedStructs

  // A struct with a JSON name of its own.
  predicate HasNames(t: Table, name: string)
  {
    name in t && OwnNames(t[name].fields) != []
  }

  predicate Knows(t: Table, w: Walk, name: string)
  {
    name in t && (w.TaggedStructs? ==> HasNames(t, name))
  }

  // Embedding deeper than eight levels is reported as a cycle.
  datatype Expansion = Cycle | Names(names: seq<string>)

  function Expand(t: Table, w: Walk, name: string, depth: nat): Expansion
    requires name in t
    decreases 9 - depth, |t[name].embeds| + 1
  {
    if depth > 8 then Cycle
    else
      match ExpandEmbeds(t, w, t[name].embeds, depth)
      case Cycle => Cycle
      case Names(rest) => Names(OwnNames(t[name].fields) + rest)
  }

  function ExpandEmbeds(t: Table, w: Walk, embeds: seq<string>, depth: nat): Expansion
    requires depth <= 8
    decreases 9 - depth, |embeds|
  {
    if embeds == [] then Names([])
    else
      match ExpandEmbeds(t, w, embeds[1..], depth)
      case Cycle => Cycle
      case Names(rest) =>
        if !Knows(t, w, embeds[0]) then Names(rest)
        else
          match Expand(t, w, embeds[0], depth + 1)
          case Cycle => Cycle
          case Names(first) => Names(first + rest)
  }

  datatype Entry = Missing | Flattened(expansion: Expansion)

  // What a walk has to say about a struct.
  function Flatten(t: Table, w: Walk, name: string): Entry
  {
    if Knows(t, w, name) then Flattened(Expand(t, w, name, 0)) else Missing
  }

  // ----- Paths of embeds -----

  // A declared struct, one it embeds, one that embeds, and so on.
  predicate IsPath(t: Table, p: seq<string>)
  {
    && p != []
    && (forall i :: 0 <= i < |p| ==> p[i] in t)
    && (forall i :: 0 <= i < |p| - 1 ==> p[i + 1] in t[p[i]].embeds)
  }

  // A path to a struct with JSON names.
  predicate LeadsToNames(t: Table, p: seq<string>)
  {
    IsPath(t, p) && HasNames(t, p[|p| - 1])
  }

  // One that comes through a struct without any.
  ghost predicate Lossy(t: Table, p: seq<string>)
  {
    LeadsToNames(t, p) && exists i :: 0 <= i < |p| && !HasNames(t, p[i])
  }

  ghost predicate ReachesNames(t: Table, name: string)
  {
    exists p :: LeadsToNames(t, p) && p[0] == name
  }

  ghost predicate ReachesLossily(t: Table, name: string)
  {
    exists p :: Lossy(t, p) && p[0] == name
  }

  ghost predicate SomeReachNames(t: Table, embeds: seq<string>)
  {
    exists e :: e in embeds && ReachesNames(t, e)
  }

  ghost predicate SomeReachLossily(t: Table, embeds: seq<string>)
  {
    exists e :: e in embeds && ReachesLossily(t, e)
  }

  lemma {:induction false} PathTail(t: Table, p: seq<string>)
    requires IsPath(t, p) && |p| > 1
    ensures IsPath(t, p[1..]) && p[1] in t[p[0]].embeds
  {}

  lemma {:induction false} PathCons(t: Table, name: string, p: seq<string>)
    requires name in t && IsPath(t, p) && p[0] in t[name].embeds
    ensures IsPath(t, [name] + p)
  {}

  lemma {:induction false} ReachesNamesStep(t: Table, name: string)
    requires name in t
    ensures ReachesNames(t, name) <==> HasNames(t, name) || SomeReachNames(t, t[name].embeds)
  {
    if HasNames(t, name) {
      assert LeadsToNames(t, [name]);
    }
    if e :| e in t[name].embeds && ReachesNames(t, e) {
      var p :| LeadsToNames(t, p) && p[0] == e;
      PathCons(t, name, p);
      assert LeadsToNames(t, [name] + p);
    }
    if p :| LeadsToNames(t, p) && p[0] == name && |p| > 1 {
      PathTail(t, p);
      assert LeadsToNames(t, p[1..]);
      assert ReachesNames(t, p[1]);
    }
  }

  // Through a struct without names every name is lost; through one with names
  // what its embeds lose.
  lemma {:induction false} NamelessReaches(t: Table, name: string)
    requires name in t && !HasNames(t, name)
    ensures ReachesLossily(t, name) <==> ReachesNames(t, name)
  {
    if p :| LeadsToNames(t, p) && p[0] == name {
      assert Lossy(t, p);
    }
  }

  lemma {:induction false} NamedReaches(t: Table, name: string)
    requires HasNames(t, name)
    ensures ReachesLossily(t, name) <==> SomeReachLossily(t, t[name].embeds)
  {
    if e :| e in t[name].embeds && ReachesLossily(t, e) {
      var p :| Lossy(t, p) && p[0] == e;
      LossyCons(t, name, p);
    }
    if p :| Lossy(t, p) && p[0] == name {
      LossyTail(t, p);
      assert ReachesLossily(t, p[1]);
    }
  }

  lemma {:induction false} LossyCons(t: Table, name: string, p: seq<string>)
    requires name in t && Lossy(t, p) && p[0] in t[name].embeds
    ensures Lossy(t, [name] + p)
  {
    var i :| 0 <= i < |p| && !HasNames(t, p[i]);
    PathCons(t, name, p);
    assert !HasNames(t, ([name] + p)[i + 1]);
  }

  lemma {:induction false} LossyTail(t: Table, p: seq<string>)
    requires Lossy(t, p) && HasNames(t, p[0])
    ensures |p| > 1 && p[1] in t[p[0]].embeds && Lossy(t, p[1..])
  {
    var i :| 0 <= i < |p| && !HasNames(t, p[i]);
    PathTail(t, p);
    assert !HasNames(t, p[1..][i - 1]);
  }

  // ----- Both walks against the paths -----

  // The first walk finds nothing exactly where no path leads to a name.
  lemma {:induction false} ExpandFindsNames(t: Table, name: string, depth: nat)
    requires name in t && Expand(t, EveryStruct, name, depth).Names?
    ensures Expand(t, EveryStruct, name, depth).names != [] <==> ReachesNames(t, name)
    decreases 9 - depth, |t[name].embeds| + 1
  {
    EmbedsFindNames(t, t[name].embeds, depth);
    ReachesNamesStep(t, name);
  }

  lemma {:induction false} EmbedsFindNames(t: Table, embeds: seq<string>, depth: nat)
    requires depth <= 8 && ExpandEmbeds(t, EveryStruct, embeds, depth).Names?
    ensures ExpandEmbeds(t, EveryStruct, embeds, depth).names != [] <==> SomeReachNames(t, embeds)
    decreases 9 - depth, |embeds|
  {
    if embeds != [] {
      EmbedsFindNames(t, embeds[1..], depth);
      if embeds[0] in t {
        ExpandFindsNames(t, embeds[0], depth + 1);
      } else {
        assert !ReachesNames(t, embeds[0]);
      }
      assert forall e :: e in embeds <==> e == embeds[0] || e in embeds[1..];
    }
  }

  // The second walk finds no more than the first, and less exactly where some
  // name is lost.
  ghost predicate Compared(every: Expansion, tagged: Expansion, loses: bool)
  {
    && every.Names? && tagged.Names?
    && (if loses then |tagged.names| < |every.names| else tagged == every)
  }

  lemma {:induction false} WalksCompare(t: Table, name: string, depth: nat)
    requires name in t && Expand(t, EveryStruct, name, depth).Names?
    ensures Compared(Expand(t, EveryStruct, name, depth), Expand(t, TaggedStructs, name, depth),
                     SomeReachLossily(t, t[name].embeds))
    decreases 9 - depth, |t[name].embeds| + 1
  {
    EmbedsCompare(t, t[name].embeds, depth);
  }

  lemma {:induction false} EmbedsCompare(t: Table, embeds: seq<string>, depth: nat)
    requires depth <= 8 && ExpandEmbeds(t, EveryStruct, embeds, depth).Names?
    ensures Compared(ExpandEmbeds(t, EveryStruct, embeds, depth), ExpandEmbeds(t, TaggedStructs, embeds, depth),
                     SomeReachLossily(t, embeds))
    decreases 9 - depth, |embeds|
  {
    if embeds != [] {
      EmbedsCompare(t, embeds[1..], depth);
      assert forall e :: e in embeds <==> e == embeds[0] || e in embeds[1..];
      if embeds[0] in t {
        if HasNames(t, embeds[0]) {
          NamedReaches(t, embeds[0]);
          WalksCompare(t, embeds[0], depth + 1);
        } else {
          NamelessReaches(t, embeds[0]);
          ExpandFindsNames(t, embeds[0], depth + 1);
        }
      } else {
        assert !ReachesLossily(t, embeds[0]);
      }
    }
  }

  // For a struct the first walk can flatten, the walks agree exactly when it has
  // a JSON name of its own and no path of embeds from it reaches a struct with
  // JSON names through one without any.
  lemma {:induction false} WalksAgreeExactly(t: Table, name: string)
    requires name in t && Expand(t, EveryStruct, name, 0).Names?
    ensures Flatten(t, TaggedStructs, name) == Flatten(t, EveryStruct, name) <==>
            && HasNames(t, name)
            && forall p :: LeadsToNames(t, p) && p[0] == name ==> forall i :: 0 <= i < |p| ==> HasNames(t, p[i])
  {
    WalksCompare(t, name, 0);
    if HasNames(t, name) {
      NamedReaches(t, name);
    }
    if ReachesLossily(t, name) {
      var p :| Lossy(t, p) && p[0] == name;
    } else {
      forall p | LeadsToNames(t, p) && p[0] == name
        ensures forall i :: 0 <= i < |p| ==> HasNames(t, p[i])
      {
        assert !Lossy(t, p);
      }
    }
  }

  // The struct and everything it embeds, however far down, have JSON names of
  // their own.
  ghost predicate TaggedThroughout(t: Table, name: string)
  {
    forall p :: IsPath(t, p) && p[0] == name ==> HasNames(t, p[|p| - 1])
  }

  // In particular the walks agree on such a struct, whatever else the table holds.
  lemma {:induction false} TaggedStructsAgree(t: Table, name: string)
    requires TaggedThroughout(t, name) && name in t && Expand(t, EveryStruct, name, 0).Names?
    ensures Flatten(t, TaggedStructs, name) == Flatten(t, EveryStruct, name)
  {
    assert IsPath(t, [name]);
    forall p, i | LeadsToNames(t, p) && p[0] == name && 0 <= i < |p|
      ensures HasNames(t, p[i])
    {
      var q := p[..i + 1];
      assert IsPath(t, q) && q[|q| - 1] == p[i];
    }
    WalksAgreeExactly(t, name);
  }

  // The first walk flattens a struct, rather than reporting a cycle, exactly
  // when no path from it has more than nine structs.
  lemma {:induction false} FlattensExactly(t: Table, name: string)
    requires name in t
    ensures Expand(t, EveryStruct, name, 0).Names? <==> forall p :: IsPath(t, p) && p[0] == name ==> |p| <= 9
  {
    if Expand(t, EveryStruct, name, 0).Names? {
      forall p | IsPath(t, p) && p[0] == name
        ensures |p| <= 9
      {
        PathsAreShort(t, p, 0);
      }
    } else {
      var p := LongPath(t, name, 0);
    }
  }

  lemma {:induction false} PathsAreShort(t: Table, p: seq<string>, depth: nat)
    requires IsPath(t, p) && Expand(t, EveryStruct, p[0], depth).Names?
    ensures depth + |p| <= 9
    decreases |p|
  {
    if |p| > 1 {
      PathTail(t, p);
      EmbedExpands(t, t[p[0]].embeds, p[1], depth);
      PathsAreShort(t, p[1..], depth + 1);
    }
  }

  lemma {:induction false} EmbedExpands(t: Table, embeds: seq<string>, e: string, depth: nat)
    requires depth <= 8 && ExpandEmbeds(t, EveryStruct, embeds, depth).Names? && e in embeds && e in t
    ensures Expand(t, EveryStruct, e, depth + 1).Names?
    decreases |embeds|
  {
    if e != embeds[0] {
      EmbedExpands(t, embeds[1..], e, depth);
    }
  }

  lemma {:induction false} LongPath(t: Table, name: string, depth: nat) returns (p: seq<string>)
    requires depth <= 9 && name in t && Expand(t, EveryStruct, name, depth).Cycle?
    ensures IsPath(t, p) && p[0] == name && depth + |p| == 10
    decreases 9 - depth
  {
    p := [name];
    if depth <= 8 {
      var e := CyclicEmbed(t, t[name].embeds, depth);
      var rest := LongPath(t, e, depth + 1);
      PathCons(t, name, rest);
      p := [name] + rest;
    }
  }

  lemma {:induction false} CyclicEmbed(t: Table, embeds: seq<string>, depth: nat) returns (e: string)
    requires depth <= 8 && ExpandEmbeds(t, EveryStruct, embeds, depth).Cycle?
    ensures e in embeds && e in t && Expand(t, EveryStruct, e, depth + 1).Cycle?
    decreases |embeds|
  {
    if ExpandEmbeds(t, EveryStruct, embeds[1..], depth).Cycle? {
      e := CyclicEmbed(t, embeds[1..], depth);
    } else {
      e := embeds[0];
    }
  }

  // A wrapper that only embeds - EmailOTPAuthProvider around AuthProvider - is
  // flattened by the first walk and missing from the second, whatever else the
  // table holds.
  lemma {:induction false} TaglessWrapperIsMissed(t: Table, wrapper: string, base: string)
    requires wrapper in t && base in t
    requires t[wrapper] == StructDecl([], [base])
    requires t[base].embeds == [] && OwnNames(t[base].fields) != []
    ensures Flatten(t, EveryStruct, wrapper) == Flattened(Names(OwnNames(t[base].fields)))
    ensures Flatten(t, TaggedStructs, wrapper) == Missing
  {
    var names := OwnNames(t[base].fields);
    assert names + [] == names && [] + names == names;
    assert Expand(t, EveryStruct, base, 1) == Names(names) by {
      assert ExpandEmbeds(t, EveryStruct, [], 1) == Names([]);
    }
    assert ExpandEmbeds(t, EveryStruct, [base], 0) == Names(names) by {
      assert [base][1..] == [];
      assert ExpandEmbeds(t, EveryStruct, [], 0) == Names([]);
    }
    assert OwnNames([]) == [];
  }

  // ----- What a flattening lists -----

  // A path of embeds, all known to the walk, to a struct with a field of this tag.
  ghost predicate Finds(t: Table, w: Walk, p: seq<string>, json: string)
  {
    && IsPath(t, p)
    && (forall i :: 0 < i < |p| ==> Knows(t, w, p[i]))
    && Declares(t[p[|p| - 1]].fields, json)
  }

  // Some field is tagged with this JSON name.
  predicate Declares(fields: seq<Field>, json: string)
  {
    exists k :: 0 <= k < |fields| && fields[k].NamedByTag() && fields[k].tag.name == json
  }

  lemma {:induction false} OwnNamesExactly(fields: seq<Field>, json: string)
    ensures json in OwnNames(fields) <==> Declares(fields, json)
  {
    if fields != [] {
      OwnNamesExactly(fields[1..], json);
      if k :| 0 <= k < |fields| && fields[k].NamedByTag() && fields[k].tag.name == json {
        assert k > 0 ==> fields[1..][k - 1] == fields[k];
      }
    }
  }

  // A walk lists a JSON name for a struct exactly if some path of embeds it
  // follows leads to a field tagged with it.
  lemma {:induction false} FlatteningListsExactly(t: Table, w: Walk, name: string, depth: nat, json: string)
    requires name in t && Expand(t, w, name, depth).Names?
    ensures json in Expand(t, w, name, depth).names <==> exists p :: Finds(t, w, p, json) && p[0] == name
    decreases 9 - depth, |t[name].embeds| + 1
  {
    OwnNamesExactly(t[name].fields, json);
    EmbedsListExactly(t, w, t[name].embeds, depth, json);
    if json in OwnNames(t[name].fields) {
      assert Finds(t, w, [name], json);
    }
    if SomeFinds(t, w, t[name].embeds, json) {
      var p :| Finds(t, w, p, json) && p[0] in t[name].embeds && Knows(t, w, p[0]);
      PathCons(t, name, p);
      var q := [name] + p;
      assert q[|q| - 1] == p[|p| - 1];
      assert Finds(t, w, q, json);
    }
    if p :| Finds(t, w, p, json) && p[0] == name {
      if |p| > 1 {
        PathTail(t, p);
        assert Finds(t, w, p[1..], json);
      }
    }
  }

  ghost predicate SomeFinds(t: Table, w: Walk, embeds: seq<string>, json: string)
  {
    exists p :: Finds(t, w, p, json) && p[0] in embeds && Knows(t, w, p[0])
  }

  lemma {:induction false} EmbedsListExactly(t: Table, w: Walk, embeds: seq<string>, depth: nat, json: string)
    requires depth <= 8 && ExpandEmbeds(t, w, embeds, depth).Names?
    ensures json in ExpandEmbeds(t, w, embeds, depth).names <==> SomeFinds(t, w, embeds, json)
    decreases 9 - depth, |embeds|
  {
    if embeds != [] {
      EmbedsListExactly(t, w, embeds[1..], depth, json);
      if Knows(t, w, embeds[0]) {
        FlatteningListsExactly(t, w, embeds[0], depth + 1, json);
      }
      assert forall e :: e in embeds <==> e == embeds[0] || e in embeds[1..];
    }
  }
}
