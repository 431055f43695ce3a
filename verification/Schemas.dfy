// The OpenAPI document as the conformance checks read it (spec_test.go):
// reference resolution, composed schemas and request bodies.
module Schemas {
  datatype SchemaRef = NoSchema | Schema(s: RawSchema)

  datatype RawSchema = RawSchema(
    ref: string,
    kind: string,
    nullable: bool,
    required: seq<string>,
    allOf: seq<SchemaRef>,
    items: SchemaRef,
    properties: map<string, SchemaRef>)

  datatype RawSpec = RawSpec(all: map<string, RawSchema>)

  const EMPTY: RawSchema := RawSchema("", "", false, [], [], NoSchema, map[])

  const REF_PREFIX: string := "#/components/schemas/"

  function TrimPrefix(s: string, prefix: string): string
  {
    if prefix <= s then s[|prefix|..] else s
  }

  // ----- resolve -----

  // A schema that refers nowhere: no reference, or one to an unknown name.
  predicate Settled(r: RawSpec, s: RawSchema)
  {
    s.ref == "" || TrimPrefix(s.ref, REF_PREFIX) !in r.all
  }

  function Target(r: RawSpec, s: RawSchema): RawSchema
    requires !Settled(r, s)
  {
    r.all[TrimPrefix(s.ref, REF_PREFIX)]
  }

  function Resolve(r: RawSpec, s: SchemaRef, depth: nat): RawSchema
    decreases 9 - depth
  {
    match s
    case NoSchema => EMPTY
    case Schema(s) =>
      if s.ref == "" || depth > 8 then s
      else if TrimPrefix(s.ref, REF_PREFIX) !in r.all then s
      else Resolve(r, Schema(Target(r, s)), depth + 1)
  }

  // Each schema of the chain but the last refers to the next.
  predicate IsChain(r: RawSpec, c: seq<RawSchema>)
  {
    && c != []
    && forall i :: 0 <= i < |c| - 1 ==> !Settled(r, c[i]) && c[i + 1] == Target(r, c[i])
  }

  // Nine references are followed and no more: a chain that settles by then
  // resolves to its end, and a longer or circular one to its tenth schema.
  lemma {:induction false} ResolveChain(r: RawSpec, c: seq<RawSchema>)
    requires IsChain(r, c)
    requires Settled(r, c[|c| - 1]) || |c| >= 10
    ensures Resolve(r, Schema(c[0]), 0) == if |c| <= 10 then c[|c| - 1] else c[9]
  {
    ResolveFrom(r, c, 0);
  }

  lemma {:induction false} ResolveFrom(r: RawSpec, c: seq<RawSchema>, depth: nat)
    requires IsChain(r, c) && depth <= 9
    requires Settled(r, c[|c| - 1]) || depth + |c| >= 10
    ensures Resolve(r, Schema(c[0]), depth) == if depth + |c| <= 10 then c[|c| - 1] else c[9 - depth]
    decreases 9 - depth
  {
    if depth <= 8 && |c| > 1 {
      assert c[1] == Target(r, c[0]);
      ResolveFrom(r, c[1..], depth + 1);
    }
  }

  // A resolved schema is settled exactly when some chain from it settles
  // within nine references.
  lemma {:induction false} ResolvesExactly(r: RawSpec, s: RawSchema)
    ensures Settled(r, Resolve(r, Schema(s), 0)) <==>
            exists c :: IsChain(r, c) && |c| <= 10 && c[0] == s && Settled(r, c[|c| - 1])
  {
    var c := Follow(r, s, 9);
    ResolveChain(r, c);
    if c' :| IsChain(r, c') && |c'| <= 10 && c'[0] == s && Settled(r, c'[|c'| - 1]) {
      ResolveChain(r, c');
    }
  }

  // The chain from s, cut after n references.
  lemma {:induction false} Follow(r: RawSpec, s: RawSchema, n: nat) returns (c: seq<RawSchema>)
    ensures IsChain(r, c) && c[0] == s
    ensures |c| <= n + 1 && (Settled(r, c[|c| - 1]) || |c| == n + 1)
    decreases n
  {
    c := [s];
    if n > 0 && !Settled(r, s) {
      var rest := Follow(r, Target(r, s), n - 1);
      c := [s] + rest;
    }
  }

  // A reference names a schema of the document behind the prefix for schemas.
  lemma {:induction false} ReferenceResolves(r: RawSpec, s: RawSchema, name: string)
    requires s.ref == "#/components/schemas/" + name
    ensures Settled(r, s) <==> name !in r.all
    ensures name !in r.all ==> Resolve(r, Schema(s), 0) == s
    ensures name in r.all ==> Target(r, s) == r.all[name]
    ensures name in r.all && r.all[name].ref == "" ==> Resolve(r, Schema(s), 0) == r.all[name]
  {
    assert s.ref != "" && REF_PREFIX <= s.ref && s.ref[|REF_PREFIX|..] == name;
  }

  // e is where references from v end: nine of them at most are followed.
  ghost predicate EndsAt(r: RawSpec, v: SchemaRef, e: RawSchema)
  {
    match v
    case NoSchema => e == RawSchema("", "", false, [], [], NoSchema, map[])
    case Schema(s) => exists c :: IsChainTo(r, c, s, e)
  }

  predicate IsChainTo(r: RawSpec, c: seq<RawSchema>, s: RawSchema, e: RawSchema)
  {
    IsChain(r, c) && c[0] == s && c[|c| - 1] == e && (|c| == 10 || (|c| < 10 && Settled(r, e)))
  }

  lemma {:induction false} EndsAtExactly(r: RawSpec, v: SchemaRef, e: RawSchema)
    ensures EndsAt(r, v, e) <==> e == Resolve(r, v, 0)
  {
    if v.Schema? {
      var c := Follow(r, v.s, 9);
      ResolveChain(r, c);
      assert IsChainTo(r, c, v.s, c[|c| - 1]);
      if d :| IsChainTo(r, d, v.s, e) {
        ResolveChain(r, d);
      }
    }
  }

  // ----- propertyNames -----

  function Branch(r: RawSpec, s: RawSchema, i: nat): RawSchema
    requires i < |s.allOf|
  {
    Resolve(r, s.allOf[i], 0)
  }

  // allOf nests at most n deep below s. On any other schema the recursion of
  // propertyNames has no bottom.
  predicate NestsWithin(r: RawSpec, s: RawSchema, n: nat)
    decreases n
  {
    forall i :: 0 <= i < |s.allOf| ==> n > 0 && NestsWithin(r, Branch(r, s, i), n - 1)
  }

  function PropertyNames(r: RawSpec, s: RawSchema, n: nat): set<string>
    requires NestsWithin(r, s, n)
    decreases n, |s.allOf| + 1
  {
    s.properties.Keys + BranchNames(r, s, n, |s.allOf|)
  }

  // The names the first k branches contribute.
  function BranchNames(r: RawSpec, s: RawSchema, n: nat, k: nat): set<string>
    requires NestsWithin(r, s, n) && k <= |s.allOf|
    decreases n, k
  {
    if k == 0 then {} else BranchNames(r, s, n, k - 1) + PropertyNames(r, Branch(r, s, k - 1), n - 1)
  }

  method CollectPropertyNames(r: RawSpec, s: RawSchema, ghost n: nat) returns (props: set<string>)
    requires NestsWithin(r, s, n)
    ensures props == PropertyNames(r, s, n)
    decreases n
  {
    props := {};
    var keys := s.properties.Keys;
    while keys != {}
      invariant keys <= s.properties.Keys
      invariant props == s.properties.Keys - keys
      decreases keys
    {
      var p :| p in keys;
      props := props + {p};
      keys := keys - {p};
    }
    for i := 0 to |s.allOf|
      invariant props == s.properties.Keys + BranchNames(r, s, n, i)
    {
      ghost var before := props;
      assert NestsWithin(r, Branch(r, s, i), n - 1);
      var inner := CollectPropertyNames(r, Branch(r, s, i), n - 1);
      var rest := inner;
      while rest != {}
        invariant rest <= inner
        invariant props == before + (inner - rest)
        decreases rest
      {
        var p :| p in rest;
        props := props + {p};
        rest := rest - {p};
      }
    }
  }

  lemma {:induction false} BranchNamesUnion(r: RawSpec, s: RawSchema, n: nat, k: nat, p: string)
    requires NestsWithin(r, s, n) && k <= |s.allOf|
    ensures p in BranchNames(r, s, n, k) <==>
            exists i :: 0 <= i < k && p in PropertyNames(r, Branch(r, s, i), n - 1)
  {
    if k > 0 {
      BranchNamesUnion(r, s, n, k - 1, p);
    }
  }

  // A path picks one branch of allOf after another.
  predicate IsPath(r: RawSpec, s: RawSchema, path: seq<nat>)
    decreases |path|
  {
    path == [] || (path[0] < |s.allOf| && IsPath(r, Branch(r, s, path[0]), path[1..]))
  }

  function At(r: RawSpec, s: RawSchema, path: seq<nat>): RawSchema
    requires IsPath(r, s, path)
    decreases |path|
  {
    if path == [] then s else At(r, Branch(r, s, path[0]), path[1..])
  }

  ghost predicate DeclaredAt(r: RawSpec, s: RawSchema, path: seq<nat>, p: string)
  {
    IsPath(r, s, path) && p in At(r, s, path).properties
  }

  lemma {:induction false} NameHasPath(r: RawSpec, s: RawSchema, n: nat, p: string) returns (path: seq<nat>)
    requires NestsWithin(r, s, n) && p in PropertyNames(r, s, n)
    ensures DeclaredAt(r, s, path, p)
    decreases n
  {
    if p in s.properties {
      path := [];
    } else {
      BranchNamesUnion(r, s, n, |s.allOf|, p);
      var i :| 0 <= i < |s.allOf| && p in PropertyNames(r, Branch(r, s, i), n - 1);
      var rest := NameHasPath(r, Branch(r, s, i), n - 1, p);
      path := [i] + rest;
      assert path[1..] == rest;
    }
  }

  lemma {:induction false} PathGivesName(r: RawSpec, s: RawSchema, n: nat, p: string, path: seq<nat>)
    requires NestsWithin(r, s, n) && DeclaredAt(r, s, path, p)
    ensures p in PropertyNames(r, s, n)
    decreases n
  {
    if path != [] {
      var i := path[0];
      assert NestsWithin(r, Branch(r, s, i), n - 1);
      PathGivesName(r, Branch(r, s, i), n - 1, p, path[1..]);
      BranchNamesUnion(r, s, n, |s.allOf|, p);
    }
  }

  // The collected names are the union over every schema some path reaches.
  lemma {:induction false} PropertyNamesAreTheClosure(r: RawSpec, s: RawSchema, n: nat, p: string)
    requires NestsWithin(r, s, n)
    ensures p in PropertyNames(r, s, n) <==> exists path :: DeclaredAt(r, s, path, p)
  {
    if p in PropertyNames(r, s, n) {
      var path := NameHasPath(r, s, n, p);
    }
    if path :| DeclaredAt(r, s, path, p) {
      PathGivesName(r, s, n, p, path);
    }
  }

  lemma {:induction false} PathsAreShort(r: RawSpec, s: RawSchema, n: nat, path: seq<nat>)
    requires NestsWithin(r, s, n) && IsPath(r, s, path)
    ensures |path| <= n
    decreases n
  {
    if path != [] {
      assert NestsWithin(r, Branch(r, s, path[0]), n - 1);
      PathsAreShort(r, Branch(r, s, path[0]), n - 1, path[1..]);
    }
  }

  lemma {:induction false} LongPath(r: RawSpec, s: RawSchema, n: nat) returns (path: seq<nat>)
    requires !NestsWithin(r, s, n)
    ensures IsPath(r, s, path) && |path| == n + 1
    decreases n
  {
    var i :| 0 <= i < |s.allOf| && !(n > 0 && NestsWithin(r, Branch(r, s, i), n - 1));
    if n == 0 {
      path := [i];
    } else {
      var rest := LongPath(r, Branch(r, s, i), n - 1);
      path := [i] + rest;
      assert path[1..] == rest;
    }
  }

  // The recursion has a bottom at n exactly when no path is longer than n.
  lemma {:induction false} NestingIsPathLength(r: RawSpec, s: RawSchema, n: nat)
    ensures NestsWithin(r, s, n) <==> forall path :: IsPath(r, s, path) ==> |path| <= n
  {
    if NestsWithin(r, s, n) {
      forall path | IsPath(r, s, path)
        ensures |path| <= n
      {
        PathsAreShort(r, s, n, path);
      }
    } else {
      var path := LongPath(r, s, n);
    }
  }

  // ----- loadRequestSchemas -----

  datatype SpecProperty = SpecProperty(kind: string, nullable: bool)

  datatype RequestSchema = RequestSchema(wrapper: string, props: map<string, SpecProperty>, required: seq<string>)

  datatype Loaded = Skipped | Request(schema: RequestSchema)

  lemma {:induction false} OneKey<V>(m: map<string, V>)
    requires |m.Keys| == 1
    ensures exists k :: k in m && m.Keys == {k}
  {
    var k :| k in m.Keys;
    assert |m.Keys - {k}| == 0;
  }

  function OnlyKey<V>(m: map<string, V>): (k: string)
    requires |m.Keys| == 1
    ensures m.Keys == {k}
  {
    OneKey(m);
    var k :| k in m.Keys;
    k
  }

  // The object a request body nests under its one property; for an array, the
  // object its elements are.
  function Inner(r: RawSpec, s: RawSchema): RawSchema
    requires |s.properties.Keys| == 1
  {
    var inner := Resolve(r, s.properties[OnlyKey(s.properties)], 0);
    if inner.kind == "array" then Resolve(r, inner.items, 0) else inner
  }

  function PropertyOf(r: RawSpec, v: SchemaRef): SpecProperty
  {
    var resolved := Resolve(r, v, 0);
    SpecProperty(resolved.kind, resolved.nullable || (v.Schema? && v.s.nullable))
  }

  function LoadRequest(r: RawSpec, s: RawSchema): Loaded
  {
    if |s.properties.Keys| != 1 then Skipped
    else
      var inner := Inner(r, s);
      if |inner.properties.Keys| == 0 then Skipped
      else
        Request(RequestSchema(
          OnlyKey(s.properties),
          map f | f in inner.properties :: PropertyOf(r, inner.properties[f]),
          inner.required))
  }

  // ----- What was loaded, in terms of the document -----

  // A property the document marks nullable, itself or where it ends.
  ghost predicate MarkedNullable(r: RawSpec, v: SchemaRef)
  {
    (v.Schema? && v.s.nullable) || exists e :: EndsAt(r, v, e) && e.nullable
  }

  ghost predicate EndsInKind(r: RawSpec, v: SchemaRef, kind: string)
  {
    exists e :: EndsAt(r, v, e) && e.kind == kind
  }

  // inner is the object a request body nests under the key of s.
  ghost predicate Nests(r: RawSpec, s: RawSchema, key: string, inner: RawSchema)
  {
    && s.properties.Keys == {key}
    && exists e :: EndsAt(r, s.properties[key], e) &&
                   if e.kind == "array" then EndsAt(r, e.items, inner) else inner == e
  }

  lemma {:induction false} SingleKey<V>(m: map<string, V>, key: string)
    requires m.Keys == {key}
    ensures |m.Keys| == 1 && OnlyKey(m) == key
  {
    assert |m.Keys| == 1;
    assert OnlyKey(m) in {key};
  }

  lemma {:induction false} NestsExactly(r: RawSpec, s: RawSchema, key: string, inner: RawSchema)
    requires s.properties.Keys == {key}
    ensures |s.properties.Keys| == 1 && OnlyKey(s.properties) == key
    ensures Nests(r, s, key, inner) <==> inner == Inner(r, s)
  {
    SingleKey(s.properties, key);
    var v := s.properties[key];
    var e := Resolve(r, v, 0);
    EndsAtExactly(r, v, e);
    forall x
      ensures EndsAt(r, v, x) <==> x == e
    {
      EndsAtExactly(r, v, x);
    }
    EndsAtExactly(r, e.items, inner);
  }

  lemma {:induction false} PropertySays(r: RawSpec, v: SchemaRef, kind: string)
    ensures PropertyOf(r, v).nullable <==> MarkedNullable(r, v)
    ensures PropertyOf(r, v).kind == kind <==> EndsInKind(r, v, kind)
  {
    var e := Resolve(r, v, 0);
    EndsAtExactly(r, v, e);
    forall x | EndsAt(r, v, x)
      ensures x == e
    {
      EndsAtExactly(r, v, x);
    }
  }

  // A request schema is loaded from a document exactly when it nests an object
  // with properties under one key. Its properties are that object's, nullable
  // exactly where the document says so, of the kinds their references end in.
  lemma {:induction false} LoadedExactly(r: RawSpec, s: RawSchema, f: string, kind: string)
    ensures LoadRequest(r, s).Request? <==>
            exists key, inner :: Nests(r, s, key, inner) && inner.properties.Keys != {}
    ensures LoadRequest(r, s).Request? ==>
            exists inner :: Nests(r, s, LoadRequest(r, s).schema.wrapper, inner)
    ensures forall key, inner :: Nests(r, s, key, inner) && LoadRequest(r, s).Request? ==>
              var schema := LoadRequest(r, s).schema;
              && schema.wrapper == key && schema.required == inner.required
              && schema.props.Keys == inner.properties.Keys
              && (f in inner.properties ==>
                    && (schema.props[f].nullable <==> MarkedNullable(r, inner.properties[f]))
                    && (schema.props[f].kind == kind <==> EndsInKind(r, inner.properties[f], kind)))
  {
    forall key, inner | Nests(r, s, key, inner)
      ensures |s.properties.Keys| == 1 && OnlyKey(s.properties) == key && inner == Inner(r, s)
    {
      NestsExactly(r, s, key, inner);
    }
    if |s.properties.Keys| == 1 {
      var key, inner := OnlyKey(s.properties), Inner(r, s);
      NestsExactly(r, s, key, inner);
      if f in inner.properties {
        PropertySays(r, inner.properties[f], kind);
      }
    }
  }
}
