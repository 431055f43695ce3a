// The request half of the conformance check (spec_test.go): what it reports
// about a request struct, and what its silence guarantees about every body the
// struct can encode to.
module Conformance {
  import opened Json
  import opened GoEncoding
  import opened Schemas

  // ----- Types as text, which is how the check tells them apart -----

  function Show(t: GoType): string
  {
    match t
    case Named(name, _) => name
    case Pointer(e) => "*" + Show(e)
    case Slice(e) => "[]" + Show(e)
    case NullOf(e) => "Null[" + Show(e) + "]"
  }

  // Type names are identifiers, qualified perhaps.
  predicate IsIdentifier(name: string)
  {
    name != "" && forall i :: 0 <= i < |name| ==> name[i] != '*' && name[i] != '[' && name[i] != ']'
  }

  predicate Spelled(t: GoType)
  {
    match t
    case Named(name, _) => IsIdentifier(name)
    case Pointer(e) => Spelled(e)
    case Slice(e) => Spelled(e)
    case NullOf(e) => Spelled(e)
  }

  predicate LooksClearable(goType: string) { "*Null[" <= goType }

  predicate LooksEmptiable(goType: string) { "*[]" <= goType }

  // The prefixes mean what they are taken to mean.
  lemma {:induction false} PrefixesClassify(t: GoType)
    requires Spelled(t)
    ensures LooksClearable(Show(t)) <==> t.Pointer? && t.elem.NullOf?
    ensures LooksEmptiable(Show(t)) <==> t.Pointer? && t.elem.Slice?
  {
    var s := Show(t);
    if t.Pointer? {
      var e := t.elem;
      var inner := Show(e);
      assert s[1..] == inner;
      assert forall i :: 0 <= i < |inner| ==> s[i + 1] == inner[i];
      match e {
        case Named(name, _) =>
          assert "*Null["[5] == '[' && "*[]"[1] == '[';
          assert |s| > 5 ==> s[5] == name[4];
          assert s[1] == name[0];
        case Pointer(_) =>
          assert inner[0] == '*' && s[1] == '*';
        case Slice(_) =>
          assert inner[0] == '[' && inner[1] == ']';
          assert s[..3] == "*[]";
        case NullOf(_) =>
          assert inner[..5] == "Null[";
          assert s[..6] == "*Null[" && s[1] == 'N';
      }
    } else {
      assert s != "" && s[0] != '*';
    }
  }

  // ----- parseStructFieldTypes -----

  datatype StructField = StructField(goName: string, goType: string, jsonName: string, omitEmpty: bool)

  // Fields without a JSON name in their tag are passed over, exported or not.
  function ParsedFields(fields: seq<Field>): seq<StructField>
  {
    if fields == [] then []
    else
      var rest := ParsedFields(fields[..|fields| - 1]);
      var f := fields[|fields| - 1];
      if f.NamedByTag() then rest + [StructField(f.goName, Show(f.goType), f.tag.name, f.tag.omitEmpty)] else rest
  }

  lemma {:induction false} ParsedFieldOf(fields: seq<Field>, i: nat)
    requires i < |fields| && fields[i].NamedByTag()
    ensures exists k :: 0 <= k < |ParsedFields(fields)| && ParsedFields(fields)[k] ==
              StructField(fields[i].goName, Show(fields[i].goType), fields[i].tag.name, fields[i].tag.omitEmpty)
  {
    var init := fields[..|fields| - 1];
    if i < |fields| - 1 {
      ParsedFieldOf(init, i);
      var k :| 0 <= k < |ParsedFields(init)| && ParsedFields(init)[k] ==
              StructField(fields[i].goName, Show(fields[i].goType), fields[i].tag.name, fields[i].tag.omitEmpty);
      assert ParsedFields(fields)[k] == ParsedFields(init)[k];
    } else {
      assert ParsedFields(fields)[|ParsedFields(init)|].goName == fields[i].goName;
    }
  }

  lemma {:induction false} FieldOfParsed(fields: seq<Field>, k: nat) returns (i: nat)
    requires k < |ParsedFields(fields)|
    ensures i < |fields| && fields[i].NamedByTag()
    ensures ParsedFields(fields)[k] ==
            StructField(fields[i].goName, Show(fields[i].goType), fields[i].tag.name, fields[i].tag.omitEmpty)
  {
    var init := fields[..|fields| - 1];
    if k < |ParsedFields(init)| {
      i := FieldOfParsed(init, k);
      assert ParsedFields(fields)[k] == ParsedFields(init)[k];
    } else {
      i := |fields| - 1;
    }
  }

  // ----- The rules of TestSpecRequestConformance -----

  datatype Finding =
    | AbsentFromSchema(field: string)
    | NotClearable(field: string)
    | ListNotSendable(field: string)
    | CannotSend(required: string)
    | MayOmit(required: string)

  function FieldFindings(merge: bool, schema: RequestSchema, f: StructField): seq<Finding>
  {
    if f.jsonName !in schema.props then [AbsentFromSchema(f.jsonName)]
    else if !merge then []
    else
      var prop := schema.props[f.jsonName];
      if prop.nullable && !LooksClearable(f.goType) then [NotClearable(f.jsonName)]
      else if prop.kind == "array" && !LooksEmptiable(f.goType) then [ListNotSendable(f.jsonName)]
      else []
  }

  function AllFieldFindings(merge: bool, schema: RequestSchema, fields: seq<StructField>): seq<Finding>
  {
    if fields == [] then []
    else AllFieldFindings(merge, schema, fields[..|fields| - 1]) + FieldFindings(merge, schema, fields[|fields| - 1])
  }

  // The fields by JSON name, the last declaration of a name winning.
  function Declared(fields: seq<StructField>): map<string, StructField>
  {
    if fields == [] then map[]
    else Declared(fields[..|fields| - 1])[fields[|fields| - 1].jsonName := fields[|fields| - 1]]
  }

  function RequiredFindings(declared: map<string, StructField>, required: seq<string>): seq<Finding>
  {
    if required == [] then []
    else
      var rest := RequiredFindings(declared, required[..|required| - 1]);
      var want := required[|required| - 1];
      if want !in declared then rest + [CannotSend(want)]
      else if declared[want].omitEmpty then rest + [MayOmit(want)]
      else rest
  }

  function Findings(merge: bool, schema: RequestSchema, fields: seq<StructField>): seq<Finding>
  {
    AllFieldFindings(merge, schema, fields) + RequiredFindings(Declared(fields), schema.required)
  }

  method CheckRequest(merge: bool, schema: RequestSchema, fields: seq<StructField>) returns (findings: seq<Finding>)
    ensures findings == Findings(merge, schema, fields)
  {
    findings := [];
    var declared: map<string, StructField> := map[];
    for i := 0 to |fields|
      invariant findings == AllFieldFindings(merge, schema, fields[..i])
      invariant declared == Declared(fields[..i])
    {
      var f := fields[i];
      assert fields[..i + 1][..i] == fields[..i];
      declared := declared[f.jsonName := f];
      if f.jsonName !in schema.props {
        findings := findings + [AbsentFromSchema(f.jsonName)];
      } else if merge {
        var prop := schema.props[f.jsonName];
        if prop.nullable && !LooksClearable(f.goType) {
          findings := findings + [NotClearable(f.jsonName)];
        } else if prop.kind == "array" && !LooksEmptiable(f.goType) {
          findings := findings + [ListNotSendable(f.jsonName)];
        }
      }
    }
    assert fields[..|fields|] == fields;
    for i := 0 to |schema.required|
      invariant findings == AllFieldFindings(merge, schema, fields) +
                            RequiredFindings(declared, schema.required[..i])
    {
      var want := schema.required[i];
      assert schema.required[..i + 1][..i] == schema.required[..i];
      if want !in declared {
        findings := findings + [CannotSend(want)];
      } else if declared[want].omitEmpty {
        findings := findings + [MayOmit(want)];
      }
    }
    assert schema.required[..|schema.required|] == schema.required;
  }

  // ----- What no findings means -----

  lemma {:induction false} NoFieldFindings(merge: bool, schema: RequestSchema, fields: seq<StructField>, k: nat)
    requires AllFieldFindings(merge, schema, fields) == [] && k < |fields|
    ensures FieldFindings(merge, schema, fields[k]) == []
  {
    if k < |fields| - 1 {
      NoFieldFindings(merge, schema, fields[..|fields| - 1], k);
    }
  }

  lemma {:induction false} NoRequiredFindings(declared: map<string, StructField>, required: seq<string>, w: string)
    requires RequiredFindings(declared, required) == [] && w in required
    ensures w in declared && !declared[w].omitEmpty
  {
    if w != required[|required| - 1] {
      NoRequiredFindings(declared, required[..|required| - 1], w);
    }
  }

  // The four rules: every field is in the schema; on a merge body nullable
  // fields look clearable and array fields emptiable; and every required
  // property is declared, without omitempty in its last declaration.
  ghost predicate PassesRules(merge: bool, schema: RequestSchema, fields: seq<StructField>)
  {
    && (forall k :: 0 <= k < |fields| ==>
          && fields[k].jsonName in schema.props
          && (merge && schema.props[fields[k].jsonName].nullable ==> LooksClearable(fields[k].goType))
          && (merge && schema.props[fields[k].jsonName].kind == "array" ==> LooksEmptiable(fields[k].goType)))
    && (forall w :: w in schema.required ==> w in Declared(fields) && !Declared(fields)[w].omitEmpty)
  }

  // What each finding means.
  ghost predicate Deserved(merge: bool, schema: RequestSchema, fields: seq<StructField>, x: Finding)
  {
    match x
    case AbsentFromSchema(name) => exists k :: 0 <= k < |fields| && fields[k].jsonName == name && name !in schema.props
    case NotClearable(name) =>
      exists k :: && 0 <= k < |fields| && fields[k].jsonName == name && name in schema.props
                  && merge && schema.props[name].nullable && !LooksClearable(fields[k].goType)
    case ListNotSendable(name) =>
      exists k :: && 0 <= k < |fields| && fields[k].jsonName == name && name in schema.props
                  && merge && schema.props[name].kind == "array" && !LooksEmptiable(fields[k].goType)
                  && (schema.props[name].nullable ==> LooksClearable(fields[k].goType))
    case CannotSend(name) => name in schema.required && forall k :: 0 <= k < |fields| ==> fields[k].jsonName != name
    case MayOmit(name) => name in schema.required && exists k :: IsLast(fields, k, name) && fields[k].omitEmpty
  }

  // The last field of this name.
  predicate IsLast(fields: seq<StructField>, k: int, name: string)
  {
    0 <= k < |fields| && fields[k].jsonName == name && forall j :: k < j < |fields| ==> fields[j].jsonName != name
  }

  // The rules report exactly the findings that are deserved.
  lemma {:induction false} FindingsExactly(merge: bool, schema: RequestSchema, fields: seq<StructField>, x: Finding)
    ensures x in Findings(merge, schema, fields) <==> Deserved(merge, schema, fields, x)
  {
    FieldFindingsExactly(merge, schema, fields, x);
    RequiredFindingsExactly(Declared(fields), schema.required, x);
    if x.CannotSend? || x.MayOmit? {
      var k := LastDeclared(fields, x.required);
    }
  }

  lemma {:induction false} FieldFindingsExactly(merge: bool, schema: RequestSchema, fields: seq<StructField>, x: Finding)
    ensures x in AllFieldFindings(merge, schema, fields) <==>
            exists k :: 0 <= k < |fields| && x in FieldFindings(merge, schema, fields[k])
  {
    if fields != [] {
      var init := fields[..|fields| - 1];
      FieldFindingsExactly(merge, schema, init, x);
      if k :| 0 <= k < |init| && x in FieldFindings(merge, schema, init[k]) {
        assert fields[k] == init[k];
      }
      if k :| 0 <= k < |fields| && x in FieldFindings(merge, schema, fields[k]) {
        assert k < |init| ==> init[k] == fields[k];
      }
    }
  }

  lemma {:induction false} RequiredFindingsExactly(declared: map<string, StructField>, required: seq<string>, x: Finding)
    ensures x in RequiredFindings(declared, required) <==>
            && (x.CannotSend? || x.MayOmit?) && x.required in required
            && (if x.CannotSend? then x.required !in declared
                else x.required in declared && declared[x.required].omitEmpty)
  {
    if required != [] {
      RequiredFindingsExactly(declared, required[..|required| - 1], x);
    }
  }

  lemma {:induction false} LastDeclared(fields: seq<StructField>, name: string) returns (k: int)
    ensures k < 0 ==> name !in Declared(fields) && forall j :: 0 <= j < |fields| ==> fields[j].jsonName != name
    ensures k >= 0 ==> IsLast(fields, k, name) && name in Declared(fields) && Declared(fields)[name] == fields[k]
  {
    k := -1;
    if fields != [] {
      var init := fields[..|fields| - 1];
      if fields[|fields| - 1].jsonName == name {
        k := |fields| - 1;
      } else {
        k := LastDeclared(init, name);
        assert forall j :: 0 <= j < |init| ==> fields[j] == init[j];
      }
    }
  }

  // The check is silent exactly about the structs that pass the rules.
  lemma {:induction false} SilentExactly(merge: bool, schema: RequestSchema, fields: seq<StructField>)
    ensures Findings(merge, schema, fields) == [] <==> PassesRules(merge, schema, fields)
  {
    if Findings(merge, schema, fields) == [] {
      forall k | 0 <= k < |fields|
        ensures FieldFindings(merge, schema, fields[k]) == []
      {
        NoFieldFindings(merge, schema, fields, k);
      }
      forall w | w in schema.required
        ensures w in Declared(fields) && !Declared(fields)[w].omitEmpty
      {
        NoRequiredFindings(Declared(fields), schema.required, w);
      }
    }
    if PassesRules(merge, schema, fields) {
      SilentOnFields(merge, schema, fields);
      SilentOnRequired(Declared(fields), schema.required);
    }
  }

  lemma {:induction false} SilentOnFields(merge: bool, schema: RequestSchema, fields: seq<StructField>)
    requires forall k :: 0 <= k < |fields| ==> FieldFindings(merge, schema, fields[k]) == []
    ensures AllFieldFindings(merge, schema, fields) == []
  {
    if fields != [] {
      SilentOnFields(merge, schema, fields[..|fields| - 1]);
    }
  }

  lemma {:induction false} SilentOnRequired(declared: map<string, StructField>, required: seq<string>)
    requires forall w :: w in required ==> w in declared && !declared[w].omitEmpty
    ensures RequiredFindings(declared, required) == []
  {
    if required != [] {
      SilentOnRequired(declared, required[..|required| - 1]);
    }
  }

  lemma {:induction false} DeclaredIsAField(fields: seq<StructField>, name: string)
    requires name in Declared(fields)
    ensures Declared(fields)[name] in fields && Declared(fields)[name].jsonName == name
  {
    if fields[|fields| - 1].jsonName != name {
      DeclaredIsAField(fields[..|fields| - 1], name);
    }
  }

  // A clean struct: every field the tags name is in the schema, and every
  // required property is named by a field without omitempty.
  lemma {:induction false} CleanFields(merge: bool, schema: RequestSchema, fields: seq<Field>)
    requires Findings(merge, schema, ParsedFields(fields)) == []
    ensures forall i :: 0 <= i < |fields| && fields[i].NamedByTag() ==>
              && fields[i].tag.name in schema.props
              && FieldFindings(merge, schema, StructField(
                   fields[i].goName, Show(fields[i].goType), fields[i].tag.name, fields[i].tag.omitEmpty)) == []
    ensures forall w :: w in schema.required ==>
              exists i :: 0 <= i < |fields| && fields[i].NamedByTag() && fields[i].tag.name == w && !fields[i].tag.omitEmpty
  {
    var parsed := ParsedFields(fields);
    forall i | 0 <= i < |fields| && fields[i].NamedByTag()
      ensures fields[i].tag.name in schema.props
      ensures FieldFindings(merge, schema, StructField(
                fields[i].goName, Show(fields[i].goType), fields[i].tag.name, fields[i].tag.omitEmpty)) == []
    {
      ParsedFieldOf(fields, i);
      var k :| 0 <= k < |parsed| && parsed[k] ==
        StructField(fields[i].goName, Show(fields[i].goType), fields[i].tag.name, fields[i].tag.omitEmpty);
      NoFieldFindings(merge, schema, parsed, k);
    }
    forall w | w in schema.required
      ensures exists i :: 0 <= i < |fields| && fields[i].NamedByTag() && fields[i].tag.name == w && !fields[i].tag.omitEmpty
    {
      NoRequiredFindings(Declared(parsed), schema.required, w);
      DeclaredIsAField(parsed, w);
      var k :| 0 <= k < |parsed| && parsed[k] == Declared(parsed)[w];
      var i := FieldOfParsed(fields, k);
    }
  }

  // ----- Soundness, exactly -----

  // Structs - Null is one - are never empty, so omitempty never drops them.
  predicate NeverEmpty(t: GoType)
  {
    t.NullOf? || (t.Named? && t.kind.Structs?)
  }

  // The zero value of a type.
  function Zero(t: GoType): (v: GoValue)
    ensures HasType(v, t)
    ensures IsEmpty(v) <==> !NeverEmpty(t)
  {
    match t
    case Named(_, Booleans) => Plain(Bool(false))
    case Named(_, Numbers) => Plain(Num(0))
    case Named(_, Strings) => Plain(Str(""))
    case Named(_, Structs) => Plain(Obj(map[]))
    case Pointer(_) => NilPointer
    case Slice(_) => NilSlice
    case NullOf(e) => NullValue(Zero(e), false)
  }

  // Every type also has a value that is not empty.
  function Sample(t: GoType): (v: GoValue)
    ensures HasType(v, t) && !IsEmpty(v)
  {
    match t
    case Named(_, Booleans) => Plain(Bool(true))
    case Named(_, Numbers) => Plain(Num(1))
    case Named(_, Strings) => Plain(Str("x"))
    case Pointer(e) => PointerTo(Zero(e))
    case Slice(e) => Elements([Zero(e)])
    case _ => Zero(t)
  }

  function Zeros(fields: seq<Field>): (vs: seq<GoValue>)
    ensures ValuesFit(fields, vs)
  {
    seq(|fields|, i requires 0 <= i < |fields| => Zero(fields[i].goType))
  }

  ghost predicate SafeBody(schema: RequestSchema, body: map<string, Json>)
  {
    body.Keys <= schema.props.Keys && forall w :: w in schema.required ==> w in body
  }

  // No field can drop out of the body.
  predicate AlwaysSent(fields: seq<Field>, i: nat)
    requires i < |fields|
  {
    Dominant(fields, i) && (fields[i].OmitsEmpty() ==> NeverEmpty(fields[i].goType))
  }

  // What the rules do not look at: a field its tag does not name goes out under
  // its Go name, and a required field must not be shadowed or dropped.
  predicate WellTagged(schema: RequestSchema, fields: seq<Field>)
  {
    && (forall i :: 0 <= i < |fields| && Dominant(fields, i) && !fields[i].NamedByTag() ==>
          fields[i].goName in schema.props)
    && (forall w :: w in schema.required ==>
          exists i :: 0 <= i < |fields| && AlwaysSent(fields, i) && fields[i].Key() == w)
  }

  // When the rules report nothing, every body the struct can encode to keeps
  // to the schema exactly when the struct is also well tagged.
  lemma {:induction false} CheckerSoundExactly(merge: bool, schema: RequestSchema, fields: seq<Field>)
    requires Findings(merge, schema, ParsedFields(fields)) == []
    ensures WellTagged(schema, fields) <==>
            forall values :: ValuesFit(fields, values) ==> SafeBody(schema, EncodeStruct(fields, values))
  {
    if WellTagged(schema, fields) {
      forall values | ValuesFit(fields, values)
        ensures SafeBody(schema, EncodeStruct(fields, values))
      {
        WellTaggedIsSafe(merge, schema, fields, values);
      }
    } else {
      var values := UnsafeValues(merge, schema, fields);
      assert ValuesFit(fields, values);
    }
  }

  lemma {:induction false} WellTaggedIsSafe(merge: bool, schema: RequestSchema, fields: seq<Field>, values: seq<GoValue>)
    requires Findings(merge, schema, ParsedFields(fields)) == []
    requires WellTagged(schema, fields) && ValuesFit(fields, values)
    ensures SafeBody(schema, EncodeStruct(fields, values))
  {
    var body := EncodeStruct(fields, values);
    CleanFields(merge, schema, fields);
    forall k | k in body
      ensures k in schema.props
    {
      EncodedKeys(fields, values, k);
      var i :| 0 <= i < |fields| && IsSent(fields, values, i) && fields[i].Key() == k;
      assert HasType(values[i], fields[i].goType) && !Omitted(fields[i], values[i]);
    }
    forall w | w in schema.required
      ensures w in body
    {
      var i :| 0 <= i < |fields| && AlwaysSent(fields, i) && fields[i].Key() == w;
      assert HasType(values[i], fields[i].goType);
      assert IsSent(fields, values, i);
      EncodedKeys(fields, values, w);
    }
  }

  lemma {:induction false} UnsafeValues(merge: bool, schema: RequestSchema, fields: seq<Field>) returns (values: seq<GoValue>)
    requires Findings(merge, schema, ParsedFields(fields)) == []
    requires !WellTagged(schema, fields)
    ensures ValuesFit(fields, values) && !SafeBody(schema, EncodeStruct(fields, values))
  {
    values := Zeros(fields);
    if i :| 0 <= i < |fields| && Dominant(fields, i) && !fields[i].NamedByTag() && fields[i].goName !in schema.props {
      values := values[i := Sample(fields[i].goType)];
      assert IsSent(fields, values, i);
      EncodedKeys(fields, values, fields[i].goName);
    } else {
      var w :| w in schema.required
               && forall i :: 0 <= i < |fields| && AlwaysSent(fields, i) ==> fields[i].Key() != w;
      forall i | 0 <= i < |fields| && fields[i].Key() == w
        ensures !IsSent(fields, values, i)
      {}
      EncodedKeys(fields, values, w);
    }
  }

  // Request structs as they are written - exported fields named by distinct
  // tags - are well tagged as soon as the rules report nothing.
  lemma {:induction false} RegularIsWellTagged(merge: bool, schema: RequestSchema, fields: seq<Field>)
    requires Findings(merge, schema, ParsedFields(fields)) == []
    requires Regular(fields)
    ensures WellTagged(schema, fields)
  {
    CleanFields(merge, schema, fields);
    forall w | w in schema.required
      ensures exists i :: 0 <= i < |fields| && AlwaysSent(fields, i) && fields[i].Key() == w
    {
      var i :| 0 <= i < |fields| && fields[i].NamedByTag() && fields[i].tag.name == w && !fields[i].tag.omitEmpty;
      assert AlwaysSent(fields, i);
    }
  }

  // Two fields with one tag pass the rules, yet the encoder drops both and the
  // required property is never sent.
  const NAME_FIELD: Field := Field("Name", Named("string", Strings), Tagged("name", false))
  const LABEL_FIELD: Field := Field("Label", Named("string", Strings), Tagged("name", false))
  const NAME_SCHEMA: RequestSchema := RequestSchema("site", map["name" := SpecProperty("string", false)], ["name"])

  lemma {:induction false} DuplicateTagsPass(merge: bool)
    ensures Findings(merge, NAME_SCHEMA, ParsedFields([NAME_FIELD, LABEL_FIELD])) == []
  {
    var first, second := StructField("Name", "string", "name", false), StructField("Label", "string", "name", false);
    var fields, parsed := [NAME_FIELD, LABEL_FIELD], [first, second];
    assert ParsedFields(fields) == parsed by {
      assert fields[..1] == [NAME_FIELD] && [NAME_FIELD][..0] == [];
      assert ParsedFields([NAME_FIELD]) == [first];
    }
    assert parsed[..1] == [first] && [first][..0] == [];
    assert AllFieldFindings(merge, NAME_SCHEMA, parsed) == [] by {
      assert AllFieldFindings(merge, NAME_SCHEMA, [first]) == [];
    }
    assert Declared(parsed)["name"] == second;
    assert ["name"][..0] == [];
    assert RequiredFindings(Declared(parsed), ["name"]) == [];
  }

  lemma {:induction false} DuplicateTagsAreDropped(values: seq<GoValue>)
    requires ValuesFit([NAME_FIELD, LABEL_FIELD], values)
    ensures EncodeStruct([NAME_FIELD, LABEL_FIELD], values) == map[]
  {
    var fields := [NAME_FIELD, LABEL_FIELD];
    assert fields[0].Key() == fields[1].Key() == "name";
    assert !Dominant(fields, 0) && !Dominant(fields, 1);
  }

  // ----- Merge-patch bodies -----

  // On a merge-patch body that passes: null is reachable for every nullable
  // field, the empty list for every array field, no field is both, and such a
  // field can be left out exactly when it carries omitempty - which no rule checks.
  lemma {:induction false} MergeBodyReach(schema: RequestSchema, fields: seq<Field>, i: nat)
    requires Findings(true, schema, ParsedFields(fields)) == []
    requires Regular(fields) && i < |fields| && Spelled(fields[i].goType)
    ensures var name := fields[i].tag.name;
            && name in schema.props
            && var prop := schema.props[name];
               && !(prop.nullable && prop.kind == "array")
               && (prop.nullable ==>
                     exists values :: && ValuesFit(fields, values) && name in EncodeStruct(fields, values)
                                      && EncodeStruct(fields, values)[name] == Null)
               && (prop.kind == "array" ==>
                     exists values :: && ValuesFit(fields, values) && name in EncodeStruct(fields, values)
                                      && EncodeStruct(fields, values)[name] == Arr([]))
               && (prop.nullable || prop.kind == "array" ==>
                     (fields[i].tag.omitEmpty <==>
                      exists values :: ValuesFit(fields, values) && name !in EncodeStruct(fields, values)))
  {
    CleanFields(true, schema, fields);
    PrefixesClassify(fields[i].goType);
    var name := fields[i].tag.name;
    var prop := schema.props[name];
    var t := fields[i].goType;
    if prop.nullable {
      assert t.Pointer? && t.elem.NullOf?;
      var v := PointerTo(NullValue(Zero(t.elem.elem), false));
      assert HasType(v.target, t.elem);
      assert Marshal(v) == Marshal(v.target) == Null;
      SendsValue(fields, i, v);
    }
    if prop.kind == "array" {
      assert t.Pointer? && t.elem.Slice?;
      var v := PointerTo(Elements([]));
      assert HasType(v.target, t.elem);
      assert Marshal(v) == Marshal(v.target) == Arr([]);
      SendsValue(fields, i, v);
    }
    if prop.nullable || prop.kind == "array" {
      var zeros := Zeros(fields);
      RegularField(fields, zeros, i);
      forall values | ValuesFit(fields, values) && name !in EncodeStruct(fields, values)
        ensures fields[i].tag.omitEmpty
      {
        RegularField(fields, values, i);
      }
    }
  }

  // A field of a regular struct can be sent with any value of its type that
  // omitempty does not drop.
  lemma {:induction false} SendsValue(fields: seq<Field>, i: nat, v: GoValue)
    requires Regular(fields) && i < |fields| && HasType(v, fields[i].goType) && !Omitted(fields[i], v)
    ensures var name := fields[i].tag.name;
            exists values :: && ValuesFit(fields, values) && name in EncodeStruct(fields, values)
                             && EncodeStruct(fields, values)[name] == Marshal(v)
  {
    var values := Zeros(fields)[i := v];
    RegularField(fields, values, i);
    assert ValuesFit(fields, values);
  }

  // ----- From the document to the wire -----

  // A struct that passes against a schema loaded from the document is checked
  // under the key the document nests it under, and its body has only keys the
  // document declares there and every key the document requires.
  lemma {:induction false} CheckedBodiesConform(
      r: RawSpec, s: RawSchema, key: string, inner: RawSchema, merge: bool, fields: seq<Field>, values: seq<GoValue>)
    requires LoadRequest(r, s).Request? && Nests(r, s, key, inner)
    requires Findings(merge, LoadRequest(r, s).schema, ParsedFields(fields)) == []
    requires Regular(fields) && ValuesFit(fields, values)
    ensures LoadRequest(r, s).schema.wrapper == key
    ensures EncodeStruct(fields, values).Keys <= inner.properties.Keys
    ensures forall w :: w in inner.required ==> w in EncodeStruct(fields, values)
  {
    var schema := LoadRequest(r, s).schema;
    LoadedExactly(r, s, key, "array");
    RegularIsWellTagged(merge, schema, fields);
    WellTaggedIsSafe(merge, schema, fields, values);
  }

  // From the document to a merge body: when the check against what was loaded
  // reports nothing, null can be sent for every field the document marks
  // nullable, and the empty list for every field it ends in an array for.
  lemma {:induction false} DocumentToMergeBody(
      r: RawSpec, s: RawSchema, key: string, inner: RawSchema, fields: seq<Field>, i: nat)
    requires LoadRequest(r, s).Request? && Nests(r, s, key, inner)
    requires Findings(true, LoadRequest(r, s).schema, ParsedFields(fields)) == []
    requires Regular(fields) && i < |fields| && Spelled(fields[i].goType)
    ensures var name := fields[i].tag.name;
            && name in inner.properties
            && var v := inner.properties[name];
               && !(MarkedNullable(r, v) && EndsInKind(r, v, "array"))
               && (MarkedNullable(r, v) ==>
                     exists values :: && ValuesFit(fields, values) && name in EncodeStruct(fields, values)
                                      && EncodeStruct(fields, values)[name] == Null)
               && (EndsInKind(r, v, "array") ==>
                     exists values :: && ValuesFit(fields, values) && name in EncodeStruct(fields, values)
                                      && EncodeStruct(fields, values)[name] == Arr([]))
  {
    LoadedExactly(r, s, fields[i].tag.name, "array");
    MergeBodyReach(LoadRequest(r, s).schema, fields, i);
  }

  // And a field is reported as not clearable exactly when the document marks it
  // nullable and its type is no *Null.
  lemma {:induction false} NotClearableExactly(
      r: RawSpec, s: RawSchema, key: string, inner: RawSchema, fields: seq<Field>, i: nat)
    requires LoadRequest(r, s).Request? && Nests(r, s, key, inner)
    requires Regular(fields) && i < |fields| && Spelled(fields[i].goType) && fields[i].tag.name in inner.properties
    ensures NotClearable(fields[i].tag.name) in Findings(true, LoadRequest(r, s).schema, ParsedFields(fields)) <==>
            && MarkedNullable(r, inner.properties[fields[i].tag.name])
            && !(fields[i].goType.Pointer? && fields[i].goType.elem.NullOf?)
  {
    var name, parsed := fields[i].tag.name, ParsedFields(fields);
    var schema := LoadRequest(r, s).schema;
    LoadedExactly(r, s, name, "array");
    PrefixesClassify(fields[i].goType);
    FindingsExactly(true, schema, parsed, NotClearable(name));
    ParsedFieldOf(fields, i);
    forall k | 0 <= k < |parsed| && parsed[k].jsonName == name
      ensures parsed[k].goType == Show(fields[i].goType)
    {
      var j := FieldOfParsed(fields, k);
      assert j == i;
    }
  }
}
