// Merge-patch update requests: Null fields (null.go), the update structs of
// resources.go, policies.go and actors.go, and what a server that merges their
// bodies (section 2 of RFC 7396) does to a record.
module Updates {
  import opened Json
  import opened GoEncoding

  datatype Ptr<T> = Nil | To(v: T)

  datatype GoSlice<T> = NoSlice | List(elems: seq<T>)

  // ----- null.go -----

  datatype Nullable<T> = Nullable(value: T, valid: bool)

  function SetTo<T>(v: T): Ptr<Nullable<T>> { To(Nullable(v, true)) }

  function Cleared<T>(zero: T): Ptr<Nullable<T>> { To(Nullable(zero, false)) }

  // encode stands for json.Marshal of a T.
  function MarshalNull<T>(n: Nullable<T>, encode: T -> string): string
  {
    if !n.valid then "null" else encode(n.value)
  }

  // What json.Unmarshal of a T did: failed, perhaps after writing part of the
  // value, or read a value.
  datatype Decoding<T> = Failed(partial: T) | Decoded(v: T)

  function Unmarshalled<T>(n: Nullable<T>, data: string, decoding: Decoding<T>, zero: T): Nullable<T>
  {
    if data == "null" then Nullable(zero, false)
    else
      match decoding
      case Failed(partial) => n.(value := partial)
      case Decoded(v) => Nullable(v, true)
  }

  // decode stands for json.Unmarshal into a T. Whatever a Null held before, it
  // decodes what was encoded back to the Null that was encoded - up to the value
  // an invalid one ignores - exactly when that was invalid, or T's own decoder
  // restores its value and the value does not itself encode as null.
  lemma {:induction false} NullRoundTripExactly<T(!new)>(
      n: Nullable<T>, encode: T -> string, decode: string -> Decoding<T>, zero: T)
    ensures var data := MarshalNull(n, encode);
            (forall into: Nullable<T> ::
               Unmarshalled(into, data, decode(data), zero) == if n.valid then n else Nullable(zero, false)) <==>
            (n.valid ==> encode(n.value) != "null" && decode(encode(n.value)) == Decoded(n.value))
  {
    var data := MarshalNull(n, encode);
    if n.valid && data != "null" && decode(data) != Decoded(n.value) {
      assert Unmarshalled(Nullable(n.value, false), data, decode(data), zero) != n;
    } else if n.valid && data == "null" {
      assert Unmarshalled(n, data, decode(data), zero) != n;
    }
  }

  // After decoding, a Null is valid exactly if it read a value, or failed to and
  // was valid before.
  lemma {:induction false} ValidExactly<T>(n: Nullable<T>, data: string, decoding: Decoding<T>, zero: T)
    ensures Unmarshalled(n, data, decoding, zero).valid <==> data != "null" && (decoding.Decoded? || n.valid)
  {}

  class NullVar<T> {
    var value: T
    var valid: bool

    function AsNullable(): Nullable<T>
      reads this
    {
      Nullable(value, valid)
    }

    constructor (value: T, valid: bool)
      ensures AsNullable() == Nullable(value, valid)
    {
      this.value, this.valid := value, valid;
    }

    method UnmarshalJSON(data: string, decoding: Decoding<T>, zero: T) returns (ok: bool)
      modifies this
      ensures ok <==> data == "null" || decoding.Decoded?
      ensures AsNullable() == Unmarshalled(old(AsNullable()), data, decoding, zero)
    {
      if data == "null" {
        value, valid := zero, false;
        return true;
      }
      match decoding {
        case Failed(partial) =>
          value := partial;
          ok := false;
        case Decoded(v) =>
          value := v;
          valid := true;
          ok := true;
      }
    }
  }

  // ----- Update of any regular struct -----

  ghost predicate Effect(before: map<string, Json>, after: map<string, Json>, k: string, says: Says)
  {
    match says
    case Keep => (k in after <==> k in before) && (k in before ==> after[k] == before[k])
    case Clear => k !in after
    case Assign(j) => k in after && after[k] == j
  }

  predicate NoObjects(values: seq<GoValue>)
  {
    forall i :: 0 <= i < |values| ==> !Marshal(values[i]).Obj?
  }

  datatype RequestBody = NilRequest | Wrapped(json: Json)

  // wrapBody: the struct nested under the endpoint's key, or an error for nil.
  function WrapBody(key: string, fields: seq<Field>, request: Ptr<seq<GoValue>>): RequestBody
    requires request.To? ==> |request.v| == |fields|
  {
    match request
    case Nil => NilRequest
    case To(values) => Wrapped(Obj(map[key := Obj(EncodeStruct(fields, values))]))
  }

  // A nil request is an error of the caller, never sent as null; any other is
  // sent as an object of just the endpoint's key around an object.
  lemma {:induction false} NilIsNeverSent(key: string, fields: seq<Field>, request: Ptr<seq<GoValue>>)
    requires request.To? ==> |request.v| == |fields|
    ensures var body := WrapBody(key, fields, request);
            && (body.Wrapped? <==> request.To?)
            && (body.Wrapped? ==>
                  && body.json.Obj? && body.json.members.Keys == {key}
                  && body.json.members[key] == Obj(EncodeStruct(fields, request.v)))
  {}

  // The endpoint unwraps the body and merges it into the record.
  function Served(key: string, record: map<string, Json>, body: Json): map<string, Json>
  {
    if key in Members(body) then Members(MergePatch(Obj(record), Members(body)[key])) else record
  }

  function Updated(key: string, fields: seq<Field>, record: map<string, Json>, values: seq<GoValue>): map<string, Json>
    requires |values| == |fields|
  {
    Served(key, record, WrapBody(key, fields, To(values)).json)
  }

  lemma {:induction false} FlatBody(fields: seq<Field>, values: seq<GoValue>)
    requires |values| == |fields| && NoObjects(values)
    ensures Flat(EncodeStruct(fields, values))
  {}

  // Each named member does what is said of it, and no other member changes.
  ghost predicate Does(before: map<string, Json>, after: map<string, Json>, names: seq<string>, says: seq<Says>)
  {
    && |names| == |says|
    && (forall i :: 0 <= i < |names| ==> Effect(before, after, names[i], says[i]))
    && (forall k :: k !in names ==> Effect(before, after, k, Keep))
  }

  // The request's fields go by these names and say these things.
  predicate Speaks(fields: seq<Field>, values: seq<GoValue>, names: seq<string>, says: seq<Says>)
  {
    && |values| == |names| == |says| == |fields|
    && forall i :: 0 <= i < |fields| ==>
         && fields[i].tag.Tagged? && fields[i].tag.name == names[i]
         && FieldSays(fields[i], values[i]) == says[i]
  }

  // Merging a request into a record does exactly what its fields say.
  lemma {:induction false} UpdateRefines(
      key: string, fields: seq<Field>, record: map<string, Json>, values: seq<GoValue>,
      names: seq<string>, says: seq<Says>)
    requires Regular(fields) && Speaks(fields, values, names, says) && NoObjects(values)
    ensures Does(record, Updated(key, fields, record, values), names, says)
  {
    var body := EncodeStruct(fields, values);
    FlatBody(fields, values);
    forall i | 0 <= i < |names|
      ensures Effect(record, Updated(key, fields, record, values), names[i], says[i])
    {
      RegularField(fields, values, i);
      FlatMerge(record, body, names[i]);
    }
    forall k | k !in names
      ensures Effect(record, Updated(key, fields, record, values), k, Keep)
    {
      EncodedKeys(fields, values, k);
      assert forall i :: 0 <= i < |fields| ==> fields[i].Key() == names[i];
      FlatMerge(record, body, k);
    }
  }

  // ----- The endpoint's changeset -----

  predicate IsNullable(f: Field) { f.goType.Pointer? && f.goType.elem.NullOf? }

  // Before it merges, an endpoint reads an empty string as the default of its
  // field, which for a nullable field is null.
  function Changeset(fields: seq<Field>, patch: map<string, Json>): map<string, Json>
  {
    map k | k in patch ::
      if patch[k] == Str("") && exists i :: 0 <= i < |fields| && fields[i].Key() == k && IsNullable(fields[i]) then Null
      else patch[k]
  }

  function Stored(key: string, fields: seq<Field>, record: map<string, Json>, body: Json): map<string, Json>
  {
    if key in Members(body) then
      Members(MergePatch(Obj(record), Obj(Changeset(fields, Members(Members(body)[key])))))
    else record
  }

  // What a field says once an endpoint has read it.
  function ReadAs(f: Field, says: Says): Says
  {
    if IsNullable(f) && says == Assign(Str("")) then Clear else says
  }

  function AllReadAs(fields: seq<Field>, says: seq<Says>): (r: seq<Says>)
    requires |says| == |fields|
    ensures |r| == |fields| && forall i :: 0 <= i < |r| ==> r[i] == ReadAs(fields[i], says[i])
  {
    seq(|fields|, i requires 0 <= i < |fields| => ReadAs(fields[i], says[i]))
  }

  lemma {:induction false} ChangesetField(fields: seq<Field>, values: seq<GoValue>, i: nat)
    requires Regular(fields) && |values| == |fields| && i < |fields|
    ensures var k := fields[i].tag.name;
            var patch := Changeset(fields, EncodeStruct(fields, values));
            (k in patch <==> !Omitted(fields[i], values[i]))
            && (k in patch ==>
                  patch[k] == if IsNullable(fields[i]) && Marshal(values[i]) == Str("") then Null else Marshal(values[i]))
  {
    RegularField(fields, values, i);
  }

  // Through the changeset an update does what its fields say, but that Set("")
  // clears a nullable field.
  lemma {:induction false} ChangesetRefines(
      key: string, fields: seq<Field>, record: map<string, Json>, values: seq<GoValue>,
      names: seq<string>, says: seq<Says>)
    requires Regular(fields) && Speaks(fields, values, names, says) && NoObjects(values)
    ensures Does(record, Stored(key, fields, record, WrapBody(key, fields, To(values)).json), names,
                 AllReadAs(fields, says))
  {
    var body := EncodeStruct(fields, values);
    var patch := Changeset(fields, body);
    FlatBody(fields, values);
    var after := Stored(key, fields, record, WrapBody(key, fields, To(values)).json);
    assert after == Members(MergePatch(Obj(record), Obj(patch)));
    forall i | 0 <= i < |names|
      ensures Effect(record, after, names[i], AllReadAs(fields, says)[i])
    {
      ChangesetField(fields, values, i);
      FlatMerge(record, patch, names[i]);
    }
    forall k | k !in names
      ensures Effect(record, after, k, Keep)
    {
      EncodedKeys(fields, values, k);
      assert forall i :: 0 <= i < |fields| ==> fields[i].Key() == names[i];
      FlatMerge(record, patch, k);
    }
  }

  // ----- Updates in a row -----

  // Two updates in a row are the one update that combines them.
  lemma {:induction false} UpdatesCombine(
      key: string, fields: seq<Field>, record: map<string, Json>, first: seq<GoValue>, second: seq<GoValue>)
    requires Regular(fields) && |first| == |second| == |fields| && NoObjects(second)
    ensures Updated(key, fields, Updated(key, fields, record, first), second) ==
            Updated(key, fields, record, Combine(fields, first, second))
  {
    FlatBody(fields, second);
    CombineEncodes(fields, first, second);
    MergeCompose(Obj(record), EncodeStruct(fields, first), EncodeStruct(fields, second));
  }

  // Repeating an update changes nothing more.
  lemma {:induction false} UpdateIdempotent(key: string, fields: seq<Field>, record: map<string, Json>, values: seq<GoValue>)
    requires |values| == |fields|
    ensures Updated(key, fields, Updated(key, fields, record, values), values) ==
            Updated(key, fields, record, values)
  {
    MergeIdempotent(Obj(record), Obj(EncodeStruct(fields, values)));
  }

  // ----- Field kinds of the update structs -----

  function NullText(p: Ptr<Nullable<string>>): GoValue
  {
    match p
    case Nil => NilPointer
    case To(n) => PointerTo(NullValue(Text(n.value), n.valid))
  }

  function Flag(p: Ptr<bool>): GoValue
  {
    match p
    case Nil => NilPointer
    case To(b) => PointerTo(Plain(Bool(b)))
  }

  function TextSlice(s: GoSlice<string>): GoValue
  {
    match s
    case NoSlice => NilSlice
    case List(ss) => Elements(Texts(ss))
  }

  const STRING: GoType := Named("string", Strings)
  const BOOL: GoType := Named("bool", Booleans)

  function Omitempty(goName: string, goType: GoType, json: string): Field
  {
    Field(goName, goType, Tagged(json, true))
  }

  function Always(goName: string, goType: GoType, json: string): Field
  {
    Field(goName, goType, Tagged(json, false))
  }

  function TextSays(s: string): Says { if s == "" then Keep else Assign(Str(s)) }

  function NullTextSays(p: Ptr<Nullable<string>>): Says
  {
    if p.Nil? then Keep else if p.v.valid then Assign(Str(p.v.value)) else Clear
  }

  function FlagSays(p: Ptr<bool>): Says { if p.Nil? then Keep else Assign(Bool(p.v)) }

  // A pointer to a nil slice is sent as null; one to an empty slice as [].
  function ListSays<T>(p: Ptr<GoSlice<T>>, encode: T -> Json): Says
  {
    match p
    case Nil => Keep
    case To(NoSlice) => Clear
    case To(List(xs)) => Assign(Arr(seq(|xs|, i requires 0 <= i < |xs| => encode(xs[i]))))
  }

  predicate IsText(t: GoType) { t.Named? && t.kind.Strings? }

  lemma {:induction false} TextField(f: Field, s: string)
    requires f.OmitsEmpty() && IsText(f.goType)
    ensures FieldSays(f, Text(s)) == TextSays(s)
  {
    PlainFieldSays(f, Text(s));
  }

  lemma {:induction false} NullTextField(f: Field, p: Ptr<Nullable<string>>)
    requires f.OmitsEmpty() && f.goType.Pointer? && f.goType.elem.NullOf? && IsText(f.goType.elem.elem)
    ensures !Marshal(NullText(p)).Obj?
    ensures FieldSays(f, NullText(p)) == NullTextSays(p)
  {
    var e := f.goType.elem.elem;
    if p.To? {
      assert HasType(Text(p.v.value), e) && HasType(NullValue(Text(p.v.value), p.v.valid), NullOf(e));
    }
    NullFieldSays(f, e, NullText(p));
  }

  lemma {:induction false} FlagField(f: Field, p: Ptr<bool>)
    requires f.OmitsEmpty() && f.goType == Pointer(BOOL)
    ensures !Marshal(Flag(p)).Obj?
    ensures FieldSays(f, Flag(p)) == FlagSays(p)
  {
    if p.To? {
      assert HasType(Plain(Bool(p.v)), BOOL);
    }
    PointerFieldSays(f, BOOL, Flag(p));
  }

  function StructElems<T>(xs: seq<T>, encode: T -> Json): seq<GoValue>
  {
    if xs == [] then [] else [Plain(encode(xs[0]))] + StructElems(xs[1..], encode)
  }

  function StructSlice<T>(p: Ptr<GoSlice<T>>, encode: T -> Json): GoValue
  {
    match p
    case Nil => NilPointer
    case To(NoSlice) => PointerTo(NilSlice)
    case To(List(xs)) => PointerTo(Elements(StructElems(xs, encode)))
  }

  lemma {:induction false} MarshalStructs<T(!new)>(xs: seq<T>, encode: T -> Json)
    requires forall x :: encode(x).Obj?
    ensures MarshalAll(StructElems(xs, encode)) == seq(|xs|, i requires 0 <= i < |xs| => encode(xs[i]))
    ensures forall v :: v in StructElems(xs, encode) ==> v.Plain? && v.json.Obj?
  {
    if xs != [] {
      MarshalStructs(xs[1..], encode);
      assert StructElems(xs, encode)[1..] == StructElems(xs[1..], encode);
    }
  }

  lemma {:induction false} StructSliceField<T(!new)>(f: Field, p: Ptr<GoSlice<T>>, encode: T -> Json)
    requires f.OmitsEmpty() && f.goType.Pointer? && f.goType.elem.Slice?
    requires f.goType.elem.elem.Named? && f.goType.elem.elem.kind.Structs?
    requires forall x :: encode(x).Obj?
    ensures !Marshal(StructSlice(p, encode)).Obj?
    ensures FieldSays(f, StructSlice(p, encode)) == ListSays(p, encode)
  {
    var e := f.goType.elem.elem;
    if p.To? {
      var target := StructSlice(p, encode).target;
      if p.v.List? {
        MarshalStructs(p.v.elems, encode);
        assert forall i :: 0 <= i < |target.elems| ==> target.elems[i] in StructElems(p.v.elems, encode);
      }
      assert HasType(target, Slice(e));
    }
    SliceFieldSays(f, e, StructSlice(p, encode));
  }

  // ----- Resources -----

  datatype Filter = Filter(protocol: string, ports: GoSlice<string>)

  const FILTER_FIELDS: seq<Field> := [
    Always("Protocol", Named("FilterProtocol", Strings), "protocol"),
    Omitempty("Ports", Slice(STRING), "ports")]

  function FilterJSON(f: Filter): (j: Json)
    ensures j.Obj?
  {
    Obj(EncodeStruct(FILTER_FIELDS, [Text(f.protocol), TextSlice(f.ports)]))
  }

  // A list of these strings, in order.
  predicate IsTexts(j: Json, ss: seq<string>)
  {
    j.Arr? && |j.items| == |ss| && forall i :: 0 <= i < |ss| ==> j.items[i] == Str(ss[i])
  }

  predicate HasElements<T>(s: GoSlice<T>) { s.List? && s.elems != [] }

  // j is this filter: its protocol always, its ports if there are any.
  predicate IsFilter(j: Json, f: Filter)
  {
    && j.Obj?
    && j.members.Keys == (if HasElements(f.ports) then {"protocol", "ports"} else {"protocol"})
    && j.members["protocol"] == Str(f.protocol)
    && (HasElements(f.ports) ==> IsTexts(j.members["ports"], f.ports.elems))
  }

  lemma {:induction false} SliceOfTexts(s: GoSlice<string>)
    ensures s.List? ==> IsTexts(Marshal(TextSlice(s)), s.elems)
    ensures IsEmpty(TextSlice(s)) <==> !HasElements(s)
  {
    if s.List? {
      MarshalTexts(s.elems);
    }
  }

  lemma {:induction false} FilterEncodes(f: Filter)
    ensures IsFilter(FilterJSON(f), f)
  {
    var values := [Text(f.protocol), TextSlice(f.ports)];
    var body := EncodeStruct(FILTER_FIELDS, values);
    RegularField(FILTER_FIELDS, values, 0);
    RegularField(FILTER_FIELDS, values, 1);
    SliceOfTexts(f.ports);
    forall k | k in body
      ensures k == "protocol" || k == "ports"
    {
      EncodedKeys(FILTER_FIELDS, values, k);
    }
  }

  datatype UpdateResourceRequest = UpdateResourceRequest(
    name: string,
    kind: string,
    address: Ptr<Nullable<string>>,
    addressDescription: Ptr<Nullable<string>>,
    ipStack: Ptr<Nullable<string>>,
    siteID: Ptr<Nullable<string>>,
    filters: Ptr<GoSlice<Filter>>)

  const RESOURCE_FIELDS: seq<Field> := [
    Omitempty("Name", STRING, "name"),
    Omitempty("Type", Named("ResourceType", Strings), "type"),
    Omitempty("Address", Pointer(NullOf(STRING)), "address"),
    Omitempty("AddressDescription", Pointer(NullOf(STRING)), "address_description"),
    Omitempty("IPStack", Pointer(NullOf(Named("IPStack", Strings))), "ip_stack"),
    Omitempty("SiteID", Pointer(NullOf(STRING)), "site_id"),
    Omitempty("Filters", Pointer(Slice(Named("Filter", Structs))), "filters")]

  function ResourceValues(q: UpdateResourceRequest): (vs: seq<GoValue>)
    ensures |vs| == |RESOURCE_FIELDS|
  {
    [Text(q.name), Text(q.kind), NullText(q.address), NullText(q.addressDescription),
     NullText(q.ipStack), NullText(q.siteID), StructSlice(q.filters, FilterJSON)]
  }

  function UpdatedResource(record: map<string, Json>, q: UpdateResourceRequest): map<string, Json>
  {
    Updated("resource", RESOURCE_FIELDS, record, ResourceValues(q))
  }

  lemma {:induction false} ResourceFieldsRegular()
    ensures Regular(RESOURCE_FIELDS)
  {}

  const RESOURCE_NAMES: seq<string> := ["name", "type", "address", "address_description", "ip_stack", "site_id", "filters"]

  function ResourceSays(q: UpdateResourceRequest): seq<Says>
  {
    [TextSays(q.name), TextSays(q.kind), NullTextSays(q.address), NullTextSays(q.addressDescription),
     NullTextSays(q.ipStack), NullTextSays(q.siteID), ListSays(q.filters, FilterJSON)]
  }

  lemma {:induction false} ResourceSpeaks(q: UpdateResourceRequest)
    ensures Speaks(RESOURCE_FIELDS, ResourceValues(q), RESOURCE_NAMES, ResourceSays(q))
    ensures NoObjects(ResourceValues(q))
  {
    TextField(RESOURCE_FIELDS[0], q.name);
    TextField(RESOURCE_FIELDS[1], q.kind);
    NullTextField(RESOURCE_FIELDS[2], q.address);
    NullTextField(RESOURCE_FIELDS[3], q.addressDescription);
    NullTextField(RESOURCE_FIELDS[4], q.ipStack);
    NullTextField(RESOURCE_FIELDS[5], q.siteID);
    StructSliceField(RESOURCE_FIELDS[6], q.filters, FilterJSON);
  }

  // For every record and request: a field left nil or empty keeps its member,
  // Clear removes it, Set assigns it, and no other member changes.
  lemma {:induction false} ResourceUpdate(record: map<string, Json>, q: UpdateResourceRequest)
    ensures Does(record, UpdatedResource(record, q), RESOURCE_NAMES, ResourceSays(q))
  {
    ResourceFieldsRegular();
    ResourceSpeaks(q);
    UpdateRefines("resource", RESOURCE_FIELDS, record, ResourceValues(q), RESOURCE_NAMES, ResourceSays(q));
  }

  // The filters of a request replace the record's, each as it was given; no
  // pointer keeps them and a pointer to no slice removes them.
  lemma {:induction false} ResourceFilters(record: map<string, Json>, q: UpdateResourceRequest)
    ensures var after := UpdatedResource(record, q);
            match q.filters
            case Nil => Effect(record, after, "filters", Keep)
            case To(NoSlice) => "filters" !in after
            case To(List(fs)) =>
              && "filters" in after && after["filters"].Arr? && |after["filters"].items| == |fs|
              && forall i :: 0 <= i < |fs| ==> IsFilter(after["filters"].items[i], fs[i])
  {
    ResourceUpdate(record, q);
    FiltersSaid(q);
    if q.filters.To? && q.filters.v.List? {
      forall i | 0 <= i < |q.filters.v.elems|
        ensures IsFilter(FilterJSON(q.filters.v.elems[i]), q.filters.v.elems[i])
      {
        FilterEncodes(q.filters.v.elems[i]);
      }
    }
  }

  lemma {:induction false} FiltersSaid(q: UpdateResourceRequest)
    ensures RESOURCE_NAMES[6] == "filters" && |RESOURCE_NAMES| == 7
    ensures ResourceSays(q)[6] == ListSays(q.filters, FilterJSON)
  {}

  // The record after the endpoint's changeset has read the request.
  function StoredResource(record: map<string, Json>, q: UpdateResourceRequest): map<string, Json>
  {
    Stored("resource", RESOURCE_FIELDS, record, WrapBody("resource", RESOURCE_FIELDS, To(ResourceValues(q))).json)
  }

  function NullTextReadAs(p: Ptr<Nullable<string>>): Says
  {
    if p == SetTo("") then Clear else NullTextSays(p)
  }

  function ResourceReadAs(q: UpdateResourceRequest): seq<Says>
  {
    [TextSays(q.name), TextSays(q.kind), NullTextReadAs(q.address), NullTextReadAs(q.addressDescription),
     NullTextReadAs(q.ipStack), NullTextReadAs(q.siteID), ListSays(q.filters, FilterJSON)]
  }

  lemma {:induction false} NullableResourceFields(i: nat)
    requires i < |RESOURCE_FIELDS|
    ensures IsNullable(RESOURCE_FIELDS[i]) <==> 2 <= i <= 5
  {}

  lemma {:induction false} ResourceReads(q: UpdateResourceRequest)
    ensures AllReadAs(RESOURCE_FIELDS, ResourceSays(q)) == ResourceReadAs(q)
  {
    forall i | 0 <= i < |RESOURCE_FIELDS|
      ensures ReadAs(RESOURCE_FIELDS[i], ResourceSays(q)[i]) == ResourceReadAs(q)[i]
    {
      NullableResourceFields(i);
    }
  }

  // As ResourceUpdate, with an empty string clearing a nullable field.
  lemma {:induction false} ResourceStored(record: map<string, Json>, q: UpdateResourceRequest)
    ensures Does(record, StoredResource(record, q), RESOURCE_NAMES, ResourceReadAs(q))
  {
    ResourceFieldsRegular();
    ResourceSpeaks(q);
    ResourceReads(q);
    ChangesetRefines("resource", RESOURCE_FIELDS, record, ResourceValues(q), RESOURCE_NAMES, ResourceSays(q));
  }

  lemma {:induction false} AddressRead(q: UpdateResourceRequest)
    ensures RESOURCE_NAMES[2] == "address" && ResourceReadAs(q)[2] == NullTextReadAs(q.address)
  {}

  lemma {:induction false} ResourceAddress(record: map<string, Json>, q: UpdateResourceRequest)
    ensures Effect(record, StoredResource(record, q), "address", NullTextReadAs(q.address))
  {
    ResourceStored(record, q);
    AddressRead(q);
  }

  // Whatever else a request says, its address is kept by nil, removed by Clear
  // and by setting it to the empty string, and assigned by any other Set.
  lemma {:induction false} AddressThreeStates(record: map<string, Json>, q: UpdateResourceRequest, v: string)
    ensures Effect(record, StoredResource(record, q.(address := Nil)), "address", Keep)
    ensures Effect(record, StoredResource(record, q.(address := Cleared(""))), "address", Clear)
    ensures Effect(record, StoredResource(record, q.(address := SetTo(v))), "address",
                   if v == "" then Clear else Assign(Str(v)))
  {
    ResourceAddress(record, q.(address := Nil));
    ResourceAddress(record, q.(address := Cleared("")));
    ResourceAddress(record, q.(address := SetTo(v)));
  }

  function Later<T>(a: Ptr<T>, b: Ptr<T>): Ptr<T> { if b.Nil? then a else b }

  function LaterText(a: string, b: string): string { if b == "" then a else b }

  function CombinedResource(a: UpdateResourceRequest, b: UpdateResourceRequest): UpdateResourceRequest
  {
    UpdateResourceRequest(
      LaterText(a.name, b.name), LaterText(a.kind, b.kind), Later(a.address, b.address),
      Later(a.addressDescription, b.addressDescription), Later(a.ipStack, b.ipStack),
      Later(a.siteID, b.siteID), Later(a.filters, b.filters))
  }

  lemma {:induction false} ResourceCombines(a: UpdateResourceRequest, b: UpdateResourceRequest)
    ensures Combine(RESOURCE_FIELDS, ResourceValues(a), ResourceValues(b)) == ResourceValues(CombinedResource(a, b))
  {
    var c, want := Combine(RESOURCE_FIELDS, ResourceValues(a), ResourceValues(b)), ResourceValues(CombinedResource(a, b));
    assert c[0] == want[0];
    assert c[1] == want[1];
    assert c[2] == want[2];
    assert c[3] == want[3];
    assert c[4] == want[4];
    assert c[5] == want[5];
    assert c[6] == want[6];
  }

  lemma {:induction false} ResourceUpdatesCombine(record: map<string, Json>, a: UpdateResourceRequest, b: UpdateResourceRequest)
    ensures UpdatedResource(UpdatedResource(record, a), b) == UpdatedResource(record, CombinedResource(a, b))
  {
    ResourceFieldsRegular();
    ResourceSpeaks(b);
    ResourceCombines(a, b);
    UpdatesCombine("resource", RESOURCE_FIELDS, record, ResourceValues(a), ResourceValues(b));
  }

  // ----- Policies -----

  datatype Condition = Condition(property: string, operator: string, values: GoSlice<string>)

  const CONDITION_FIELDS: seq<Field> := [
    Always("Property", Named("ConditionProperty", Strings), "property"),
    Always("Operator", Named("ConditionOperator", Strings), "operator"),
    Always("Values", Slice(STRING), "values")]

  function ConditionJSON(c: Condition): (j: Json)
    ensures j.Obj?
  {
    Obj(EncodeStruct(CONDITION_FIELDS, ConditionValues(c)))
  }

  // j is this condition, with null for a slice there is none of.
  predicate IsCondition(j: Json, c: Condition)
  {
    && j.Obj?
    && j.members.Keys == {"property", "operator", "values"}
    && j.members["property"] == Str(c.property)
    && j.members["operator"] == Str(c.operator)
    && (if c.values.List? then IsTexts(j.members["values"], c.values.elems) else j.members["values"] == Null)
  }

  function ConditionValues(c: Condition): seq<GoValue>
  {
    [Text(c.property), Text(c.operator), TextSlice(c.values)]
  }

  lemma {:induction false} ConditionFieldsRegular()
    ensures Regular(CONDITION_FIELDS)
    ensures CONDITION_FIELDS[0].tag == Tagged("property", false)
    ensures CONDITION_FIELDS[1].tag == Tagged("operator", false)
    ensures CONDITION_FIELDS[2].tag == Tagged("values", false)
  {}

  lemma {:induction false} ConditionMembers(c: Condition)
    ensures var body := EncodeStruct(CONDITION_FIELDS, ConditionValues(c));
            && body.Keys == {"property", "operator", "values"}
            && body["property"] == Str(c.property)
            && body["operator"] == Str(c.operator)
            && body["values"] == Marshal(TextSlice(c.values))
  {
    var values := ConditionValues(c);
    var body := EncodeStruct(CONDITION_FIELDS, values);
    ConditionFieldsRegular();
    RegularField(CONDITION_FIELDS, values, 0);
    RegularField(CONDITION_FIELDS, values, 1);
    RegularField(CONDITION_FIELDS, values, 2);
    forall k | k in body
      ensures k in {"property", "operator", "values"}
    {
      KeysAreNames(CONDITION_FIELDS, values, k);
    }
  }

  lemma {:induction false} ConditionEncodes(c: Condition)
    ensures IsCondition(ConditionJSON(c), c)
  {
    ConditionMembers(c);
    SliceOfTexts(c.values);
  }

  datatype UpdatePolicyRequest = UpdatePolicyRequest(
    groupID: string,
    resourceID: string,
    description: Ptr<Nullable<string>>,
    flowLogUploadsEnabled: Ptr<bool>,
    isDisabled: Ptr<bool>,
    conditions: Ptr<GoSlice<Condition>>)

  const POLICY_FIELDS: seq<Field> := [
    Omitempty("GroupID", STRING, "group_id"),
    Omitempty("ResourceID", STRING, "resource_id"),
    Omitempty("Description", Pointer(NullOf(STRING)), "description"),
    Omitempty("FlowLogUploadsEnabled", Pointer(BOOL), "flow_log_uploads_enabled"),
    Omitempty("IsDisabled", Pointer(BOOL), "is_disabled"),
    Omitempty("Conditions", Pointer(Slice(Named("Condition", Structs))), "conditions")]

  function PolicyValues(q: UpdatePolicyRequest): (vs: seq<GoValue>)
    ensures |vs| == |POLICY_FIELDS|
  {
    [Text(q.groupID), Text(q.resourceID), NullText(q.description), Flag(q.flowLogUploadsEnabled),
     Flag(q.isDisabled), StructSlice(q.conditions, ConditionJSON)]
  }

  function UpdatedPolicy(record: map<string, Json>, q: UpdatePolicyRequest): map<string, Json>
  {
    Updated("policy", POLICY_FIELDS, record, PolicyValues(q))
  }

  lemma {:induction false} PolicyFieldsRegular()
    ensures Regular(POLICY_FIELDS)
  {}

  const POLICY_NAMES: seq<string> := ["group_id", "resource_id", "description", "flow_log_uploads_enabled", "is_disabled", "conditions"]

  function PolicySays(q: UpdatePolicyRequest): seq<Says>
  {
    [TextSays(q.groupID), TextSays(q.resourceID), NullTextSays(q.description), FlagSays(q.flowLogUploadsEnabled),
     FlagSays(q.isDisabled), ListSays(q.conditions, ConditionJSON)]
  }

  lemma {:induction false} PolicySpeaks(q: UpdatePolicyRequest)
    ensures Speaks(POLICY_FIELDS, PolicyValues(q), POLICY_NAMES, PolicySays(q))
    ensures NoObjects(PolicyValues(q))
  {
    TextField(POLICY_FIELDS[0], q.groupID);
    TextField(POLICY_FIELDS[1], q.resourceID);
    NullTextField(POLICY_FIELDS[2], q.description);
    FlagField(POLICY_FIELDS[3], q.flowLogUploadsEnabled);
    FlagField(POLICY_FIELDS[4], q.isDisabled);
    StructSliceField(POLICY_FIELDS[5], q.conditions, ConditionJSON);
  }

  lemma {:induction false} PolicyUpdate(record: map<string, Json>, q: UpdatePolicyRequest)
    ensures Does(record, UpdatedPolicy(record, q), POLICY_NAMES, PolicySays(q))
  {
    PolicyFieldsRegular();
    PolicySpeaks(q);
    UpdateRefines("policy", POLICY_FIELDS, record, PolicyValues(q), POLICY_NAMES, PolicySays(q));
  }

  lemma {:induction false} PolicyConditions(record: map<string, Json>, q: UpdatePolicyRequest)
    ensures var after := UpdatedPolicy(record, q);
            match q.conditions
            case Nil => Effect(record, after, "conditions", Keep)
            case To(NoSlice) => "conditions" !in after
            case To(List(cs)) =>
              && "conditions" in after && after["conditions"].Arr? && |after["conditions"].items| == |cs|
              && forall i :: 0 <= i < |cs| ==> IsCondition(after["conditions"].items[i], cs[i])
  {
    PolicyUpdate(record, q);
    ConditionsSaid(q);
    if q.conditions.To? && q.conditions.v.List? {
      forall i | 0 <= i < |q.conditions.v.elems|
        ensures IsCondition(ConditionJSON(q.conditions.v.elems[i]), q.conditions.v.elems[i])
      {
        ConditionEncodes(q.conditions.v.elems[i]);
      }
    }
  }

  lemma {:induction false} ConditionsSaid(q: UpdatePolicyRequest)
    ensures POLICY_NAMES[5] == "conditions" && |POLICY_NAMES| == 6
    ensures PolicySays(q)[5] == ListSays(q.conditions, ConditionJSON)
  {}

  function CombinedPolicy(a: UpdatePolicyRequest, b: UpdatePolicyRequest): UpdatePolicyRequest
  {
    UpdatePolicyRequest(
      LaterText(a.groupID, b.groupID), LaterText(a.resourceID, b.resourceID), Later(a.description, b.description),
      Later(a.flowLogUploadsEnabled, b.flowLogUploadsEnabled), Later(a.isDisabled, b.isDisabled),
      Later(a.conditions, b.conditions))
  }

  lemma {:induction false} PolicyCombines(a: UpdatePolicyRequest, b: UpdatePolicyRequest)
    ensures Combine(POLICY_FIELDS, PolicyValues(a), PolicyValues(b)) == PolicyValues(CombinedPolicy(a, b))
  {
    var c, want := Combine(POLICY_FIELDS, PolicyValues(a), PolicyValues(b)), PolicyValues(CombinedPolicy(a, b));
    assert c[0] == want[0];
    assert c[1] == want[1];
    assert c[2] == want[2];
    assert c[3] == want[3];
    assert c[4] == want[4];
    assert c[5] == want[5];
  }

  lemma {:induction false} PolicyUpdatesCombine(record: map<string, Json>, a: UpdatePolicyRequest, b: UpdatePolicyRequest)
    ensures UpdatedPolicy(UpdatedPolicy(record, a), b) == UpdatedPolicy(record, CombinedPolicy(a, b))
  {
    PolicyFieldsRegular();
    PolicySpeaks(b);
    PolicyCombines(a, b);
    UpdatesCombine("policy", POLICY_FIELDS, record, PolicyValues(a), PolicyValues(b));
  }

  // Disable and Enable.
  function SwitchPolicy(disabled: bool): UpdatePolicyRequest
  {
    UpdatePolicyRequest("", "", Nil, Nil, To(disabled), Nil)
  }

  // ----- Actors -----

  datatype UpdateActorRequest = UpdateActorRequest(
    name: string,
    kind: string,
    email: Ptr<Nullable<string>>,
    allowEmailOTPSignIn: Ptr<bool>,
    isDisabled: Ptr<bool>)

  const ACTOR_FIELDS: seq<Field> := [
    Omitempty("Name", STRING, "name"),
    Omitempty("Type", Named("ActorType", Strings), "type"),
    Omitempty("Email", Pointer(NullOf(STRING)), "email"),
    Omitempty("AllowEmailOTPSignIn", Pointer(BOOL), "allow_email_otp_sign_in"),
    Omitempty("IsDisabled", Pointer(BOOL), "is_disabled")]

  function ActorValues(q: UpdateActorRequest): (vs: seq<GoValue>)
    ensures |vs| == |ACTOR_FIELDS|
  {
    [Text(q.name), Text(q.kind), NullText(q.email), Flag(q.allowEmailOTPSignIn), Flag(q.isDisabled)]
  }

  function UpdatedActor(record: map<string, Json>, q: UpdateActorRequest): map<string, Json>
  {
    Updated("actor", ACTOR_FIELDS, record, ActorValues(q))
  }

  lemma {:induction false} ActorFieldsRegular()
    ensures Regular(ACTOR_FIELDS)
  {}

  const ACTOR_NAMES: seq<string> := ["name", "type", "email", "allow_email_otp_sign_in", "is_disabled"]

  function ActorSays(q: UpdateActorRequest): seq<Says>
  {
    [TextSays(q.name), TextSays(q.kind), NullTextSays(q.email), FlagSays(q.allowEmailOTPSignIn), FlagSays(q.isDisabled)]
  }

  lemma {:induction false} ActorSpeaks(q: UpdateActorRequest)
    ensures Speaks(ACTOR_FIELDS, ActorValues(q), ACTOR_NAMES, ActorSays(q))
    ensures NoObjects(ActorValues(q))
  {
    TextField(ACTOR_FIELDS[0], q.name);
    TextField(ACTOR_FIELDS[1], q.kind);
    NullTextField(ACTOR_FIELDS[2], q.email);
    FlagField(ACTOR_FIELDS[3], q.allowEmailOTPSignIn);
    FlagField(ACTOR_FIELDS[4], q.isDisabled);
  }

  lemma {:induction false} ActorUpdate(record: map<string, Json>, q: UpdateActorRequest)
    ensures Does(record, UpdatedActor(record, q), ACTOR_NAMES, ActorSays(q))
  {
    ActorFieldsRegular();
    ActorSpeaks(q);
    UpdateRefines("actor", ACTOR_FIELDS, record, ActorValues(q), ACTOR_NAMES, ActorSays(q));
  }

  function CombinedActor(a: UpdateActorRequest, b: UpdateActorRequest): UpdateActorRequest
  {
    UpdateActorRequest(
      LaterText(a.name, b.name), LaterText(a.kind, b.kind), Later(a.email, b.email),
      Later(a.allowEmailOTPSignIn, b.allowEmailOTPSignIn), Later(a.isDisabled, b.isDisabled))
  }

  lemma {:induction false} ActorCombines(a: UpdateActorRequest, b: UpdateActorRequest)
    ensures Combine(ACTOR_FIELDS, ActorValues(a), ActorValues(b)) == ActorValues(CombinedActor(a, b))
  {
    var c, want := Combine(ACTOR_FIELDS, ActorValues(a), ActorValues(b)), ActorValues(CombinedActor(a, b));
    assert c[0] == want[0];
    assert c[1] == want[1];
    assert c[2] == want[2];
    assert c[3] == want[3];
    assert c[4] == want[4];
  }

  lemma {:induction false} ActorUpdatesCombine(record: map<string, Json>, a: UpdateActorRequest, b: UpdateActorRequest)
    ensures UpdatedActor(UpdatedActor(record, a), b) == UpdatedActor(record, CombinedActor(a, b))
  {
    ActorFieldsRegular();
    ActorSpeaks(b);
    ActorCombines(a, b);
    UpdatesCombine("actor", ACTOR_FIELDS, record, ActorValues(a), ActorValues(b));
  }

  function SwitchActor(disabled: bool): UpdateActorRequest
  {
    UpdateActorRequest("", "", Nil, Nil, To(disabled))
  }

  // Doing nothing to any member but one, and assigning that one.
  lemma {:induction false} DoesOne(before: map<string, Json>, after: map<string, Json>, names: seq<string>, says: seq<Says>, i: nat, j: Json)
    requires Does(before, after, names, says) && i < |names|
    requires says[i] == Assign(j) && forall n :: 0 <= n < |says| && n != i ==> says[n] == Keep
    ensures after == before[names[i] := j]
  {
    var want := before[names[i] := j];
    assert Effect(before, after, names[i], Assign(j));
    forall k
      ensures k in after <==> k in want
      ensures k in after ==> after[k] == want[k]
    {
      if k !in names {
        assert Effect(before, after, k, Keep);
      } else if k != names[i] {
        var n :| 0 <= n < |names| && names[n] == k;
        assert Effect(before, after, names[n], says[n]);
      }
    }
  }

  lemma {:induction false} PolicySwitchSays(disabled: bool)
    ensures var says := PolicySays(SwitchPolicy(disabled));
            && says[4] == Assign(Bool(disabled))
            && forall n :: 0 <= n < |says| && n != 4 ==> says[n] == Keep
  {}

  // Disable and Enable touch is_disabled alone.
  lemma {:induction false} SwitchPolicyTouchesOnlyIsDisabled(record: map<string, Json>, disabled: bool)
    ensures UpdatedPolicy(record, SwitchPolicy(disabled)) == record["is_disabled" := Bool(disabled)]
  {
    var q := SwitchPolicy(disabled);
    var after := UpdatedPolicy(record, q);
    PolicyUpdate(record, q);
    PolicySwitchSays(disabled);
    assert POLICY_NAMES[4] == "is_disabled";
    DoesOne(record, after, POLICY_NAMES, PolicySays(q), 4, Bool(disabled));
  }

  // Repeating one changes nothing, and of two in a row only the last counts.
  lemma {:induction false} LastPolicySwitchWins(record: map<string, Json>, first: bool, last: bool)
    ensures UpdatedPolicy(UpdatedPolicy(record, SwitchPolicy(first)), SwitchPolicy(last)) ==
            UpdatedPolicy(record, SwitchPolicy(last))
  {
    var a, b := SwitchPolicy(first), SwitchPolicy(last);
    assert CombinedPolicy(a, b) == b;
    PolicyUpdatesCombine(record, a, b);
  }

  lemma {:induction false} ActorSwitchSays(disabled: bool)
    ensures var says := ActorSays(SwitchActor(disabled));
            && says[4] == Assign(Bool(disabled))
            && forall n :: 0 <= n < |says| && n != 4 ==> says[n] == Keep
  {}

  // Disable and Enable touch is_disabled alone.
  lemma {:induction false} SwitchActorTouchesOnlyIsDisabled(record: map<string, Json>, disabled: bool)
    ensures UpdatedActor(record, SwitchActor(disabled)) == record["is_disabled" := Bool(disabled)]
  {
    var q := SwitchActor(disabled);
    var after := UpdatedActor(record, q);
    ActorUpdate(record, q);
    ActorSwitchSays(disabled);
    assert ACTOR_NAMES[4] == "is_disabled";
    DoesOne(record, after, ACTOR_NAMES, ActorSays(q), 4, Bool(disabled));
  }

  // Repeating one changes nothing, and of two in a row only the last counts.
  lemma {:induction false} LastActorSwitchWins(record: map<string, Json>, first: bool, last: bool)
    ensures UpdatedActor(UpdatedActor(record, SwitchActor(first)), SwitchActor(last)) ==
            UpdatedActor(record, SwitchActor(last))
  {
    var a, b := SwitchActor(first), SwitchActor(last);
    assert CombinedActor(a, b) == b;
    ActorUpdatesCombine(record, a, b);
  }
}
