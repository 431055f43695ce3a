// The part of Go's encoding/json that request bodies rely on: struct fields,
// their tags, omitempty, and the pointer, slice and Null types of null.go.
module GoEncoding {
  import opened Json

  // What a named type, predeclared or not, is underneath.
  datatype Kind = Booleans | Numbers | Strings | Structs

  datatype GoType =
    | Named(name: string, kind: Kind)
    | Pointer(elem: GoType)
    | Slice(elem: GoType)
    | NullOf(elem: GoType)

  // A Plain value is a boolean, number, string or struct, given by its encoding.
  datatype GoValue =
    | Plain(json: Json)
    | NilPointer
    | PointerTo(target: GoValue)
    | NilSlice
    | Elements(elems: seq<GoValue>)
    | NullValue(value: GoValue, valid: bool)

  predicate HasKind(j: Json, k: Kind)
  {
    match k
    case Booleans => j.Bool?
    case Numbers => j.Num?
    case Strings => j.Str?
    case Structs => j.Obj?
  }

  predicate HasType(v: GoValue, t: GoType)
  {
    match t
    case Named(_, k) => v.Plain? && HasKind(v.json, k)
    case Pointer(e) => v.NilPointer? || (v.PointerTo? && HasType(v.target, e))
    case Slice(e) => v.NilSlice? || (v.Elements? && forall i :: 0 <= i < |v.elems| ==> HasType(v.elems[i], e))
    case NullOf(e) => v.NullValue? && HasType(v.value, e)
  }

  // What omitempty drops: false, zero, nil pointers, and strings and slices of
  // length zero. A struct - a Null among them - is never empty.
  predicate IsEmpty(v: GoValue)
  {
    match v
    case Plain(j) => j == Bool(false) || j == Num(0) || j == Str("")
    case NilPointer => true
    case NilSlice => true
    case Elements(vs) => vs == []
    case PointerTo(_) => false
    case NullValue(_, _) => false
  }

  function Marshal(v: GoValue): Json
  {
    match v
    case Plain(j) => j
    case NilPointer => Null
    case PointerTo(target) => Marshal(target)
    case NilSlice => Null
    case Elements(vs) => Arr(MarshalAll(vs))
    case NullValue(value, valid) => if valid then Marshal(value) else Null
  }

  function MarshalAll(vs: seq<GoValue>): seq<Json>
  {
    if vs == [] then [] else [Marshal(vs[0])] + MarshalAll(vs[1..])
  }

  function Text(s: string): GoValue { Plain(Str(s)) }

  function Texts(ss: seq<string>): seq<GoValue>
  {
    if ss == [] then [] else [Text(ss[0])] + Texts(ss[1..])
  }

  lemma {:induction false} MarshalTexts(ss: seq<string>)
    ensures var js := MarshalAll(Texts(ss)); |js| == |ss| && forall i :: 0 <= i < |ss| ==> js[i] == Str(ss[i])
  {
    if ss != [] {
      MarshalTexts(ss[1..]);
      assert Texts(ss)[1..] == Texts(ss[1..]);
    }
  }

  // ----- Struct fields -----

  datatype Tag = Untagged | Dash | Tagged(name: string, omitEmpty: bool)

  datatype Field = Field(goName: string, goType: GoType, tag: Tag)
  {
    predicate Exported() { goName != "" && 'A' <= goName[0] <= 'Z' }

    predicate NamedByTag() { tag.Tagged? && tag.name != "" }

    predicate OmitsEmpty() { tag.Tagged? && tag.omitEmpty }

    // encoding/json looks at this field at all.
    predicate Visible() { Exported() && !tag.Dash? }

    // The key it competes for.
    function Key(): string { if NamedByTag() then tag.name else goName }
  }

  // Of the visible fields with one key, one named by its tag beats those named
  // by their Go name; when that leaves more than one, all of them are dropped.
  predicate Dominant(fields: seq<Field>, i: nat)
    requires i < |fields|
  {
    && fields[i].Visible()
    && forall j :: 0 <= j < |fields| && j != i && fields[j].Visible() && fields[j].Key() == fields[i].Key() ==>
         fields[i].NamedByTag() && !fields[j].NamedByTag()
  }

  predicate ValuesFit(fields: seq<Field>, values: seq<GoValue>)
  {
    |values| == |fields| && forall i :: 0 <= i < |fields| ==> HasType(values[i], fields[i].goType)
  }

  predicate Omitted(f: Field, v: GoValue)
  {
    f.OmitsEmpty() && IsEmpty(v)
  }

  predicate IsSent(fields: seq<Field>, values: seq<GoValue>, i: nat)
    requires |values| == |fields|
  {
    i < |fields| && Dominant(fields, i) && !Omitted(fields[i], values[i])
  }

  // json.Marshal of a struct.
  function EncodeStruct(fields: seq<Field>, values: seq<GoValue>): map<string, Json>
    requires |values| == |fields|
  {
    map i | 0 <= i < |fields| && IsSent(fields, values, i) :: fields[i].Key() := Marshal(values[i])
  }

  lemma {:induction false} EncodedKeys(fields: seq<Field>, values: seq<GoValue>, k: string)
    requires |values| == |fields|
    ensures k in EncodeStruct(fields, values) <==>
            exists i :: 0 <= i < |fields| && IsSent(fields, values, i) && fields[i].Key() == k
  {}

  // Of two fields with one key the one named by its tag is sent, unless the other
  // is too.
  lemma {:induction false} TagBeatsGoName(f: Field, g: Field, values: seq<GoValue>)
    requires f.Exported() && g.Exported() && !g.tag.Dash? && |values| == 2
    requires f.NamedByTag() && !f.tag.omitEmpty && f.tag.name == g.Key()
    ensures EncodeStruct([f, g], values) == if g.NamedByTag() then map[] else map[f.tag.name := Marshal(values[0])]
  {
    var fields := [f, g];
    assert Dominant(fields, 0) <==> !g.NamedByTag() by {
      assert fields[1] == g;
    }
    assert !Dominant(fields, 1) by {
      assert fields[0] == f;
    }
  }

  // Fields as request structs are written: exported, named by their tags, and
  // no name used twice.
  predicate Regular(fields: seq<Field>)
  {
    && (forall i :: 0 <= i < |fields| ==> fields[i].Exported() && fields[i].NamedByTag())
    && (forall i, j :: 0 <= i < j < |fields| ==> fields[i].tag.name != fields[j].tag.name)
  }

  // In a regular struct a field decides alone whether and how its key is sent.
  lemma {:induction false} RegularField(fields: seq<Field>, values: seq<GoValue>, i: nat)
    requires Regular(fields) && |values| == |fields| && i < |fields|
    ensures Dominant(fields, i)
    ensures var body := EncodeStruct(fields, values);
            var k := fields[i].tag.name;
            && (k in body <==> !Omitted(fields[i], values[i]))
            && (k in body ==> body[k] == Marshal(values[i]))
  {
    assert Dominant(fields, i);
    var k := fields[i].tag.name;
    if Omitted(fields[i], values[i]) {
      forall j | 0 <= j < |fields| && fields[j].Key() == k
        ensures !IsSent(fields, values, j)
      {
        assert j == i;
      }
    } else {
      assert IsSent(fields, values, i);
    }
  }

  // ----- What a field can say -----

  // The three things a merge-patch field can say about its member.
  datatype Says = Keep | Clear | Assign(json: Json)

  function FieldSays(f: Field, v: GoValue): Says
  {
    if Omitted(f, v) then Keep else if Marshal(v).Null? then Clear else Assign(Marshal(v))
  }

  // A *Null[T] keeps when nil and omittable, clears when invalid, and assigns
  // exactly when valid: with omitempty all three states are reachable.
  lemma {:induction false} NullFieldSays(f: Field, e: GoType, v: GoValue)
    requires e.Named? && f.goType == Pointer(NullOf(e)) && HasType(v, f.goType)
    ensures FieldSays(f, v).Keep? <==> f.OmitsEmpty() && v.NilPointer?
    ensures FieldSays(f, v).Assign? <==> v.PointerTo? && v.target.NullValue? && v.target.valid
    ensures FieldSays(f, v).Assign? ==> v.target.value.Plain? && FieldSays(f, v) == Assign(v.target.value.json)
    ensures FieldSays(f, v).Clear? <==>
              (v.NilPointer? && !f.OmitsEmpty()) || (v.PointerTo? && v.target.NullValue? && !v.target.valid)
  {
    if v.PointerTo? {
      assert HasType(v.target, NullOf(e)) && HasType(v.target.value, e);
      assert Marshal(v) == Marshal(v.target) && Marshal(v.target.value) == v.target.value.json;
    }
  }

  // A *[]T sends the elements of a slice, and so an empty list exactly for a
  // pointer to an empty, non-nil slice; a pointer to a nil slice is sent as null.
  lemma {:induction false} SliceFieldSays(f: Field, e: GoType, v: GoValue)
    requires e.Named? && f.goType == Pointer(Slice(e)) && HasType(v, f.goType)
    ensures FieldSays(f, v).Keep? <==> f.OmitsEmpty() && v.NilPointer?
    ensures v.PointerTo? && v.target.Elements? ==> FieldSays(f, v) == Assign(Arr(MarshalAll(v.target.elems)))
    ensures FieldSays(f, v) == Assign(Arr([])) <==> v == PointerTo(Elements([]))
    ensures FieldSays(f, v).Clear? <==> (v.NilPointer? && !f.OmitsEmpty()) || v == PointerTo(NilSlice)
  {
    if v.PointerTo? {
      assert HasType(v.target, Slice(e)) && Marshal(v) == Marshal(v.target);
      if v.target.Elements? && v.target.elems != [] {
        assert |MarshalAll(v.target.elems)| > 0;
      }
    }
  }

  // A plain value never clears; with omitempty its zero value keeps.
  lemma {:induction false} PlainFieldSays(f: Field, v: GoValue)
    requires f.goType.Named? && HasType(v, f.goType)
    ensures FieldSays(f, v) == if f.OmitsEmpty() && IsEmpty(v) then Keep else Assign(v.json)
  {}

  // A pointer to a plain value clears only when nil and not omittable; through
  // it every value can be assigned, the zero value included.
  lemma {:induction false} PointerFieldSays(f: Field, e: GoType, v: GoValue)
    requires e.Named? && f.goType == Pointer(e) && HasType(v, f.goType)
    ensures FieldSays(f, v).Keep? <==> f.OmitsEmpty() && v.NilPointer?
    ensures FieldSays(f, v).Clear? <==> v.NilPointer? && !f.OmitsEmpty()
    ensures v.PointerTo? ==> v.target.Plain? && FieldSays(f, v) == Assign(v.target.json)
  {
    if v.PointerTo? {
      assert HasType(v.target, e) && Marshal(v) == Marshal(v.target);
    }
  }

  // ----- Sequencing two bodies of one struct -----

  // Field by field, the later value unless it would be omitted.
  function Combine(fields: seq<Field>, first: seq<GoValue>, second: seq<GoValue>): (r: seq<GoValue>)
    requires |first| == |second| == |fields|
    ensures |r| == |fields|
    ensures forall i :: 0 <= i < |r| ==> r[i] == if Omitted(fields[i], second[i]) then first[i] else second[i]
  {
    seq(|fields|, i requires 0 <= i < |fields| => if Omitted(fields[i], second[i]) then first[i] else second[i])
  }

  lemma {:induction false} CombineField(fields: seq<Field>, first: seq<GoValue>, second: seq<GoValue>, i: nat)
    requires Regular(fields) && |first| == |second| == |fields| && i < |fields|
    ensures var body := EncodeStruct(fields, Combine(fields, first, second));
            var both := EncodeStruct(fields, first) + EncodeStruct(fields, second);
            var k := fields[i].tag.name;
            (k in body <==> k in both) && (k in body ==> body[k] == both[k])
  {
    RegularField(fields, Combine(fields, first, second), i);
    RegularField(fields, first, i);
    RegularField(fields, second, i);
  }

  lemma {:induction false} KeysAreNames(fields: seq<Field>, values: seq<GoValue>, k: string)
    requires Regular(fields) && |values| == |fields|
    requires k in EncodeStruct(fields, values)
    ensures exists i :: 0 <= i < |fields| && fields[i].tag.name == k
  {
    EncodedKeys(fields, values, k);
    var i :| 0 <= i < |fields| && IsSent(fields, values, i) && fields[i].Key() == k;
    assert fields[i].tag.name == k;
  }

  lemma {:induction false} CombineKey(fields: seq<Field>, first: seq<GoValue>, second: seq<GoValue>, k: string)
    requires Regular(fields) && |first| == |second| == |fields|
    ensures var body := EncodeStruct(fields, Combine(fields, first, second));
            var both := EncodeStruct(fields, first) + EncodeStruct(fields, second);
            (k in body <==> k in both) && (k in body ==> body[k] == both[k])
  {
    if i :| 0 <= i < |fields| && fields[i].tag.name == k {
      CombineField(fields, first, second, i);
    } else {
      var c := Combine(fields, first, second);
      if k in EncodeStruct(fields, c) {
        KeysAreNames(fields, c, k);
      }
      if k in EncodeStruct(fields, first) {
        KeysAreNames(fields, first, k);
      }
      if k in EncodeStruct(fields, second) {
        KeysAreNames(fields, second, k);
      }
    }
  }

  lemma {:induction false} CombineEncodes(fields: seq<Field>, first: seq<GoValue>, second: seq<GoValue>)
    requires Regular(fields) && |first| == |second| == |fields|
    ensures EncodeStruct(fields, Combine(fields, first, second)) ==
            EncodeStruct(fields, first) + EncodeStruct(fields, second)
  {
    var body := EncodeStruct(fields, Combine(fields, first, second));
    var both := EncodeStruct(fields, first) + EncodeStruct(fields, second);
    forall k
      ensures (k in body <==> k in both) && (k in body ==> body[k] == both[k])
    {
      CombineKey(fields, first, second, k);
    }
  }
}
