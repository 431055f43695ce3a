// The text of validation errors (errors.go), which must not depend on the order
// a map happens to be ranged over.
module ErrorText {
  import opened ByteStrings

  type FieldErrors = map<Bytes, seq<Bytes>>

  function FieldText(errs: FieldErrors, field: Bytes): Bytes
    requires field in errs
  {
    field + ": " + Join(errs[field], ", ")
  }

  function FieldTexts(errs: FieldErrors, fields: seq<Bytes>): (r: seq<Bytes>)
    requires forall f :: f in fields ==> f in errs
    ensures |r| == |fields|
    ensures forall i :: 0 <= i < |fields| ==> r[i] == FieldText(errs, fields[i])
  {
    if fields == [] then [] else [FieldText(errs, fields[0])] + FieldTexts(errs, fields[1..])
  }

  // Every field once, in ascending byte order, its messages as given.
  ghost predicate Canonical(errs: FieldErrors, text: Bytes)
  {
    exists fields :: && Ascending(fields)
                     && (forall f :: f in fields <==> f in errs)
                     && text == Join(FieldTexts(errs, fields), "; ")
  }

  // There is one canonical text.
  lemma {:induction false} CanonicalUnique(errs: FieldErrors, a: Bytes, b: Bytes)
    requires Canonical(errs, a) && Canonical(errs, b)
    ensures a == b
  {
    var f :| && Ascending(f) && (forall x :: x in f <==> x in errs) && a == Join(FieldTexts(errs, f), "; ");
    var g :| && Ascending(g) && (forall x :: x in g <==> x in errs) && b == Join(FieldTexts(errs, g), "; ");
    AscendingUnique(f, g);
  }

  // ----- Reading the text back -----

  // The fields with their messages, as a reader of the text takes it apart.
  function ReadField(part: Bytes): (Bytes, seq<Bytes>)
  {
    var i := PairIndex(part, ':', ' ', 0);
    if i == |part| then (part, []) else (part[..i], SplitPair(part[i + 2..], ',', ' '))
  }

  function ReadFields(parts: seq<Bytes>): (r: seq<(Bytes, seq<Bytes>)>)
    ensures |r| == |parts| && forall i :: 0 <= i < |parts| ==> r[i] == ReadField(parts[i])
  {
    if parts == [] then [] else [ReadField(parts[0])] + ReadFields(parts[1..])
  }

  function Read(text: Bytes): seq<(Bytes, seq<Bytes>)>
  {
    if text == "" then [] else ReadFields(SplitPair(text, ';', ' '))
  }

  // No separator stands in a field or message, and every field has messages.
  predicate Readable(errs: FieldErrors)
  {
    forall f :: f in errs ==>
      && !HasPair(f, ';', ' ') && !HasPair(f, ':', ' ')
      && errs[f] != []
      && forall m :: m in errs[f] ==> !HasPair(m, ';', ' ') && !HasPair(m, ',', ' ')
  }

  // The list holds each field of the map once, in ascending order, with exactly
  // its messages in their order.
  ghost predicate Lists(r: seq<(Bytes, seq<Bytes>)>, errs: FieldErrors)
  {
    && (forall i, j :: 0 <= i < j < |r| ==> Below(r[i].0, r[j].0))
    && (forall i :: 0 <= i < |r| ==> r[i].0 in errs && r[i].1 == errs[r[i].0])
    && (forall f :: f in errs ==> exists i :: 0 <= i < |r| && r[i].0 == f)
  }

  lemma {:induction false} JoinHasNoSemicolon(ms: seq<Bytes>)
    requires forall m :: m in ms ==> !HasPair(m, ';', ' ')
    ensures !HasPair(Join(ms, ", "), ';', ' ')
  {
    if |ms| > 1 {
      var rest := Join(ms[1..], ", ");
      JoinHasNoSemicolon(ms[1..]);
      assert ms[0] in ms;
      SeparatedHasNoSemicolon(ms[0], ',', rest);
    } else if |ms| == 1 {
      assert ms[0] in ms;
    }
  }

  lemma {:induction false} SeparatedHasNoSemicolon(a: Bytes, c: Byte, b: Bytes)
    requires c != ';' && c != ' '
    requires !HasPair(a, ';', ' ') && !HasPair(b, ';', ' ')
    ensures !HasPair(a + [c, ' '] + b, ';', ' ')
  {
    var tail := [c, ' '] + b;
    forall i: nat | i < |tail|
      ensures !PairAt(tail, ';', ' ', i)
    {
      if i >= 2 {
        assert !PairAt(b, ';', ' ', i - 2);
      }
    }
    NoPairConcat(a, tail, ';', ' ');
    assert a + [c, ' '] + b == a + tail;
  }

  lemma {:induction false} FieldReads(errs: FieldErrors, f: Bytes)
    requires Readable(errs) && f in errs
    ensures FieldText(errs, f) != ""
    ensures !HasPair(FieldText(errs, f), ';', ' ')
    ensures ReadField(FieldText(errs, f)) == (f, errs[f])
  {
    var messages := Join(errs[f], ", ");
    var part := f + [':', ' '] + messages;
    assert FieldText(errs, f) == part;
    JoinHasNoSemicolon(errs[f]);
    SeparatedHasNoSemicolon(f, ':', messages);
    PairIndexOfConcat(f, ':', ' ', messages);
    assert part[..|f|] == f && part[|f| + 2..] == messages;
    SplitPairJoin(errs[f], ',', ' ');
  }

  lemma {:induction false} TextReads(errs: FieldErrors, fields: seq<Bytes>)
    requires Readable(errs) && forall f :: f in fields ==> f in errs
    ensures var r := Read(Join(FieldTexts(errs, fields), "; "));
            |r| == |fields| && forall i :: 0 <= i < |fields| ==> r[i] == (fields[i], errs[fields[i]])
  {
    var parts := FieldTexts(errs, fields);
    forall i | 0 <= i < |fields|
      ensures parts[i] != "" && !HasPair(parts[i], ';', ' ') && ReadField(parts[i]) == (fields[i], errs[fields[i]])
    {
      assert fields[i] in fields;
      FieldReads(errs, fields[i]);
    }
    if fields != [] {
      SplitPairJoin(parts, ';', ' ');
      JoinNotEmpty(parts);
    }
  }

  // A canonical text can be read back: every field with its messages in order.
  lemma {:induction false} CanonicalReads(errs: FieldErrors, text: Bytes)
    requires Canonical(errs, text) && Readable(errs)
    ensures Lists(Read(text), errs)
  {
    var fields :| && Ascending(fields) && (forall x :: x in fields <==> x in errs)
                  && text == Join(FieldTexts(errs, fields), "; ");
    TextReads(errs, fields);
    InOrderLists(errs, fields, Read(text));
  }

  lemma {:induction false} InOrderLists(errs: FieldErrors, fields: seq<Bytes>, r: seq<(Bytes, seq<Bytes>)>)
    requires Ascending(fields) && forall x :: x in fields <==> x in errs
    requires |r| == |fields| && forall i :: 0 <= i < |fields| ==> r[i] == (fields[i], errs[fields[i]])
    ensures Lists(r, errs)
  {
    forall f | f in errs
      ensures exists i :: 0 <= i < |r| && r[i].0 == f
    {
      assert f in fields;
      var i :| 0 <= i < |fields| && fields[i] == f;
      assert r[i].0 == f;
    }
  }

  lemma {:induction false} JoinNotEmpty(parts: seq<Bytes>)
    requires parts != [] && parts[0] != ""
    ensures Join(parts, "; ") != ""
  {
    assert |Join(parts, "; ")| >= |parts[0]|;
  }

  // order is the order in which ranging over the map yields its keys; it does
  // not show in the result.
  method FormatValidationErrors(errs: FieldErrors, order: seq<Bytes>) returns (text: Bytes)
    requires Enumerates(order, errs.Keys)
    ensures Canonical(errs, text)
    ensures Readable(errs) ==> Lists(Read(text), errs)
  {
    var fields: seq<Bytes> := [];
    for i := 0 to |order|
      invariant fields == order[..i]
    {
      fields := fields + [order[i]];
    }
    assert fields == order;
    SortCanonical(order, order, errs.Keys);
    fields := Sort(fields);
    var parts := FieldParts(errs, fields);
    text := Join(parts, "; ");
    assert Canonical(errs, text);
    if Readable(errs) {
      CanonicalReads(errs, text);
    }
  }

  method FieldParts(errs: FieldErrors, fields: seq<Bytes>) returns (parts: seq<Bytes>)
    requires forall f :: f in fields ==> f in errs
    ensures parts == FieldTexts(errs, fields)
  {
    parts := [];
    for i := 0 to |fields|
      invariant |parts| == i
      invariant forall j :: 0 <= j < i ==> parts[j] == FieldText(errs, fields[j])
    {
      assert fields[i] in fields;
      parts := parts + [fields[i] + ": " + Join(errs[fields[i]], ", ")];
    }
    assert parts == FieldTexts(errs, fields);
  }
}
