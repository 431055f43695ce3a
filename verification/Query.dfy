// Query parameters: how list options and filters become a query (firezone.go,
// groups.go), how url.Values encodes it, and how a form decoder reads it back
// (URL Standard, application/x-www-form-urlencoded parsing).
module Query {
  import opened ByteStrings
  import opened Decimal
  import opened Percent

  type Values = map<Bytes, Bytes>

  type Pair = (Bytes, Bytes)

  function ParseDecimal(s: Bytes): int { LeadingNumber(s, 0) }

  lemma {:induction false} LimitRoundTrip(n: nat)
    ensures ParseDecimal(Itoa(n)) == n
  {
    ItoaRoundTrip(n, "");
    assert Itoa(n) + "" == Itoa(n);
  }

  // ----- Building a query -----

  datatype ListOptions = ListOptions(limit: int, pageCursor: Bytes)

  datatype OptionsRef = NoOptions | Given(opts: ListOptions)

  // Only a positive limit and a non-empty cursor are sent.
  function ListQuery(ref: OptionsRef): Values
  {
    match ref
    case NoOptions => map[]
    case Given(opts) =>
      var q := if opts.limit > 0 then map["limit" := Itoa(opts.limit)] else map[];
      if opts.pageCursor != "" then q["page_cursor" := opts.pageCursor] else q
  }

  // Nothing is sent for nil options, nor for a limit below one and no cursor, and
  // something for all others.
  lemma {:induction false} ListQueryEmptyExactly(ref: OptionsRef)
    ensures ListQuery(ref) == map[] <==> ref.NoOptions? || (ref.opts.limit <= 0 && ref.opts.pageCursor == "")
  {
    if ref.Given? {
      assert ref.opts.limit > 0 ==> "limit" in ListQuery(ref);
      assert ref.opts.pageCursor != "" ==> "page_cursor" in ListQuery(ref);
    }
  }

  function Filtered(q: Values, filters: seq<Pair>): Values
  {
    if filters == [] then q
    else
      var before := Filtered(q, filters[..|filters| - 1]);
      var (key, value) := filters[|filters| - 1];
      if value != "" then before[key := value] else before
  }

  method FilterQuery(opts: ListOptions, filters: seq<Pair>) returns (q: Values)
    ensures q == Filtered(ListQuery(Given(opts)), filters)
  {
    q := map[];
    if opts.limit > 0 {
      q := q["limit" := Itoa(opts.limit)];
    }
    if opts.pageCursor != "" {
      q := q["page_cursor" := opts.pageCursor];
    }
    for i := 0 to |filters|
      invariant q == Filtered(ListQuery(Given(opts)), filters[..i])
    {
      assert filters[..i + 1][..i] == filters[..i];
      if filters[i].1 != "" {
        q := q[filters[i].0 := filters[i].1];
      }
    }
    assert filters[..|filters|] == filters;
  }

  // ----- Encoding -----

  function EncodedPair(k: Bytes, v: Bytes): Bytes
  {
    Escape(QueryComponent, k) + "=" + Escape(QueryComponent, v)
  }

  function EncodedPairs(q: Values, keys: seq<Bytes>): seq<Bytes>
    requires forall k :: k in keys ==> k in q
  {
    if keys == [] then [] else [EncodedPair(keys[0], q[keys[0]])] + EncodedPairs(q, keys[1..])
  }

  // url.Values.Encode, the map being ranged over in the given order.
  function Encode(q: Values, order: seq<Bytes>): Bytes
    requires forall k :: k in Sort(order) ==> k in q
  {
    Join(EncodedPairs(q, Sort(order)), "&")
  }

  lemma {:induction false} OrderIsSorted(q: Values, order: seq<Bytes>)
    requires Enumerates(order, q.Keys)
    ensures Ascending(Sort(order)) && forall k :: k in Sort(order) <==> k in q
  {
    SortCanonical(order, order, q.Keys);
  }

  // ----- Decoding -----

  function DecodedPair(part: Bytes): Pair
  {
    var i := Index(part, '=', 0);
    var value := if i == |part| then [] else part[i + 1..];
    (Decode(true, part[..i]), Decode(true, value))
  }

  function DecodedPairs(parts: seq<Bytes>): seq<Pair>
  {
    if parts == [] then []
    else (if parts[0] == [] then [] else [DecodedPair(parts[0])]) + DecodedPairs(parts[1..])
  }

  function FormDecode(s: Bytes): seq<Pair>
  {
    DecodedPairs(Split(s, '&'))
  }

  function PairsOf(q: Values, keys: seq<Bytes>): seq<Pair>
    requires forall k :: k in keys ==> k in q
  {
    if keys == [] then [] else [(keys[0], q[keys[0]])] + PairsOf(q, keys[1..])
  }

  lemma {:induction false} ComponentAlphabet(s: Bytes)
    ensures '&' !in Escape(QueryComponent, s) && '=' !in Escape(QueryComponent, s)
  {
    EscapeAlphabet(QueryComponent, s);
  }

  lemma {:induction false} PairRoundTrip(k: Bytes, v: Bytes)
    ensures EncodedPair(k, v) != [] && '&' !in EncodedPair(k, v)
    ensures DecodedPair(EncodedPair(k, v)) == (k, v)
  {
    var ek, ev := Escape(QueryComponent, k), Escape(QueryComponent, v);
    ComponentAlphabet(k);
    ComponentAlphabet(v);
    var part := EncodedPair(k, v);
    assert part == ek + ("=" + ev);
    IndexOfConcat(ek, '=', "=" + ev);
    assert part[..|ek|] == ek && part[|ek| + 1..] == ev;
    EscapeRoundTrip(QueryComponent, k, []);
    EscapeRoundTrip(QueryComponent, v, []);
    assert ek + [] == ek && ev + [] == ev && k + [] == k && v + [] == v;
    assert Decode(true, []) == [];
    assert Index(part, '=', 0) == |ek| < |part|;
  }

  lemma {:induction false} PairsRoundTrip(q: Values, keys: seq<Bytes>)
    requires forall k :: k in keys ==> k in q
    ensures DecodedPairs(EncodedPairs(q, keys)) == PairsOf(q, keys)
    ensures forall p :: p in EncodedPairs(q, keys) ==> '&' !in p
  {
    if keys != [] {
      PairRoundTrip(keys[0], q[keys[0]]);
      PairsRoundTrip(q, keys[1..]);
      assert EncodedPairs(q, keys)[1..] == EncodedPairs(q, keys[1..]);
    }
  }

  // However the map was ranged over, a decoder reads back its pairs, each once
  // and in ascending order of key.
  lemma {:induction false} QueryRoundTrip(q: Values, order: seq<Bytes>)
    requires Enumerates(order, q.Keys)
    ensures Ascending(Sort(order)) && forall k :: k in Sort(order) <==> k in q
    ensures FormDecode(Encode(q, order)) == PairsOf(q, Sort(order))
  {
    var keys := Sort(order);
    OrderIsSorted(q, order);
    PairsRoundTrip(q, keys);
    if keys == [] {
      assert Encode(q, order) == [];
      var parts: seq<Bytes> := [[]];
      assert Split([], '&') == parts && parts[1..] == [];
    } else {
      SplitJoin(EncodedPairs(q, keys), '&');
    }
  }

  // The bytes do not depend on the order the map is ranged over.
  lemma {:induction false} EncodingCanonical(q: Values, a: seq<Bytes>, b: seq<Bytes>)
    requires Enumerates(a, q.Keys) && Enumerates(b, q.Keys)
    ensures Sort(a) == Sort(b)
    ensures forall k :: k in Sort(a) ==> k in q
    ensures Encode(q, a) == Encode(q, b)
  {
    SortCanonical(a, b, q.Keys);
  }

  lemma {:induction false} PairsOfElements(q: Values, keys: seq<Bytes>, p: Pair)
    requires forall k :: k in keys ==> k in q
    ensures p in PairsOf(q, keys) <==> p.0 in keys && q[p.0] == p.1
  {
    if keys != [] {
      PairsOfElements(q, keys[1..], p);
    }
  }

  // Equal bytes come only from equal queries.
  lemma {:induction false} EncodingInjective(p: Values, q: Values, a: seq<Bytes>, b: seq<Bytes>)
    requires Enumerates(a, p.Keys) && Enumerates(b, q.Keys)
    ensures (forall k :: k in Sort(a) ==> k in p) && (forall k :: k in Sort(b) ==> k in q)
    ensures Encode(p, a) == Encode(q, b) <==> p == q
  {
    QueryRoundTrip(p, a);
    QueryRoundTrip(q, b);
    if p == q {
      EncodingCanonical(p, a, b);
    }
    if Encode(p, a) == Encode(q, b) {
      forall k
        ensures k in p <==> k in q
        ensures k in p && k in q ==> p[k] == q[k]
      {
        if k in p {
          PairsOfElements(p, Sort(a), (k, p[k]));
          PairsOfElements(q, Sort(b), (k, p[k]));
        }
        if k in q {
          PairsOfElements(p, Sort(a), (k, q[k]));
          PairsOfElements(q, Sort(b), (k, q[k]));
        }
      }
      assert p == q;
    }
  }

  // ----- What the server reads -----

  predicate DistinctKeys(filters: seq<Pair>)
  {
    forall i, j :: 0 <= i < j < |filters| ==> filters[i].0 != filters[j].0
  }

  // Filter keys that do not collide with each other or with pagination.
  predicate PlainFilters(filters: seq<Pair>)
  {
    DistinctKeys(filters) && forall f :: f in filters ==> f.0 != "limit" && f.0 != "page_cursor"
  }

  lemma {:induction false} FilteredLookup(q: Values, filters: seq<Pair>, k: Bytes)
    requires DistinctKeys(filters)
    ensures forall i :: 0 <= i < |filters| && filters[i].0 == k && filters[i].1 != "" ==>
              k in Filtered(q, filters) && Filtered(q, filters)[k] == filters[i].1
    ensures (forall i :: 0 <= i < |filters| && filters[i].0 == k ==> filters[i].1 == "") ==>
              (k in Filtered(q, filters) <==> k in q) && (k in q ==> Filtered(q, filters)[k] == q[k])
  {
    if filters != [] {
      FilteredLookup(q, filters[..|filters| - 1], k);
    }
  }

  // The query holds exactly the positive limit, the non-empty cursor and the
  // non-empty filters.
  lemma {:induction false} QuerySaysExactly(opts: ListOptions, filters: seq<Pair>)
    requires PlainFilters(filters)
    ensures var q := Filtered(ListQuery(Given(opts)), filters);
            && ("limit" in q <==> opts.limit > 0)
            && (opts.limit > 0 ==> ParseDecimal(q["limit"]) == opts.limit)
            && ("page_cursor" in q <==> opts.pageCursor != "")
            && (opts.pageCursor != "" ==> q["page_cursor"] == opts.pageCursor)
            && forall k :: k != "limit" && k != "page_cursor" ==>
                 && (k in q <==> exists i :: 0 <= i < |filters| && filters[i].0 == k && filters[i].1 != "")
                 && (k in q ==> (k, q[k]) in filters)
  {
    var base := ListQuery(Given(opts));
    var q := Filtered(base, filters);
    if opts.limit > 0 {
      LimitRoundTrip(opts.limit);
    }
    assert forall i :: 0 <= i < |filters| ==> filters[i] in filters;
    FilteredLookup(base, filters, "limit");
    FilteredLookup(base, filters, "page_cursor");
    forall k | k != "limit" && k != "page_cursor"
      ensures k in q <==> exists i :: 0 <= i < |filters| && filters[i].0 == k && filters[i].1 != ""
      ensures k in q ==> (k, q[k]) in filters
    {
      FilteredLookup(base, filters, k);
      if i :| 0 <= i < |filters| && filters[i].0 == k && filters[i].1 != "" {
        assert filters[i] == (k, q[k]);
      }
    }
  }

  // Filters with distinct keys may be listed in any order.
  lemma {:induction false} FilterOrderIrrelevant(q: Values, a: seq<Pair>, b: seq<Pair>)
    requires DistinctKeys(a) && DistinctKeys(b)
    requires forall f :: f in a <==> f in b
    ensures Filtered(q, a) == Filtered(q, b)
  {
    var qa, qb := Filtered(q, a), Filtered(q, b);
    forall k
      ensures k in qa <==> k in qb
      ensures k in qa ==> qa[k] == qb[k]
    {
      FilteredLookup(q, a, k);
      FilteredLookup(q, b, k);
      if i :| 0 <= i < |a| && a[i].0 == k && a[i].1 != "" {
        assert a[i] in b;
        var j :| 0 <= j < |b| && b[j] == a[i];
      } else {
        forall j | 0 <= j < |b| && b[j].0 == k
          ensures b[j].1 == ""
        {
          assert b[j] in a;
          var i :| 0 <= i < |a| && a[i] == b[j];
        }
      }
    }
  }

  // ----- Groups: a filter with three states -----

  datatype DirectoryFilter = AnyDirectory | Directory(id: Bytes)

  datatype GroupListOptions = GroupListOptions(
    list: ListOptions, name: Bytes, directoryID: DirectoryFilter, entityType: Bytes)

  function GroupFilters(o: GroupListOptions): seq<Pair>
  {
    [("name", o.name), ("entity_type", o.entityType)]
  }

  function GroupQuery(o: GroupListOptions): Values
  {
    var q := Filtered(ListQuery(Given(o.list)), GroupFilters(o));
    match o.directoryID
    case AnyDirectory => q
    case Directory(id) => q["directory_id" := id]
  }

  // The options as the server tells them apart: no limit below one.
  function Meaning(o: GroupListOptions): GroupListOptions
  {
    o.(list := o.list.(limit := if o.list.limit > 0 then o.list.limit else 0))
  }

  function Lookup(q: Values, k: Bytes): Bytes { if k in q then q[k] else "" }

  // Read a group query back into options.
  function ReadGroupQuery(q: Values): GroupListOptions
  {
    GroupListOptions(
      ListOptions(if "limit" in q then ParseDecimal(q["limit"]) else 0, Lookup(q, "page_cursor")),
      Lookup(q, "name"),
      if "directory_id" in q then Directory(q["directory_id"]) else AnyDirectory,
      Lookup(q, "entity_type"))
  }

  lemma {:induction false} FilterLookup(base: Values, filters: seq<Pair>, i: nat)
    requires PlainFilters(filters) && i < |filters| && filters[i].0 !in base
    ensures Lookup(Filtered(base, filters), filters[i].0) == filters[i].1
  {
    var k := filters[i].0;
    FilteredLookup(base, filters, k);
    if filters[i].1 == "" {
      assert forall j :: 0 <= j < |filters| && filters[j].0 == k ==> j == i;
    }
  }

  lemma {:induction false} GroupFiltersPlain(o: GroupListOptions)
    ensures PlainFilters(GroupFilters(o))
    ensures forall i :: 0 <= i < |GroupFilters(o)| ==> GroupFilters(o)[i].0 != "directory_id"
  {
    assert "name" != "limit" && "entity_type" != "limit";
    assert "name"[0] != "page_cursor"[0] && "entity_type"[0] != "page_cursor"[0] && "name"[0] != "entity_type"[0];
  }

  lemma {:induction false} GroupQueryReads(o: GroupListOptions)
    ensures ReadGroupQuery(GroupQuery(o)) == Meaning(o)
  {
    var filters, base := GroupFilters(o), ListQuery(Given(o.list));
    var q := Filtered(base, filters);
    assert base.Keys <= {"limit", "page_cursor"};
    GroupFiltersPlain(o);
    assert filters[0] in filters && filters[1] in filters;
    assert Lookup(q, "name") == o.name by { FilterLookup(base, filters, 0); }
    assert Lookup(q, "entity_type") == o.entityType by { FilterLookup(base, filters, 1); }
    assert "directory_id" !in base by {
      assert "directory_id"[0] != "limit"[0] && "directory_id"[0] != "page_cursor"[0];
    }
    assert "directory_id" !in q by { FilteredLookup(base, filters, "directory_id"); }
    ListPartReads(o.list, filters);
    WithDirectory(q, o.directoryID);
  }

  lemma {:induction false} ListPartReads(opts: ListOptions, filters: seq<Pair>)
    requires PlainFilters(filters)
    ensures var q := Filtered(ListQuery(Given(opts)), filters);
            && (if "limit" in q then ParseDecimal(q["limit"]) else 0) == (if opts.limit > 0 then opts.limit else 0)
            && Lookup(q, "page_cursor") == opts.pageCursor
  {
    QuerySaysExactly(opts, filters);
  }

  // The directory parameter stands beside the others.
  lemma {:induction false} WithDirectory(q: Values, d: DirectoryFilter)
    requires "directory_id" !in q
    ensures var q' := match d case AnyDirectory => q case Directory(id) => q["directory_id" := id];
            && forall k :: k in {"limit", "page_cursor", "name", "entity_type"} ==>
                 (k in q' <==> k in q) && (k in q ==> q'[k] == q[k]) && Lookup(q', k) == Lookup(q, k)
  {
    assert "directory_id"[0] != "limit"[0] && "directory_id"[0] != "page_cursor"[0];
    assert "directory_id"[0] != "name"[0] && "directory_id"[0] != "entity_type"[0];
  }

  // Two group listings send the same bytes exactly when they mean the same:
  // no directory filter, the empty one and a directory's ID stay apart.
  lemma {:induction false} GroupQueriesDistinctExactly(o: GroupListOptions, p: GroupListOptions, a: seq<Bytes>, b: seq<Bytes>)
    requires Enumerates(a, GroupQuery(o).Keys) && Enumerates(b, GroupQuery(p).Keys)
    ensures (forall k :: k in Sort(a) ==> k in GroupQuery(o)) && (forall k :: k in Sort(b) ==> k in GroupQuery(p))
    ensures Encode(GroupQuery(o), a) == Encode(GroupQuery(p), b) <==> Meaning(o) == Meaning(p)
  {
    EncodingInjective(GroupQuery(o), GroupQuery(p), a, b);
    GroupQueryReads(o);
    GroupQueryReads(p);
    if Meaning(o) == Meaning(p) {
      SameMeaningSameQuery(o, p);
    }
  }

  lemma {:induction false} SameMeaningSameQuery(o: GroupListOptions, p: GroupListOptions)
    requires Meaning(o) == Meaning(p)
    ensures GroupQuery(o) == GroupQuery(p)
  {
    assert ListQuery(Given(o.list)) == ListQuery(Given(p.list));
    assert GroupFilters(o) == GroupFilters(p);
  }
}
