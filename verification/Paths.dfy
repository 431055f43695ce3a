// Request paths: ID checks, path building and resolution against the base URL
// (path.go), with the parts of net/url.URL they rest on.
module Paths {
  import opened ByteStrings
  import opened Percent

  // ----- checkID -----

  datatype IDError = MissingID | DotSegment

  datatype IDCheck = Usable | Rejected(error: IDError)

  function CheckID(id: Bytes): IDCheck
  {
    if id == "" then Rejected(MissingID)
    else if id == "." || id == ".." then Rejected(DotSegment)
    else Usable
  }

  lemma {:induction false} CheckIDExactly(id: Bytes)
    ensures CheckID(id).Rejected? <==> id in ["", ".", ".."]
    ensures CheckID(id) == Rejected(MissingID) <==> id == ""
  {}

  predicate AllUsable(ids: seq<Bytes>)
  {
    forall i :: 0 <= i < |ids| ==> CheckID(ids[i]).Usable?
  }

  // ----- buildPath -----

  function EscapeAll(segments: seq<Bytes>): (r: seq<Bytes>)
    ensures |r| == |segments|
    ensures forall i :: 0 <= i < |r| ==> r[i] == Escape(Segment, segments[i])
  {
    if segments == [] then [] else [Escape(Segment, segments[0])] + EscapeAll(segments[1..])
  }

  function BuiltPath(segments: seq<Bytes>): Bytes
  {
    Join(EscapeAll(segments), "/")
  }

  lemma {:induction false} BuiltPathCons(segments: seq<Bytes>)
    requires |segments| > 1
    ensures BuiltPath(segments) == Escape(Segment, segments[0]) + ("/" + BuiltPath(segments[1..]))
  {}

  method BuildPath(segments: seq<Bytes>) returns (path: Bytes)
    ensures path == BuiltPath(segments)
  {
    var escaped := new Bytes[|segments|];
    for i := 0 to |segments|
      invariant forall j :: 0 <= j < i ==> escaped[j] == Escape(Segment, segments[j])
    {
      escaped[i] := Escape(Segment, segments[i]);
    }
    assert escaped[..] == EscapeAll(segments);
    path := Join(escaped[..], "/");
  }

  lemma {:induction false} EscapedSegmentsHaveNoSlash(segments: seq<Bytes>)
    ensures forall p :: p in EscapeAll(segments) ==> '/' !in p
  {
    forall i | 0 <= i < |segments|
      ensures '/' !in Escape(Segment, segments[i])
    {
      EscapeAlphabet(Segment, segments[i]);
    }
  }

  // Splitting a built path gives back the escaped segments one for one.
  lemma {:induction false} SplitBuiltPath(segments: seq<Bytes>)
    requires segments != []
    ensures Split(BuiltPath(segments), '/') == EscapeAll(segments)
  {
    EscapedSegmentsHaveNoSlash(segments);
    SplitJoin(EscapeAll(segments), '/');
  }

  lemma {:induction false} EscapeAllInjective(a: seq<Bytes>, b: seq<Bytes>)
    requires EscapeAll(a) == EscapeAll(b)
    ensures a == b
  {
    forall i | 0 <= i < |a|
      ensures a[i] == b[i]
    {
      EscapeInjective(Segment, a[i], b[i]);
    }
  }

  // Two different lists of segments never share a path; the only collision is
  // between no segment and one empty segment.
  lemma {:induction false} BuiltPathInjectiveExactly(a: seq<Bytes>, b: seq<Bytes>)
    ensures BuiltPath(a) == BuiltPath(b) <==>
            (a == b || (a == [] && b == [""]) || (a == [""] && b == []))
  {
    if BuiltPath(a) == BuiltPath(b) {
      if a != [] && b != [] {
        SplitBuiltPath(a);
        SplitBuiltPath(b);
        EscapeAllInjective(a, b);
      } else if a != [] {
        EmptyBuiltPath(a);
      } else if b != [] {
        EmptyBuiltPath(b);
      }
    }
  }

  lemma {:induction false} EmptyBuiltPath(a: seq<Bytes>)
    requires a != [] && BuiltPath(a) == ""
    ensures a == [""]
  {
    SplitBuiltPath(a);
    assert Split("", '/') == [""];
    EscapeAllInjective(a, [""]);
  }

  // ----- net/url.URL -----

  datatype URL = URL(
    scheme: Bytes, host: Bytes, path: Bytes, rawPath: Bytes,
    rawQuery: Bytes, forceQuery: bool, fragment: Bytes)

  // The bytes URL.EscapedPath lets stand in a path it did not escape itself.
  predicate ValidEncoded(s: Bytes)
  {
    forall c :: c in s ==> c in "!$&'()*+,;=:@[]%" || Kept(WholePath, c)
  }

  // The path as it goes on the wire: RawPath when it is a valid encoding of
  // Path, and otherwise Path escaped.
  function EscapedPath(u: URL): Bytes
  {
    if u.rawPath != "" && ValidEncoded(u.rawPath) && PathUnescape(u.rawPath) == Text(u.path) then u.rawPath
    else if u.path == "*" then "*"
    else Escape(WholePath, u.path)
  }

  lemma {:induction false} EscapedPathSound(u: URL)
    ensures PathUnescape(EscapedPath(u)) == Text(u.path)
    ensures ValidEncoded(EscapedPath(u))
  {
    EscapeRoundTrip(WholePath, u.path, []);
    assert Escape(WholePath, u.path) + [] == Escape(WholePath, u.path);
    EscapeAlphabet(WholePath, u.path);
  }

  // ----- resolvePath -----

  predicate EndsInSlash(s: Bytes) { s != "" && s[|s| - 1] == '/' }

  // strings.TrimSuffix takes away one slash, not all.
  function TrimSuffixSlash(s: Bytes): (t: Bytes)
    ensures s == t + "/" || (s == t && !EndsInSlash(s))
  {
    if s != "" && s[|s| - 1] == '/' then s[..|s| - 1] else s
  }

  datatype Resolution = Unresolvable | Resolved(url: URL)

  function ResolvePath(base: URL, requestPath: Bytes): Resolution
  {
    var escaped := TrimSuffixSlash(EscapedPath(base)) + "/" + requestPath;
    match PathUnescape(escaped)
    case Malformed => Unresolvable
    case Text(decoded) => Resolved(base.(path := decoded, rawPath := escaped))
  }

  lemma {:induction false} TrimKeepsEncoding(s: Bytes)
    requires WellFormed(s) && ValidEncoded(s)
    ensures WellFormed(TrimSuffixSlash(s)) && ValidEncoded(TrimSuffixSlash(s))
  {
    var t := TrimSuffixSlash(s);
    forall c | c in t
      ensures c in s
    {}
    if t != s {
      TrimWellFormed(s);
    }
  }

  lemma {:induction false} TrimWellFormed(s: Bytes)
    requires WellFormed(s) && s != "" && s[|s| - 1] == '/'
    ensures WellFormed(s[..|s| - 1])
  {
    var t := s[..|s| - 1];
    if |s| > 1 {
      if s[0] == '%' {
        assert |s| > 3 by {
          assert !IsHex('/');
        }
        TrimWellFormed(s[3..]);
        assert t[3..] == s[3..][..|s[3..]| - 1];
      } else {
        TrimWellFormed(s[1..]);
        assert t[1..] == s[1..][..|s[1..]| - 1];
      }
    }
  }

  lemma {:induction false} BuiltPathEncoding(segments: seq<Bytes>)
    ensures WellFormed(BuiltPath(segments)) && ValidEncoded(BuiltPath(segments))
  {
    if segments != [] {
      var first := Escape(Segment, segments[0]);
      EscapeRoundTrip(Segment, segments[0], []);
      assert first + [] == first;
      EscapeAlphabet(Segment, segments[0]);
      if |segments| > 1 {
        var rest := BuiltPath(segments[1..]);
        BuiltPathEncoding(segments[1..]);
        BuiltPathCons(segments);
        assert ("/" + rest)[1..] == rest;
        DecodeConcat(first, "/" + rest);
      }
    }
  }

  lemma {:induction false} PrefixEncoding(base: URL)
    ensures var prefix := TrimSuffixSlash(EscapedPath(base));
            WellFormed(prefix) && ValidEncoded(prefix)
  {
    EscapedPathSound(base);
    TrimKeepsEncoding(EscapedPath(base));
  }

  lemma {:induction false} JoinedEncoding(prefix: Bytes, p: Bytes)
    requires WellFormed(prefix) && ValidEncoded(prefix) && WellFormed(p) && ValidEncoded(p)
    ensures WellFormed(prefix + "/" + p) && ValidEncoded(prefix + "/" + p)
  {
    assert ("/" + p)[1..] == p;
    DecodeConcat(prefix, "/" + p);
    assert prefix + "/" + p == prefix + ("/" + p);
  }

  // Whatever the base URL, a built path resolves; the URL keeps everything of
  // the base but its path, its Path is the decoding of its RawPath, and the
  // escaped form is what goes on the wire.
  lemma {:induction false} ResolveBuiltPath(base: URL, segments: seq<Bytes>)
    ensures var r := ResolvePath(base, BuiltPath(segments));
            && r.Resolved?
            && PathUnescape(r.url.rawPath) == Text(r.url.path)
            && EscapedPath(r.url) == TrimSuffixSlash(EscapedPath(base)) + "/" + BuiltPath(segments)
            && r.url == base.(path := r.url.path, rawPath := r.url.rawPath)
  {
    PrefixEncoding(base);
    BuiltPathEncoding(segments);
    JoinedEncoding(TrimSuffixSlash(EscapedPath(base)), BuiltPath(segments));
  }

  // The base URL may end in a slash or not: a base whose escaped path is p, or p
  // and a slash, sends p, a slash and the built path.
  lemma {:induction false} SentPath(base: URL, p: Bytes, segments: seq<Bytes>)
    requires EscapedPath(base) == p + "/" || (EscapedPath(base) == p && !EndsInSlash(p))
    ensures var r := ResolvePath(base, BuiltPath(segments));
            && r.Resolved?
            && r.url.rawPath == EscapedPath(r.url) == p + "/" + BuiltPath(segments)
            && r.url.path == Decode(false, p) + "/" + Join(segments, "/")
  {
    ResolveBuiltPath(base, segments);
    ResolvedPathDecodes(base, segments);
    TrimmedIs(EscapedPath(base), p);
  }

  lemma {:induction false} TrimmedIs(s: Bytes, p: Bytes)
    requires s == p + "/" || (s == p && !EndsInSlash(p))
    ensures TrimSuffixSlash(s) == p
  {
    if s == p + "/" {
      assert s[..|s| - 1] == p;
    }
  }

  // A base path of letters, digits and the marks paths are made of is its own
  // escaped form, with RawPath unset as url.Parse leaves it.
  lemma {:induction false} OrdinaryBasePath(base: URL)
    requires base.rawPath == ""
    requires forall c :: c in base.path ==>
               'a' <= c <= 'z' || 'A' <= c <= 'Z' || '0' <= c <= '9' || c in "-_.~$&+,/:;=@"
    ensures EscapedPath(base) == base.path
  {
    forall i | 0 <= i < |base.path|
      ensures Literal(WholePath, base.path[i])
    {
      assert base.path[i] in base.path;
    }
    EscapeExactly(WholePath, base.path);
  }

  // An encoding the base URL came with is kept exactly if it decodes to the path
  // and holds no byte that has to be escaped; otherwise the path is escaped anew.
  lemma {:induction false} GivenEncodingKeptExactly(base: URL)
    requires base.rawPath != "" && base.path != "*" && base.rawPath != Escape(WholePath, base.path)
    ensures EscapedPath(base) == base.rawPath <==>
            && PathUnescape(base.rawPath) == Text(base.path)
            && forall i :: 0 <= i < |base.rawPath| ==> StandsInPath(base.rawPath[i])
    ensures EscapedPath(base) == base.rawPath || EscapedPath(base) == Escape(WholePath, base.path)
  {
    forall i | 0 <= i < |base.rawPath|
      ensures base.rawPath[i] in base.rawPath
    {}
    assert ValidEncoded(base.rawPath) <==> forall i :: 0 <= i < |base.rawPath| ==> StandsInPath(base.rawPath[i]);
  }

  predicate StandsInPath(c: Byte)
  {
    'a' <= c <= 'z' || 'A' <= c <= 'Z' || '0' <= c <= '9' || c in "-_.~/%!$&'()*+,;=:@[]"
  }

  // So "https://host", "https://host/" and every request path under them.
  lemma {:induction false} RootBase(base: URL, segments: seq<Bytes>)
    requires base.rawPath == "" && (base.path == "" || base.path == "/")
    ensures var r := ResolvePath(base, BuiltPath(segments));
            r.Resolved? && EscapedPath(r.url) == "/" + BuiltPath(segments)
  {
    OrdinaryBasePath(base);
    assert "" + "/" == "/";
    SentPath(base, "", segments);
  }

  // The decoded path is the base's, less one trailing slash, followed by the
  // segments as the caller gave them.
  lemma {:induction false} ResolvedPathDecodes(base: URL, segments: seq<Bytes>)
    ensures ResolvePath(base, BuiltPath(segments)).Resolved?
    ensures ResolvePath(base, BuiltPath(segments)).url.path ==
            Decode(false, TrimSuffixSlash(EscapedPath(base))) + "/" + Join(segments, "/")
  {
    var prefix, p := TrimSuffixSlash(EscapedPath(base)), BuiltPath(segments);
    ResolveBuiltPath(base, segments);
    PrefixEncoding(base);
    DecodeJoined(prefix, p);
    DecodeBuiltPath(segments);
  }

  lemma {:induction false} DecodeJoined(prefix: Bytes, p: Bytes)
    requires WellFormed(prefix)
    ensures Decode(false, prefix + "/" + p) == Decode(false, prefix) + "/" + Decode(false, p)
  {
    assert prefix + "/" + p == prefix + ("/" + p);
    DecodeConcat(prefix, "/" + p);
    DecodeSlash(p);
    assert Decode(false, prefix) + ("/" + Decode(false, p)) == Decode(false, prefix) + "/" + Decode(false, p);
  }

  lemma {:induction false} DecodeSlash(p: Bytes)
    ensures Decode(false, "/" + p) == "/" + Decode(false, p)
  {
    assert ("/" + p)[1..] == p;
  }

  lemma {:induction false} DecodeBuiltPath(segments: seq<Bytes>)
    ensures Decode(false, BuiltPath(segments)) == Join(segments, "/")
  {
    if segments != [] {
      var first := Escape(Segment, segments[0]);
      EscapeRoundTrip(Segment, segments[0], []);
      assert first + [] == first;
      if |segments| > 1 {
        var rest := BuiltPath(segments[1..]);
        DecodeBuiltPath(segments[1..]);
        BuiltPathCons(segments);
        DecodeConcat(first, "/" + rest);
        DecodeSlash(rest);
      }
    }
  }
}
