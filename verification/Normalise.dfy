// What a normalising proxy does to a path - sections 6.2.2.2 and 5.2.4 of
// RFC 3986 - and why it cannot change where a request goes.
module Normalise {
  import opened ByteStrings
  import opened Percent
  import opened Paths

  // ----- Section 6.2.2.2: decode what need not be encoded -----

  function DecodeUnreserved(s: Bytes): Bytes
  {
    if s == [] then []
    else if StartsEscape(s) && IsUnreserved(EscapedByte(s)) then [EscapedByte(s)] + DecodeUnreserved(s[3..])
    else [s[0]] + DecodeUnreserved(s[1..])
  }

  // ----- Section 5.2.4: remove dot segments -----

  // The end of the first segment of the input buffer, its leading slash included.
  function FirstSegmentEnd(inp: Bytes): (n: nat)
    requires inp != []
    ensures 1 <= n <= |inp|
  {
    Index(inp, '/', 1)
  }

  // Drop the last segment of the output buffer and the slash before it.
  function DropLastSegment(out: Bytes): Bytes
  {
    if out == [] then []
    else if out[|out| - 1] == '/' then out[..|out| - 1]
    else DropLastSegment(out[..|out| - 1])
  }

  predicate Dot(s: Bytes, k: nat) { k < |s| && s[k] == '.' }

  predicate Slash(s: Bytes, k: nat) { k < |s| && s[k] == '/' }

  // The rule letters of section 5.2.4, a complete final segment marked End.
  datatype Rule = A3 | A2 | B | BEnd | C | CEnd | D | E

  function RuleFor(inp: Bytes): Rule
    requires inp != []
  {
    if Dot(inp, 0) && Dot(inp, 1) && Slash(inp, 2) then A3
    else if Dot(inp, 0) && Slash(inp, 1) then A2
    else if Slash(inp, 0) && Dot(inp, 1) && Slash(inp, 2) then B
    else if Slash(inp, 0) && Dot(inp, 1) && |inp| == 2 then BEnd
    else if Slash(inp, 0) && Dot(inp, 1) && Dot(inp, 2) && Slash(inp, 3) then C
    else if Slash(inp, 0) && Dot(inp, 1) && Dot(inp, 2) && |inp| == 3 then CEnd
    else if Dot(inp, 0) && (|inp| == 1 || (Dot(inp, 1) && |inp| == 2)) then D
    else E
  }

  // How much of the input buffer a rule takes away.
  function Consumed(inp: Bytes): (n: nat)
    requires inp != []
    ensures 1 <= n <= |inp|
  {
    match RuleFor(inp)
    case A3 => 3
    case A2 => 2
    case B => 2
    case C => 3
    case E => FirstSegmentEnd(inp)
    case _ => |inp|
  }

  // The output buffer after a rule.
  function Emitted(inp: Bytes, out: Bytes): Bytes
    requires inp != []
  {
    match RuleFor(inp)
    case C => DropLastSegment(out)
    case CEnd => DropLastSegment(out)
    case E => out + inp[..Consumed(inp)]
    case _ => out
  }

  function RemoveDots(inp: Bytes, out: Bytes): Bytes
    decreases |inp|
  {
    if inp == [] then out
    else if RuleFor(inp).BEnd? || RuleFor(inp).CEnd? then RemoveDots("/", Emitted(inp, out))
    else RemoveDots(inp[Consumed(inp)..], Emitted(inp, out))
  }

  function Normalised(path: Bytes): Bytes
  {
    RemoveDots(DecodeUnreserved(path), [])
  }

  // ----- Decoding leaves built paths alone -----

  lemma {:induction false} DecodeUnreservedEscaped(s: Bytes, rest: Bytes)
    ensures DecodeUnreserved(Escape(Segment, s) + rest) == Escape(Segment, s) + DecodeUnreserved(rest)
  {
    if s == [] {
      assert Escape(Segment, s) + rest == rest;
    } else {
      var e, tail := EscapeByte(Segment, s[0]), Escape(Segment, s[1..]);
      calc {
        DecodeUnreserved(Escape(Segment, s) + rest);
        { EscapeUnfold(Segment, s, rest); }
        DecodeUnreserved(e + (tail + rest));
        { DecodeUnreservedByte(s[0], tail + rest); }
        e + DecodeUnreserved(tail + rest);
        { DecodeUnreservedEscaped(s[1..], rest); }
        e + (tail + DecodeUnreserved(rest));
        Escape(Segment, s) + DecodeUnreserved(rest);
      }
    }
  }

  lemma {:induction false} DecodeUnreservedOne(c: Byte, rest: Bytes)
    requires !StartsEscape([c] + rest)
    ensures DecodeUnreserved([c] + rest) == [c] + DecodeUnreserved(rest)
  {
    assert ([c] + rest)[1..] == rest;
  }

  lemma {:induction false} DecodeUnreservedByte(c: Byte, rest: Bytes)
    ensures DecodeUnreserved(EscapeByte(Segment, c) + rest) == EscapeByte(Segment, c) + DecodeUnreserved(rest)
  {
    var e := EscapeByte(Segment, c);
    if |e| == 1 {
      DecodeUnreservedOne(e[0], rest);
    } else {
      var h, l := UPPER_HEX[c as int / 16], UPPER_HEX[c as int % 16];
      HexRoundTrip(c as int / 16);
      HexRoundTrip(c as int % 16);
      assert EscapedByte(e + rest) == c && !IsUnreserved(c);
      calc {
        DecodeUnreserved(e + rest);
        { assert e + rest == ['%'] + ([h] + ([l] + rest)) && (e + rest)[1..] == [h] + ([l] + rest); }
        ['%'] + DecodeUnreserved([h] + ([l] + rest));
        { DecodeUnreservedOne(h, [l] + rest); DecodeUnreservedOne(l, rest); }
        ['%'] + ([h] + ([l] + DecodeUnreserved(rest)));
        e + DecodeUnreserved(rest);
      }
    }
  }

  lemma {:induction false} DecodeUnreservedBuiltPath(segments: seq<Bytes>)
    ensures DecodeUnreserved(BuiltPath(segments)) == BuiltPath(segments)
  {
    if segments != [] {
      var first := Escape(Segment, segments[0]);
      if |segments| == 1 {
        DecodeUnreservedEscaped(segments[0], []);
        assert first + [] == first;
      } else {
        var rest := BuiltPath(segments[1..]);
        DecodeUnreservedBuiltPath(segments[1..]);
        BuiltPathCons(segments);
        DecodeUnreservedEscaped(segments[0], "/" + rest);
        assert "/" + rest == ['/'] + rest;
        DecodeUnreservedOne('/', rest);
      }
    }
  }

  // No escape sequence reaches across a slash, so decoding splits there.
  lemma {:induction false} DecodeUnreservedAtSlash(a: Bytes, b: Bytes)
    ensures DecodeUnreserved(a + ("/" + b)) == DecodeUnreserved(a) + ("/" + DecodeUnreserved(b))
    decreases |a|
  {
    var s, tail := a + ("/" + b), "/" + DecodeUnreserved(b);
    if a == [] {
      assert s == ['/'] + b;
      DecodeUnreservedOne('/', b);
    } else {
      EscapesStopAtSlash(a, b);
      var n := if StartsEscape(a) && IsUnreserved(EscapedByte(a)) then 3 else 1;
      var c := if n == 3 then EscapedByte(a) else a[0];
      calc {
        DecodeUnreserved(s);
        { DecodeUnreservedStep(s); assert s[n..] == a[n..] + ("/" + b); }
        [c] + DecodeUnreserved(a[n..] + ("/" + b));
        { DecodeUnreservedAtSlash(a[n..], b); }
        [c] + (DecodeUnreserved(a[n..]) + tail);
        { Associate([c], DecodeUnreserved(a[n..]), tail); }
        ([c] + DecodeUnreserved(a[n..])) + tail;
        { DecodeUnreservedStep(a); }
        DecodeUnreserved(a) + tail;
      }
    }
  }

  lemma {:induction false} Associate(a: Bytes, b: Bytes, c: Bytes)
    ensures a + (b + c) == (a + b) + c
  {}

  lemma {:induction false} DecodeUnreservedStep(s: Bytes)
    requires s != []
    ensures StartsEscape(s) && IsUnreserved(EscapedByte(s)) ==>
              DecodeUnreserved(s) == [EscapedByte(s)] + DecodeUnreserved(s[3..])
    ensures !(StartsEscape(s) && IsUnreserved(EscapedByte(s))) ==>
              DecodeUnreserved(s) == [s[0]] + DecodeUnreserved(s[1..])
  {}

  lemma {:induction false} EscapesStopAtSlash(a: Bytes, b: Bytes)
    requires a != []
    ensures StartsEscape(a + ("/" + b)) <==> StartsEscape(a)
    ensures StartsEscape(a) ==> EscapedByte(a + ("/" + b)) == EscapedByte(a)
  {
    var s := a + ("/" + b);
    assert s[|a|] == '/' && !IsHex('/');
    assert forall j :: 0 <= j < |a| ==> s[j] == a[j];
  }

  // ----- Dot removal leaves built paths alone -----

  // A segment the dot-remover moves to its output unchanged.
  predicate Plain(e: Bytes)
  {
    e != "" && e != "." && e != ".." && '/' !in e
  }

  lemma {:induction false} DotsDecode()
    ensures Decode(false, "") == "" && Decode(false, ".") == "." && Decode(false, "..") == ".."
  {
    assert Decode(false, ".") == ".";
    assert ".."[1..] == ".";
    assert Decode(false, "..") == "." + Decode(false, ".");
  }

  lemma {:induction false} CheckedSegmentIsPlain(s: Bytes)
    requires CheckID(s).Usable?
    ensures Plain(Escape(Segment, s))
  {
    var e := Escape(Segment, s);
    assert Decode(false, e) == s by { SegmentRoundTrip(s); }
    assert '/' !in e by { EscapeAlphabet(Segment, s); }
    DotsDecode();
  }

  // rest is a complete remainder of a path: nothing, or a slash and more.
  predicate AtSlash(rest: Bytes)
  {
    rest == [] || rest[0] == '/'
  }

  lemma {:induction false} MovePlainSegment(lead: Bytes, e: Bytes, rest: Bytes, out: Bytes)
    requires Plain(e) && AtSlash(rest) && (lead == "" || lead == "/")
    ensures RemoveDots(lead + e + rest, out) == RemoveDots(rest, out + lead + e)
  {
    var inp, n := lead + e + rest, |lead + e|;
    PlainSegmentMoves(lead, e, rest);
    assert inp[..n] == lead + e && inp[n..] == rest;
    assert out + (lead + e) == out + lead + e;
  }

  // None of the dot rules applies to a buffer that starts with a plain segment.
  lemma {:induction false} PlainSegmentMoves(lead: Bytes, e: Bytes, rest: Bytes)
    requires Plain(e) && AtSlash(rest) && (lead == "" || lead == "/")
    ensures RuleFor(lead + e + rest) == E
    ensures FirstSegmentEnd(lead + e + rest) == |lead + e|
  {
    var inp, k := lead + e + rest, |lead|;
    assert forall j :: 0 <= j < |e| ==> inp[k + j] == e[j] && e[j] != '/';
    assert rest != [] ==> inp[k + |e|] == '/';
    assert lead == "/" ==> inp[0] == '/';
    assert |e| == 1 ==> e[0] != '.' by { assert |e| == 1 ==> e == [e[0]]; }
    assert |e| == 2 ==> e[0] != '.' || e[1] != '.' by { assert |e| == 2 ==> e == [e[0], e[1]]; }
    if k == 1 {
      assert inp[1] == e[0];
      assert |e| > 1 ==> inp[2] == e[1];
      assert |e| > 2 ==> inp[3] == e[2];
    } else {
      assert inp[0] == e[0];
      assert |e| > 1 ==> inp[1] == e[1];
      assert |e| > 2 ==> inp[2] == e[2];
    }
    IndexUnique(inp, '/', 1, k + |e|);
  }

  lemma {:induction false} RemoveDotsBuilt(lead: Bytes, segments: seq<Bytes>, out: Bytes)
    requires lead == "" || lead == "/"
    requires segments != [] && AllUsable(segments)
    ensures RemoveDots(lead + BuiltPath(segments), out) == out + lead + BuiltPath(segments)
    decreases |segments|
  {
    var e := Escape(Segment, segments[0]);
    CheckedSegmentIsPlain(segments[0]);
    if |segments| == 1 {
      assert lead + BuiltPath(segments) == lead + e + [];
      RemoveDotsPlain(lead, e, out);
    } else {
      var rest := BuiltPath(segments[1..]);
      BuiltPathCons(segments);
      RemoveDotsBuilt("/", segments[1..], out + lead + e);
      RemoveDotsStep(lead, e, rest, out);
    }
  }

  lemma {:induction false} RemoveDotsStep(lead: Bytes, e: Bytes, rest: Bytes, out: Bytes)
    requires Plain(e) && (lead == "" || lead == "/")
    requires RemoveDots("/" + rest, out + lead + e) == out + lead + e + "/" + rest
    ensures RemoveDots(lead + (e + ("/" + rest)), out) == out + lead + (e + ("/" + rest))
  {
    MovePlainSegment(lead, e, "/" + rest, out);
    assert lead + (e + ("/" + rest)) == lead + e + ("/" + rest);
    Regroup(out, lead, e, rest);
  }

  lemma {:induction false} RemoveDotsPlain(lead: Bytes, e: Bytes, out: Bytes)
    requires Plain(e) && (lead == "" || lead == "/")
    ensures RemoveDots(lead + e + [], out) == out + lead + e
  {
    MovePlainSegment(lead, e, [], out);
  }

  lemma {:induction false} Regroup(a: Bytes, b: Bytes, c: Bytes, d: Bytes)
    ensures a + b + c + "/" + d == a + b + (c + ("/" + d))
  {}

  // ----- The base path in front -----

  // Which rule applies, and what it does, is settled by the base path alone.
  lemma {:induction false} SameRule(b: Bytes, p: Bytes, out: Bytes)
    requires b != []
    ensures var full, alone := b + "/" + p, b + "/";
            && RuleFor(full) == RuleFor(alone) && RuleFor(alone) in {A3, A2, B, C, E}
            && Consumed(full) == Consumed(alone)
            && Consumed(alone) <= |b| + 1
            && (Consumed(alone) == |b| + 1 ==> RuleFor(alone) in {A3, A2})
            && Emitted(full, out) == Emitted(alone, out)
  {
    var full, alone := b + "/" + p, b + "/";
    assert forall j :: 0 <= j < |alone| ==> full[j] == alone[j];
    assert alone[|b|] == '/';
    var n := Index(alone, '/', 1);
    assert n <= |b| && alone[n] == '/';
    assert forall j :: 1 <= j < n ==> full[j] != '/';
    IndexUnique(full, '/', 1, n);
    assert full[..n] == alone[..n];
  }

  lemma {:induction false} ShiftBase(b: Bytes, n: nat, p: Bytes)
    requires n <= |b|
    ensures (b + "/" + p)[n..] == b[n..] + "/" + p
    ensures (b + "/")[n..] == b[n..] + "/"
  {}

  lemma {:induction false} RemoveDotsSlash(out: Bytes)
    ensures RemoveDots("/", out) == out + "/"
  {
    assert Consumed("/") == 1;
    assert "/"[1..] == [] && "/"[..1] == "/";
  }

  // Normalising a base path with a built path behind it leaves the built path
  // untouched behind whatever the base path alone, with its slash, becomes.
  lemma {:induction false} RemoveDotsBehind(b: Bytes, segments: seq<Bytes>, out: Bytes)
    requires segments != [] && AllUsable(segments)
    ensures RemoveDots(b + "/" + BuiltPath(segments), out) == RemoveDots(b + "/", out) + BuiltPath(segments)
    decreases |b|
  {
    var p := BuiltPath(segments);
    var full, alone := b + "/" + p, b + "/";
    if b == [] {
      assert full == "/" + p && alone == "/";
      RemoveDotsBuilt("/", segments, out);
      RemoveDotsSlash(out);
    } else {
      SameRule(b, p, out);
      var n, out' := Consumed(alone), Emitted(alone, out);
      assert RemoveDots(full, out) == RemoveDots(full[n..], out');
      assert RemoveDots(alone, out) == RemoveDots(alone[n..], out');
      if n <= |b| {
        ShiftBase(b, n, p);
        RemoveDotsBehind(b[n..], segments, out');
      } else {
        assert full[n..] == "" + p && alone[n..] == [];
        RemoveDotsBuilt("", segments, out');
        assert out' + "" == out';
      }
    }
  }

  // ----- The theorem -----

  // Normalising a built path on its own changes nothing, and under any base
  // URL it changes at most the base path: the built path stays, byte for byte,
  // behind it. No ID that passes CheckID can change the route.
  lemma {:induction false} NormalisationImmunity(base: URL, segments: seq<Bytes>)
    requires segments != [] && AllUsable(segments)
    ensures Normalised("/" + BuiltPath(segments)) == "/" + BuiltPath(segments)
    ensures ResolvePath(base, BuiltPath(segments)).Resolved?
    ensures Normalised(EscapedPath(ResolvePath(base, BuiltPath(segments)).url)) ==
            Normalised(TrimSuffixSlash(EscapedPath(base)) + "/") + BuiltPath(segments)
  {
    var p := BuiltPath(segments);
    DecodeUnreservedBuiltPath(segments);
    DecodeUnreservedOne('/', p);
    assert "/" + p == ['/'] + p;
    RemoveDotsBuilt("/", segments, []);

    ResolveBuiltPath(base, segments);
    NormalisedBehind(TrimSuffixSlash(EscapedPath(base)), segments);
  }

  lemma {:induction false} DecodedBehind(prefix: Bytes, p: Bytes)
    ensures DecodeUnreserved(prefix + "/" + p) == DecodeUnreserved(prefix) + "/" + DecodeUnreserved(p)
  {
    var d := DecodeUnreserved(prefix);
    DecodeUnreservedAtSlash(prefix, p);
    assert prefix + "/" + p == prefix + ("/" + p);
    assert d + "/" + DecodeUnreserved(p) == d + ("/" + DecodeUnreserved(p));
  }

  lemma {:induction false} DecodedAlone(prefix: Bytes)
    ensures DecodeUnreserved(prefix + "/") == DecodeUnreserved(prefix) + "/"
  {
    DecodedBehind(prefix, []);
    assert prefix + "/" + [] == prefix + "/";
  }

  lemma {:induction false} NormalisedBehind(prefix: Bytes, segments: seq<Bytes>)
    requires segments != [] && AllUsable(segments)
    ensures Normalised(prefix + "/" + BuiltPath(segments)) == Normalised(prefix + "/") + BuiltPath(segments)
  {
    var p := BuiltPath(segments);
    calc {
      Normalised(prefix + "/" + p);
      { DecodedBehind(prefix, p); DecodeUnreservedBuiltPath(segments); }
      RemoveDots(DecodeUnreserved(prefix) + "/" + p, []);
      { RemoveDotsBehind(DecodeUnreserved(prefix), segments, []); }
      RemoveDots(DecodeUnreserved(prefix) + "/", []) + p;
      { DecodedAlone(prefix); }
      Normalised(prefix + "/") + p;
    }
  }

  // The check is needed: an unchecked ".." climbs out of its parent segment.
  lemma {:induction false} UncheckedDotsClimb(parent: Bytes)
    requires CheckID(parent).Usable?
    ensures Normalised("/" + BuiltPath([parent, ".."])) == "/"
  {
    var p := BuiltPath([parent, ".."]);
    var e := Escape(Segment, parent);
    BuiltOverDots(parent);
    DecodeUnreservedBuiltPath([parent, ".."]);
    DecodeUnreservedOne('/', p);
    assert "/" + p == ['/'] + p == "/" + e + "/..";
    CheckedSegmentIsPlain(parent);
    ClimbOver(e);
  }

  // Nor does encoding the dots by hand protect them: a proxy decodes them first.
  lemma {:induction false} EncodedDotsClimb(parent: Bytes)
    requires CheckID(parent).Usable?
    ensures Normalised("/" + Escape(Segment, parent) + "/%2e%2E") == "/"
  {
    var e := Escape(Segment, parent);
    var p := "/" + e;
    calc {
      Normalised(p + "/" + "%2e%2E");
      RemoveDots(DecodeUnreserved(p + "/" + "%2e%2E"), []);
      { DecodedBehind(p, "%2e%2E"); DotsDecoded(); DecodedParent(parent); }
      RemoveDots(p + "/" + "..", []);
      { assert p + "/" + ".." == p + "/.."; CheckedSegmentIsPlain(parent); ClimbOver(e); }
      "/";
    }
    assert p + "/" + "%2e%2E" == p + "/%2e%2E";
  }

  lemma {:induction false} DecodedParent(parent: Bytes)
    ensures DecodeUnreserved("/" + Escape(Segment, parent)) == "/" + Escape(Segment, parent)
  {
    var e := Escape(Segment, parent);
    DecodeUnreservedOne('/', e);
    assert "/" + e == ['/'] + e;
    assert BuiltPath([parent]) == e;
    DecodeUnreservedBuiltPath([parent]);
  }

  lemma {:induction false} DotsDecoded()
    ensures DecodeUnreserved("%2e%2E") == ".."
  {
    assert "%2e%2E"[3..] == "%2E" && "%2E"[3..] == "";
    assert EscapedByte("%2E") == '.' && DecodeUnreserved("%2E") == ['.'] + DecodeUnreserved("");
    assert EscapedByte("%2e%2E") == '.';
  }

  lemma {:induction false} BuiltOverDots(parent: Bytes)
    ensures BuiltPath([parent, ".."]) == Escape(Segment, parent) + "/.."
  {
    assert Escape(Segment, "..") == ".." by {
      assert ".."[1..] == "." && Escape(Segment, ".") == ".";
    }
    BuiltPathCons([parent, ".."]);
    assert [parent, ".."][1..] == [".."];
    assert "/" + ".." == "/..";
  }

  lemma {:induction false} ClimbOver(e: Bytes)
    requires Plain(e)
    ensures RemoveDots("/" + e + "/..", []) == "/"
  {
    MovePlainSegment("/", e, "/..", []);
    assert [] + "/" + e == "/" + e;
    DropPlain(e);
    RemoveDotsEnd("/" + e);
  }

  lemma {:induction false} RemoveDotsEnd(out: Bytes)
    ensures RemoveDots("/..", out) == DropLastSegment(out) + "/"
  {
    assert RuleFor("/..") == CEnd;
    RemoveDotsSlash(DropLastSegment(out));
  }

  lemma {:induction false} DropPlain(e: Bytes)
    requires '/' !in e
    ensures DropLastSegment("/" + e) == []
  {
    var s := "/" + e;
    if e != [] {
      assert s[..|s| - 1] == "/" + e[..|e| - 1];
      DropPlain(e[..|e| - 1]);
    }
  }

  // ----- The buffer machine against a stack of segments -----

  function AbsolutePath(segments: seq<Bytes>): Bytes
  {
    if segments == [] then [] else "/" + segments[0] + AbsolutePath(segments[1..])
  }

  predicate SlashFree(segments: seq<Bytes>)
  {
    forall s :: s in segments ==> '/' !in s
  }

  function Pop(stack: seq<Bytes>): seq<Bytes>
  {
    if stack == [] then [] else stack[..|stack| - 1]
  }

  // A dot goes, two dots take the segment before them along, and either leaves
  // a slash behind at the end of a path.
  function OnStack(segments: seq<Bytes>, stack: seq<Bytes>): seq<Bytes>
  {
    if segments == [] then stack
    else
      var s, rest := segments[0], segments[1..];
      if s != "." && s != ".." then OnStack(rest, stack + [s])
      else
        var below := if s == "." then stack else Pop(stack);
        if rest == [] then below + [""] else OnStack(rest, below)
  }

  lemma {:induction false} AbsoluteSnoc(stack: seq<Bytes>, s: Bytes)
    ensures AbsolutePath(stack + [s]) == AbsolutePath(stack) + "/" + s
  {
    if stack == [] {
      assert [] + [s] == [s] && [s][1..] == [];
      assert "/" + s + [] == "/" + s;
    } else {
      assert (stack + [s])[1..] == stack[1..] + [s];
      AbsoluteSnoc(stack[1..], s);
    }
  }

  lemma {:induction false} DropFrom(front: Bytes, s: Bytes)
    requires '/' !in s
    ensures DropLastSegment(front + "/" + s) == front
  {
    var all := front + "/" + s;
    if s == [] {
      assert all[..|all| - 1] == front;
    } else {
      assert all[..|all| - 1] == front + "/" + s[..|s| - 1];
      DropFrom(front, s[..|s| - 1]);
    }
  }

  lemma {:induction false} DropPops(stack: seq<Bytes>)
    requires SlashFree(stack)
    ensures DropLastSegment(AbsolutePath(stack)) == AbsolutePath(Pop(stack))
  {
    if stack != [] {
      var front, s := stack[..|stack| - 1], stack[|stack| - 1];
      assert stack == front + [s];
      AbsoluteSnoc(front, s);
      DropFrom(AbsolutePath(front), s);
    }
  }

  // Rule E moves one whole segment.
  lemma {:induction false} MoveSegment(s: Bytes, after: Bytes)
    requires '/' !in s && s != "." && s != ".."
    requires after != [] ==> after[0] == '/'
    ensures var inp := "/" + s + after;
            RuleFor(inp) == E && Consumed(inp) == 1 + |s| && inp[..1 + |s|] == "/" + s && inp[1 + |s|..] == after
  {
    var inp := "/" + s + after;
    assert forall j :: 1 <= j < 1 + |s| ==> inp[j] == s[j - 1];
    IndexUnique(inp, '/', 1, 1 + |s|);
    if |s| == 1 {
      assert s == [s[0]] && inp[1] == s[0];
    } else if |s| == 2 {
      assert s == [s[0], s[1]] && inp[1] == s[0] && inp[2] == s[1];
    }
  }

  lemma {:induction false} StackSlashFree(stack: seq<Bytes>, s: Bytes)
    requires SlashFree(stack) && '/' !in s
    ensures SlashFree(stack + [s]) && SlashFree(Pop(stack))
  {}

  lemma {:induction false} StackSegment(s: Bytes, after: Bytes, stack: seq<Bytes>)
    requires '/' !in s && s != "." && s != ".."
    requires after != [] ==> after[0] == '/'
    ensures RemoveDots("/" + s + after, AbsolutePath(stack)) == RemoveDots(after, AbsolutePath(stack + [s]))
  {
    MoveSegment(s, after);
    AbsoluteSnoc(stack, s);
    assert AbsolutePath(stack) + ("/" + s) == AbsolutePath(stack) + "/" + s;
  }

  // A path ending in dots leaves a slash behind.
  lemma {:induction false} TrailingSlash(stack: seq<Bytes>)
    ensures RemoveDots("/", AbsolutePath(stack)) == AbsolutePath(stack + [""])
  {
    RemoveDotsSlash(AbsolutePath(stack));
    AbsoluteSnoc(stack, "");
    assert AbsolutePath(stack) + "/" + "" == AbsolutePath(stack) + "/";
  }

  lemma {:induction false} StackDot(after: Bytes, stack: seq<Bytes>)
    requires after != [] ==> after[0] == '/'
    ensures RemoveDots("/." + after, AbsolutePath(stack)) ==
            if after == [] then AbsolutePath(stack + [""]) else RemoveDots(after, AbsolutePath(stack))
  {
    var inp := "/." + after;
    if after == [] {
      assert inp == "/." && RuleFor(inp) == BEnd;
      TrailingSlash(stack);
    } else {
      assert RuleFor(inp) == B && inp[2..] == after;
    }
  }

  lemma {:induction false} StackDots(after: Bytes, stack: seq<Bytes>)
    requires SlashFree(stack)
    requires after != [] ==> after[0] == '/'
    ensures RemoveDots("/.." + after, AbsolutePath(stack)) ==
            if after == [] then AbsolutePath(Pop(stack) + [""]) else RemoveDots(after, AbsolutePath(Pop(stack)))
  {
    var inp := "/.." + after;
    DropPops(stack);
    if after == [] {
      assert inp == "/.." && RuleFor(inp) == CEnd;
      TrailingSlash(Pop(stack));
    } else {
      assert RuleFor(inp) == C && inp[3..] == after;
    }
  }

  lemma {:induction false} AbsoluteHead(segments: seq<Bytes>)
    requires segments != [] && SlashFree(segments)
    ensures var after := AbsolutePath(segments[1..]);
            && AbsolutePath(segments) == "/" + segments[0] + after
            && (after == [] <==> segments[1..] == [])
            && (after != [] ==> after[0] == '/')
            && '/' !in segments[0] && SlashFree(segments[1..])
  {
    assert segments[0] in segments;
    assert forall x :: x in segments[1..] ==> x in segments;
  }

  // One segment of the path, whatever it is.
  lemma {:induction false} OneSegment(s: Bytes, after: Bytes, stack: seq<Bytes>)
    requires SlashFree(stack) && '/' !in s
    requires after != [] ==> after[0] == '/'
    ensures RemoveDots("/" + s + after, AbsolutePath(stack)) ==
            if s != "." && s != ".." then RemoveDots(after, AbsolutePath(stack + [s]))
            else if after == [] then AbsolutePath((if s == "." then stack else Pop(stack)) + [""])
            else RemoveDots(after, AbsolutePath(if s == "." then stack else Pop(stack)))
  {
    if s == "." {
      assert "/" + s == "/.";
      StackDot(after, stack);
    } else if s == ".." {
      assert "/" + s == "/..";
      StackDots(after, stack);
    } else {
      StackSegment(s, after, stack);
    }
  }

  // On every absolute path the buffers of section 5.2.4 compute what a stack of
  // segments does.
  lemma {:induction false} RemoveDotsIsAStack(segments: seq<Bytes>, stack: seq<Bytes>)
    requires SlashFree(segments) && SlashFree(stack)
    ensures RemoveDots(AbsolutePath(segments), AbsolutePath(stack)) == AbsolutePath(OnStack(segments, stack))
  {
    if segments != [] {
      var s, rest := segments[0], segments[1..];
      AbsoluteHead(segments);
      OneSegment(s, AbsolutePath(rest), stack);
      StackSlashFree(stack, s);
      if s != "." && s != ".." {
        RemoveDotsIsAStack(rest, stack + [s]);
      } else if rest != [] {
        RemoveDotsIsAStack(rest, if s == "." then stack else Pop(stack));
      }
    }
  }
}
