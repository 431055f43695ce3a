// Percent-encoding as net/url does it, in the three modes this client uses.
module Percent {
  import opened ByteStrings

  // One path segment (url.PathEscape), a whole path (URL.EscapedPath) and one
  // query component (url.QueryEscape).
  datatype Mode = Segment | WholePath | QueryComponent

  predicate IsAlphanumeric(c: Byte)
  {
    'a' <= c <= 'z' || 'A' <= c <= 'Z' || '0' <= c <= '9'
  }

  // Section 2.3 of RFC 3986.
  predicate IsUnreserved(c: Byte)
  {
    IsAlphanumeric(c) || c in "-_.~"
  }

  // The bytes a mode leaves as they are.
  predicate Kept(mode: Mode, c: Byte)
  {
    IsUnreserved(c) ||
    match mode
    case Segment => c in "$&+=:@"
    case WholePath => c in "$&+,/:;=@"
    case QueryComponent => false
  }

  const UPPER_HEX: Bytes := "0123456789ABCDEF"

  predicate IsHex(c: Byte)
  {
    '0' <= c <= '9' || 'a' <= c <= 'f' || 'A' <= c <= 'F'
  }

  function Unhex(c: Byte): (n: nat)
    requires IsHex(c)
    ensures n < 16
  {
    if '0' <= c <= '9' then c as int - '0' as int
    else if 'a' <= c <= 'f' then c as int - 'a' as int + 10
    else c as int - 'A' as int + 10
  }

  function EscapeByte(mode: Mode, c: Byte): (r: Bytes)
    ensures r != []
  {
    if mode.QueryComponent? && c == ' ' then ['+']
    else if Kept(mode, c) then [c]
    else ['%', UPPER_HEX[c as int / 16], UPPER_HEX[c as int % 16]]
  }

  function Escape(mode: Mode, s: Bytes): Bytes
  {
    if s == [] then [] else EscapeByte(mode, s[0]) + Escape(mode, s[1..])
  }

  // s starts with a complete escape sequence.
  predicate StartsEscape(s: Bytes)
  {
    |s| >= 3 && s[0] == '%' && IsHex(s[1]) && IsHex(s[2])
  }

  function EscapedByte(s: Bytes): Byte
    requires StartsEscape(s)
  {
    (16 * Unhex(s[1]) + Unhex(s[2])) as char
  }

  predicate WellFormed(s: Bytes)
  {
    s == [] || (if s[0] == '%' then StartsEscape(s) && WellFormed(s[3..]) else WellFormed(s[1..]))
  }

  // Percent-decoding that leaves a stray percent sign alone, as form decoders do.
  function Decode(plusIsSpace: bool, s: Bytes): Bytes
  {
    if s == [] then []
    else if StartsEscape(s) then [EscapedByte(s)] + Decode(plusIsSpace, s[3..])
    else [if plusIsSpace && s[0] == '+' then ' ' else s[0]] + Decode(plusIsSpace, s[1..])
  }

  datatype Unescaped = Malformed | Text(bytes: Bytes)

  // url.PathUnescape: a stray percent sign is an error.
  function PathUnescape(s: Bytes): Unescaped
  {
    if WellFormed(s) then Text(Decode(false, s)) else Malformed
  }

  // ----- The codec -----

  lemma {:induction false} HexRoundTrip(n: nat)
    requires n < 16
    ensures IsHex(UPPER_HEX[n]) && Unhex(UPPER_HEX[n]) == n
  {}

  lemma {:induction false} ByteRoundTrip(mode: Mode, c: Byte, rest: Bytes)
    ensures var s := EscapeByte(mode, c) + rest;
            && Decode(mode.QueryComponent?, s) == [c] + Decode(mode.QueryComponent?, rest)
            && (WellFormed(s) <==> WellFormed(rest))
  {
    var e := EscapeByte(mode, c);
    var s := e + rest;
    HexRoundTrip(c as int / 16);
    HexRoundTrip(c as int % 16);
    if |e| == 1 {
      assert s[1..] == rest;
    } else {
      assert s[3..] == rest;
      assert s[1] == UPPER_HEX[c as int / 16] && s[2] == UPPER_HEX[c as int % 16];
      assert EscapedByte(s) == c;
    }
  }

  lemma {:induction false} EscapeUnfold(mode: Mode, s: Bytes, rest: Bytes)
    requires s != []
    ensures Escape(mode, s) + rest == EscapeByte(mode, s[0]) + (Escape(mode, s[1..]) + rest)
  {}

  lemma {:induction false} ConsAppend(s: Bytes, t: Bytes)
    requires s != []
    ensures [s[0]] + (s[1..] + t) == s + t
  {}

  lemma {:induction false} EscapeDecodes(mode: Mode, s: Bytes, rest: Bytes)
    ensures Decode(mode.QueryComponent?, Escape(mode, s) + rest) == s + Decode(mode.QueryComponent?, rest)
  {
    if s == [] {
      assert Escape(mode, s) + rest == rest;
    } else {
      var plus, tail := mode.QueryComponent?, Escape(mode, s[1..]) + rest;
      EscapeUnfold(mode, s, rest);
      calc {
        Decode(plus, Escape(mode, s) + rest);
        { ByteRoundTrip(mode, s[0], tail); }
        [s[0]] + Decode(plus, tail);
        { EscapeDecodes(mode, s[1..], rest); }
        [s[0]] + (s[1..] + Decode(plus, rest));
        { ConsAppend(s, Decode(plus, rest)); }
        s + Decode(plus, rest);
      }
    }
  }

  lemma {:induction false} EscapeIsWellFormed(mode: Mode, s: Bytes, rest: Bytes)
    ensures WellFormed(Escape(mode, s) + rest) <==> WellFormed(rest)
  {
    if s == [] {
      assert Escape(mode, s) + rest == rest;
    } else {
      EscapeUnfold(mode, s, rest);
      ByteRoundTrip(mode, s[0], Escape(mode, s[1..]) + rest);
      EscapeIsWellFormed(mode, s[1..], rest);
    }
  }

  // Decoding undoes escaping, in every mode and on every byte string, with
  // anything after it.
  lemma {:induction false} EscapeRoundTrip(mode: Mode, s: Bytes, rest: Bytes)
    ensures Decode(mode.QueryComponent?, Escape(mode, s) + rest) == s + Decode(mode.QueryComponent?, rest)
    ensures WellFormed(Escape(mode, s) + rest) <==> WellFormed(rest)
  {
    EscapeDecodes(mode, s, rest);
    EscapeIsWellFormed(mode, s, rest);
  }

  lemma {:induction false} SegmentRoundTrip(s: Bytes)
    ensures PathUnescape(Escape(Segment, s)) == Text(s)
  {
    EscapeRoundTrip(Segment, s, []);
    assert Escape(Segment, s) + [] == Escape(Segment, s);
  }

  // Only kept bytes, percent signs and hex digits come out, plus the plus sign
  // that stands for a space in a query.
  lemma {:induction false} EscapeAlphabet(mode: Mode, s: Bytes)
    ensures forall c :: c in Escape(mode, s) ==> Kept(mode, c) || c == '%' || (mode.QueryComponent? && c == '+')
  {
    if s != [] {
      EscapeAlphabet(mode, s[1..]);
      HexRoundTrip(s[0] as int / 16);
      HexRoundTrip(s[0] as int % 16);
      assert forall c :: c in EscapeByte(mode, s[0]) ==> Kept(mode, c) || c == '%' || (mode.QueryComponent? && c == '+');
    }
  }

  // The bytes that stand for themselves in a mode, byte by byte.
  predicate Literal(mode: Mode, c: Byte)
  {
    || 'a' <= c <= 'z' || 'A' <= c <= 'Z' || '0' <= c <= '9' || c in "-_.~"
    || (mode.Segment? && c in "$&+=:@")
    || (mode.WholePath? && c in "$&+,/:;=@")
  }

  predicate Literals(mode: Mode, s: Bytes)
  {
    forall i :: 0 <= i < |s| ==> Literal(mode, s[i])
  }

  // Exactly the strings of literal bytes escape to themselves.
  lemma {:induction false} EscapeExactly(mode: Mode, s: Bytes)
    ensures Escape(mode, s) == s <==> Literals(mode, s)
    ensures |Escape(mode, s)| >= |s|
  {
    if s != [] {
      EscapeExactly(mode, s[1..]);
      var e, rest := EscapeByte(mode, s[0]), Escape(mode, s[1..]);
      assert |Escape(mode, s)| == |e| + |rest|;
      if Literal(mode, s[0]) {
        assert e == [s[0]];
        assert s == [s[0]] + s[1..];
        assert (e + rest)[1..] == rest;
      } else {
        assert |e| == 3 || e[0] != s[0];
      }
      if Literals(mode, s) {
        assert Literals(mode, s[1..]);
      } else if Literal(mode, s[0]) {
        assert !Literals(mode, s[1..]);
      }
    }
  }

  // Any other byte becomes a percent sign and two upper-case hex digits, but for
  // the space of a query.
  lemma {:induction false} EscapedByByte(mode: Mode, c: Byte, high: nat, low: nat)
    requires c as int == 16 * high + low && high < 16 && low < 16
    requires !Literal(mode, c) && !(mode.QueryComponent? && c == ' ')
    ensures Escape(mode, [c]) == "%" + ["0123456789ABCDEF"[high], "0123456789ABCDEF"[low]]
  {
    assert [c][1..] == [];
    assert c as int / 16 == high && c as int % 16 == low;
    assert Escape(mode, []) == [];
  }

  lemma {:induction false} EscapeInjective(mode: Mode, a: Bytes, b: Bytes)
    requires Escape(mode, a) == Escape(mode, b)
    ensures a == b
  {
    EscapeRoundTrip(mode, a, []);
    EscapeRoundTrip(mode, b, []);
    assert a + [] == a && b + [] == b;
    assert Decode(mode.QueryComponent?, []) == [];
  }

  // Two decodings compose at any point where the first part is well formed.
  lemma {:induction false} DecodeConcat(a: Bytes, b: Bytes)
    requires WellFormed(a)
    ensures Decode(false, a + b) == Decode(false, a) + Decode(false, b)
    ensures WellFormed(a + b) <==> WellFormed(b)
  {
    if a == [] {
      assert a + b == b;
    } else if a[0] == '%' {
      assert (a + b)[3..] == a[3..] + b;
      DecodeConcat(a[3..], b);
    } else {
      assert (a + b)[1..] == a[1..] + b;
      DecodeConcat(a[1..], b);
    }
  }
}
