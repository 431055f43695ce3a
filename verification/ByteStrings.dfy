// Byte strings, as Go strings are, with joining, splitting and the byte order
// that sort.Strings uses.
module ByteStrings {
  type Byte = c: char | c as int < 256

  type Bytes = seq<Byte>

  // strings.Join
  function Join(parts: seq<Bytes>, sep: Bytes): (r: Bytes)
  {
    if parts == [] then []
    else if |parts| == 1 then parts[0]
    else parts[0] + sep + Join(parts[1..], sep)
  }

  // The position of the first c at or after from, or the length of s.
  function Index(s: Bytes, c: Byte, from: nat): (i: nat)
    requires from <= |s|
    ensures from <= i <= |s|
    ensures i < |s| ==> s[i] == c
    ensures forall j :: from <= j < i ==> s[j] != c
    decreases |s| - from
  {
    if from == |s| || s[from] == c then from else Index(s, c, from + 1)
  }

  // strings.Split on a one-byte separator; there is always a first part.
  function Split(s: Bytes, c: Byte): (parts: seq<Bytes>)
    ensures parts != []
    decreases |s|
  {
    var i := Index(s, c, 0);
    if i == |s| then [s] else [s[..i]] + Split(s[i + 1..], c)
  }

  lemma {:induction false} IndexUnique(s: Bytes, c: Byte, from: nat, n: nat)
    requires from <= n <= |s| && forall j :: from <= j < n ==> s[j] != c
    requires n < |s| ==> s[n] == c
    ensures Index(s, c, from) == n
  {}

  lemma {:induction false} IndexOfConcat(a: Bytes, c: Byte, b: Bytes)
    requires c !in a
    requires b != [] ==> b[0] == c
    ensures Index(a + b, c, 0) == |a|
  {
    IndexUnique(a + b, c, 0, |a|);
  }

  lemma {:induction false} SplitJoin(parts: seq<Bytes>, c: Byte)
    requires parts != []
    requires forall p :: p in parts ==> c !in p
    ensures Split(Join(parts, [c]), c) == parts
  {
    var s := Join(parts, [c]);
    if |parts| == 1 {
      assert s + [] == s;
      IndexOfConcat(parts[0], c, []);
    } else {
      var rest := Join(parts[1..], [c]);
      assert s == parts[0] + ([c] + rest);
      IndexOfConcat(parts[0], c, [c] + rest);
      assert s[|parts[0]| + 1..] == rest;
      SplitJoin(parts[1..], c);
    }
  }

  // ----- Two-byte separators -----

  predicate PairAt(s: Bytes, c: Byte, d: Byte, i: nat) { i + 1 < |s| && s[i] == c && s[i + 1] == d }

  predicate HasPair(s: Bytes, c: Byte, d: Byte) { exists i: nat :: i < |s| && PairAt(s, c, d, i) }

  // The first place of the pair at or after from, or the length of s.
  function PairIndex(s: Bytes, c: Byte, d: Byte, from: nat): (i: nat)
    requires from <= |s|
    ensures from <= i <= |s|
    ensures i < |s| ==> PairAt(s, c, d, i)
    decreases |s| - from
  {
    if from == |s| || PairAt(s, c, d, from) then from else PairIndex(s, c, d, from + 1)
  }

  // strings.Split on a two-byte separator.
  function SplitPair(s: Bytes, c: Byte, d: Byte): (parts: seq<Bytes>)
    ensures parts != []
    decreases |s|
  {
    var i := PairIndex(s, c, d, 0);
    if i == |s| then [s] else [s[..i]] + SplitPair(s[i + 2..], c, d)
  }

  lemma {:induction false} PairIndexUnique(s: Bytes, c: Byte, d: Byte, from: nat, n: nat)
    requires from <= n <= |s| && forall j: nat :: from <= j < n ==> !PairAt(s, c, d, j)
    requires n < |s| ==> PairAt(s, c, d, n)
    ensures PairIndex(s, c, d, from) == n
    decreases n - from
  {
    if from < n {
      PairIndexUnique(s, c, d, from + 1, n);
    }
  }

  // A separator of different bytes cannot begin inside what it follows.
  lemma {:induction false} PairIndexOfConcat(a: Bytes, c: Byte, d: Byte, b: Bytes)
    requires c != d && !HasPair(a, c, d)
    ensures PairIndex(a + [c, d] + b, c, d, 0) == |a|
    ensures PairIndex(a, c, d, 0) == |a|
  {
    var s := a + [c, d] + b;
    assert s[|a|] == c && s[|a| + 1] == d;
    forall j: nat | j < |a|
      ensures !PairAt(s, c, d, j) && !PairAt(a, c, d, j)
    {
      assert s[j] == a[j];
      assert j + 1 < |a| ==> s[j + 1] == a[j + 1];
    }
    PairIndexUnique(s, c, d, 0, |a|);
    PairIndexUnique(a, c, d, 0, |a|);
  }

  lemma {:induction false} SplitPairJoin(parts: seq<Bytes>, c: Byte, d: Byte)
    requires parts != [] && c != d
    requires forall p :: p in parts ==> !HasPair(p, c, d)
    ensures SplitPair(Join(parts, [c, d]), c, d) == parts
  {
    assert parts[0] in parts;
    if |parts| == 1 {
      PairIndexOfConcat(parts[0], c, d, []);
    } else {
      var rest := Join(parts[1..], [c, d]);
      var s := parts[0] + [c, d] + rest;
      PairIndexOfConcat(parts[0], c, d, rest);
      assert s[|parts[0]| + 2..] == rest && s[..|parts[0]|] == parts[0];
      SplitPairJoin(parts[1..], c, d);
    }
  }

  // Joining strings free of a pair brings none about, unless it straddles.
  lemma {:induction false} NoPairConcat(a: Bytes, b: Bytes, c: Byte, d: Byte)
    requires !HasPair(a, c, d) && !HasPair(b, c, d)
    requires b != [] ==> b[0] != d
    ensures !HasPair(a + b, c, d)
  {
    forall i: nat | i < |a + b|
      ensures !PairAt(a + b, c, d, i)
    {
      if i + 1 < |a| {
        assert !PairAt(a, c, d, i);
      } else if |a| <= i {
        assert !PairAt(b, c, d, i - |a|);
      }
    }
  }

  // ----- Byte order -----

  predicate Below(a: Bytes, b: Bytes)
  {
    b != [] && (a == [] || a[0] < b[0] || (a[0] == b[0] && Below(a[1..], b[1..])))
  }

  // One string is below another exactly if it is a proper prefix of it, or
  // smaller at the first byte where they differ.
  lemma {:induction false} BelowExactly(a: Bytes, b: Bytes)
    ensures Below(a, b) <==>
            (a <= b && a != b) || exists k :: 0 <= k < |a| && k < |b| && a[..k] == b[..k] && a[k] < b[k]
  {
    if a != [] && b != [] {
      if a[0] == b[0] {
        BelowExactly(a[1..], b[1..]);
        assert a == [a[0]] + a[1..] && b == [b[0]] + b[1..];
        if k :| 0 <= k < |a| && k < |b| && a[..k] == b[..k] && a[k] < b[k] {
          assert k > 0;
          assert a[1..][..k - 1] == a[..k][1..] && b[1..][..k - 1] == b[..k][1..];
          assert a[1..][k - 1] < b[1..][k - 1];
        }
        if k :| 0 <= k < |a[1..]| && k < |b[1..]| && a[1..][..k] == b[1..][..k] && a[1..][k] < b[1..][k] {
          assert a[..k + 1] == [a[0]] + a[1..][..k] && b[..k + 1] == [b[0]] + b[1..][..k];
          assert a[k + 1] < b[k + 1];
        }
      } else {
        assert a[..0] == b[..0];
        assert forall k :: 0 < k < |a| && k < |b| ==> a[..k][0] != b[..k][0];
      }
    }
  }

  lemma {:induction false} BelowIrreflexive(a: Bytes)
    ensures !Below(a, a)
  {
    if a != [] {
      BelowIrreflexive(a[1..]);
    }
  }

  lemma {:induction false} BelowTransitive(a: Bytes, b: Bytes, c: Bytes)
    requires Below(a, b) && Below(b, c)
    ensures Below(a, c)
  {
    if a != [] && a[0] == b[0] == c[0] {
      BelowTransitive(a[1..], b[1..], c[1..]);
    }
  }

  lemma {:induction false} BelowTotal(a: Bytes, b: Bytes)
    ensures a == b || Below(a, b) || Below(b, a)
  {
    if a != [] && b != [] && a[0] == b[0] {
      BelowTotal(a[1..], b[1..]);
      assert a == [a[0]] + a[1..] && b == [b[0]] + b[1..];
    }
  }

  // Strictly ascending: sorted, with nothing listed twice.
  predicate Ascending(s: seq<Bytes>)
  {
    forall i, j :: 0 <= i < j < |s| ==> Below(s[i], s[j])
  }

  function Insert(x: Bytes, s: seq<Bytes>): seq<Bytes>
  {
    if s == [] || Below(x, s[0]) then [x] + s else [s[0]] + Insert(x, s[1..])
  }

  // sort.Strings
  function Sort(s: seq<Bytes>): seq<Bytes>
  {
    if s == [] then [] else Insert(s[0], Sort(s[1..]))
  }

  lemma {:induction false} InsertElements(x: Bytes, s: seq<Bytes>)
    ensures forall y :: y in Insert(x, s) <==> y == x || y in s
    ensures |Insert(x, s)| == |s| + 1
  {
    if s != [] && !Below(x, s[0]) {
      InsertElements(x, s[1..]);
      assert forall y :: y in s <==> y == s[0] || y in s[1..];
    }
  }

  lemma {:induction false} InsertAscending(x: Bytes, s: seq<Bytes>)
    requires Ascending(s) && x !in s
    ensures Ascending(Insert(x, s))
  {
    if s != [] {
      if Below(x, s[0]) {
        forall j | 0 <= j < |s|
          ensures Below(x, s[j])
        {
          if j > 0 {
            BelowTransitive(x, s[0], s[j]);
          }
        }
      } else {
        BelowTotal(x, s[0]);
        InsertAscending(x, s[1..]);
        var rest := Insert(x, s[1..]);
        InsertElements(x, s[1..]);
        forall j | 0 <= j < |rest|
          ensures Below(s[0], rest[j])
        {
          assert rest[j] in rest;
        }
      }
    }
  }

  predicate Distinct(s: seq<Bytes>)
  {
    forall i, j :: 0 <= i < j < |s| ==> s[i] != s[j]
  }

  // order lists each element of keys once: one way a map may be ranged over.
  ghost predicate Enumerates(order: seq<Bytes>, keys: set<Bytes>)
  {
    Distinct(order) && (forall k :: k in order <==> k in keys)
  }

  lemma {:induction false} SortSorts(s: seq<Bytes>)
    requires Distinct(s)
    ensures Ascending(Sort(s)) && |Sort(s)| == |s|
    ensures forall y :: y in Sort(s) <==> y in s
  {
    if s != [] {
      SortSorts(s[1..]);
      InsertElements(s[0], Sort(s[1..]));
      InsertAscending(s[0], Sort(s[1..]));
    }
  }

  lemma {:induction false} AscendingUnique(a: seq<Bytes>, b: seq<Bytes>)
    requires Ascending(a) && Ascending(b)
    requires forall y :: y in a <==> y in b
    ensures a == b
  {
    assert b != [] ==> b[0] in a;
    if a != [] {
      assert a[0] in b;
      var i :| 0 <= i < |b| && b[i] == a[0];
      var j :| 0 <= j < |a| && a[j] == b[0];
      if i > 0 && j > 0 {
        BelowTransitive(a[0], a[j], a[0]);
        BelowIrreflexive(a[0]);
      }
      assert a[0] == b[0];
      forall y
        ensures y in a[1..] <==> y in b[1..]
      {
        BelowIrreflexive(a[0]);
        if y in a[1..] {
          var k :| 0 < k < |a| && a[k] == y;
          assert y in b;
        }
        if y in b[1..] {
          var k :| 0 < k < |b| && b[k] == y;
          assert y in a;
        }
      }
      AscendingUnique(a[1..], b[1..]);
      assert a == [a[0]] + a[1..] && b == [b[0]] + b[1..];
    }
  }

  // However a map is ranged over, sorting its keys gives the same list.
  lemma {:induction false} SortCanonical(a: seq<Bytes>, b: seq<Bytes>, keys: set<Bytes>)
    requires Enumerates(a, keys) && Enumerates(b, keys)
    ensures Sort(a) == Sort(b)
    ensures Ascending(Sort(a)) && (forall k :: k in Sort(a) <==> k in keys)
  {
    SortSorts(a);
    SortSorts(b);
    AscendingUnique(Sort(a), Sort(b));
  }
}
