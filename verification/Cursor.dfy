// The cursor loop (example_test.go) against a server that pages a fixed list
// as pagination.go documents it.
module Cursor {
  import opened ByteStrings
  import opened Durations
  import opened Query

  // Cursors are opaque, never empty, and name a position each.
  datatype Server<T> = Server(items: seq<T>, cursorAt: nat -> Bytes, positionOf: Bytes -> nat)
  {
    ghost predicate Valid()
    {
      forall n :: cursorAt(n) != "" && positionOf(cursorAt(n)) == n
    }
  }

  datatype Page<T> = Page(data: seq<T>, count: nat, limit: nat, nextPage: Bytes)

  // A limit of zero or less is not sent and means 50; others stop at 100.
  function PageSize(limit: int): (n: nat)
    ensures 1 <= n <= 100
  {
    if limit <= 0 then 50 else if limit > 100 then 100 else limit
  }

  function StartOf<T>(server: Server<T>, opts: ListOptions): nat
  {
    if opts.pageCursor == "" then 0 else server.positionOf(opts.pageCursor)
  }

  function Serve<T>(server: Server<T>, opts: ListOptions): Page<T>
  {
    var n, total, from := PageSize(opts.limit), |server.items|, StartOf(server, opts);
    if from >= total then Page([], total, n, "")
    else if from + n >= total then Page(server.items[from..], total, n, "")
    else Page(server.items[from..from + n], total, n, server.cursorAt(from + n))
  }

  // count items fill exactly this many pages of n, an empty list still taking one.
  predicate FillsPages(count: nat, n: nat, pages: nat)
  {
    if count == 0 then pages == 1 else pages > 0 && (pages - 1) * n < count <= pages * n
  }

  lemma {:induction false} OneMorePage(n: nat, pages: nat, count: nat)
    requires pages * n < count <= pages * n + n
    ensures FillsPages(count, n, pages + 1)
  {
    assert (pages + 1) * n == pages * n + n;
  }

  // A page holds the next items; its cursor, if any, leads to where it ends.
  lemma {:induction false} PageAt<T>(server: Server<T>, opts: ListOptions)
    requires server.Valid() && StartOf(server, opts) <= |server.items|
    ensures var page, from, n := Serve(server, opts), StartOf(server, opts), PageSize(opts.limit);
            if from + n < |server.items| then
              && page.data == server.items[from..from + n]
              && page.nextPage != ""
              && StartOf(server, opts.(pageCursor := page.nextPage)) == from + n
            else
              page.data == server.items[from..] && page.nextPage == ""
  {}

  lemma {:induction false} Adjacent<T>(s: seq<T>, a: nat, b: nat, c: nat)
    requires a <= b <= c <= |s|
    ensures s[a..b] + s[b..c] == s[a..c]
  {}

  // Requests until the metadata stops handing back a cursor. The items seen are
  // the list from the first cursor on, each once and in order, in as many
  // requests as they fill pages.
  method WalkPages<T>(server: Server<T>, first: ListOptions) returns (seen: seq<T>, requests: nat)
    requires server.Valid()
    requires StartOf(server, first) <= |server.items|
    ensures seen == server.items[StartOf(server, first)..]
    ensures FillsPages(|seen|, PageSize(first.limit), requests)
    ensures first.limit <= 0 ==> FillsPages(|seen|, 50, requests)
    ensures 1 <= first.limit <= 100 ==> FillsPages(|seen|, first.limit, requests)
    ensures first.limit > 100 ==> FillsPages(|seen|, 100, requests)
  {
    ghost var start, n := StartOf(server, first), PageSize(first.limit);
    ghost var done: nat := 0;
    var opts := first;
    seen := [];
    requests := 0;
    while true
      invariant opts.limit == first.limit
      invariant StartOf(server, opts) == start + done <= |server.items|
      invariant done == requests * n
      invariant start + done == |server.items| ==> done == 0 && requests == 0
      invariant seen == server.items[start..start + done]
      decreases |server.items| - done
    {
      var page := Serve(server, opts);
      PageAt(server, opts);
      Adjacent(server.items, start, start + done, start + done + |page.data|);
      seen := Collect(seen, page.data);
      if page.nextPage == "" {
        if |server.items| > start {
          OneMorePage(n, requests, |server.items| - start);
        }
        requests := requests + 1;
        break;
      }
      MulSucc(requests, n);
      requests, done := requests + 1, done + n;
      opts := opts.(pageCursor := page.nextPage);
    }
  }

  // The body of the loop over one page.
  method Collect<T>(seen: seq<T>, data: seq<T>) returns (all: seq<T>)
    ensures all == seen + data
  {
    all := seen;
    for i := 0 to |data|
      invariant all == seen + data[..i]
    {
      all := all + [data[i]];
    }
  }
}
