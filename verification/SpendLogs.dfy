/** The LiteLLM page walk against a server that slices a fixed list of rows. */
module SpendLogs {
  import opened Wrappers

  /** Whether the server answers an object with the page count, an object without it, or a
      bare JSON list. */
  datatype Shape = WithTotal | WithoutTotal | BareList

  datatype Server<R> = Server(rows: seq<R>, shape: Shape)

  datatype Payload<R> = Payload(data: seq<R>, totalPages: Option<int>)

  function Min(a: int, b: int): int { if a < b then a else b }

  function PageCount(n: nat, size: nat): nat
    requires size >= 1
  {
    (n + size - 1) / size
  }

  function Slice<R>(rows: seq<R>, page: nat, size: nat): seq<R>
    requires page >= 1
  {
    assert (page - 1) * size >= 0;
    var from := Min((page - 1) * size, |rows|);
    rows[from..Min(from + size, |rows|)]
  }

  /** What _fetch_page returns: a bare list is wrapped as a single page. */
  function FetchPage<R>(server: Server<R>, page: nat, size: nat): Payload<R>
    requires page >= 1 && size >= 1
  {
    var data := Slice(server.rows, page, size);
    match server.shape
    case WithTotal => Payload(data, Some(PageCount(|server.rows|, size)))
    case WithoutTotal => Payload(data, None)
    case BareList => Payload(data, Some(1))
  }

  /** What the page walk makes of a server. */
  function Fetched<R>(server: Server<R>, pageSize: nat): seq<R> {
    if server.shape.BareList? then server.rows[..Min(pageSize, |server.rows|)] else server.rows
  }

  /** Two rows as a bare list, one a page: the second is never asked for. */
  lemma BareListLosesRow<R>(a: R, b: R) returns (server: Server<R>)
    ensures server == Server([a, b], BareList) && Fetched(server, 1) == [a]
  {
    server := Server([a, b], BareList);
  }

  /** Rows on the pages before this one, if they are full. */
  ghost function Before(page: nat, size: nat): nat
    requires page >= 1
  {
    if page == 1 then 0 else Before(page - 1, size) + size
  }

  /** Returns every row in order with at most one request more than full pages, unless the
      server answers bare lists: then only the first page is read, so the result is complete
      exactly when all rows fit on it. */
  method FetchSpendLogs<R>(server: Server<R>, pageSize: nat) returns (rows: seq<R>, ghost requests: nat)
    requires pageSize >= 1
    ensures rows == Fetched(server, pageSize)
    ensures rows == server.rows <==> !server.shape.BareList? || |server.rows| <= pageSize
    ensures 1 <= requests <= |server.rows| / pageSize + 1
  {
    rows := [];
    requests := 0;
    var page := 1;
    ghost var n := |server.rows|;
    while true
      invariant page >= 1 && requests == page - 1
      invariant Before(page, pageSize) <= n && rows == server.rows[..Before(page, pageSize)]
      invariant server.shape.BareList? ==> page == 1
      decreases n + 1 - page
    {
      PageFacts(server, page, pageSize);
      var payload := FetchPage(server, page, pageSize);
      requests := requests + 1;
      if payload.data == [] {
        break;
      }
      rows := rows + payload.data;
      if payload.totalPages.Some? && payload.totalPages.value != 0 && page >= payload.totalPages.value {
        break;
      }
      if |payload.data| < pageSize {
        break;
      }
      page := page + 1;
    }
  }

  /** What one request finds: the next rows; the bound has room for it; and the page is the last
      one exactly when it reaches the end. */
  lemma PageFacts<R>(server: Server<R>, page: nat, size: nat)
    requires page >= 1 && size >= 1 && Before(page, size) <= |server.rows|
    ensures var n, from := |server.rows|, Before(page, size);
      && FetchPage(server, page, size).data == server.rows[from..Min(from + size, n)]
      && page - 1 <= n / size && page - 1 <= n
      && (page >= PageCount(n, size) <==> from + size >= n)
      && Before(page + 1, size) == from + size
  {
    BeforeIs(page, size);
    PageFits(page - 1, size, |server.rows|);
    LastPage(page, size, |server.rows|);
  }

  lemma {:induction false} BeforeIs(page: nat, size: nat)
    requires page >= 1
    ensures Before(page, size) == (page - 1) * size
  {
    if page == 1 {
    } else {
      BeforeIs(page - 1, size);
      assert (page - 2) * size + size == (page - 1) * size;
    }
  }

  /** k full pages of n rows leave room for request k + 1 in the bound. */
  lemma PageFits(k: nat, size: nat, n: nat)
    requires size >= 1 && k * size <= n
    ensures k <= n / size && k <= n
  {
    var q := n / size;
    assert n < (q + 1) * size;
    if k > q { MulMono(q + 1, k, size); }
    MulMono(1, size, k);
  }

  lemma MulMono(a: nat, b: nat, c: nat)
    requires a <= b
    ensures a * c <= b * c
  {
  }

  /** Page p is the last one exactly when p pages cover the rows. */
  lemma LastPage(p: nat, size: nat, n: nat)
    requires size >= 1 && p >= 1
    ensures p >= PageCount(n, size) <==> p * size >= n
    ensures p * size == (p - 1) * size + size
  {
    var c := PageCount(n, size);
    assert c * size <= n + size - 1 < c * size + size;
    if p >= c { assert p * size >= c * size; } else { assert p * size <= (c - 1) * size; }
  }
}
