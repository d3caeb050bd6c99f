/**
  The one piece of logic in the HTTP handlers: reading the numeric id from a path
  such as `/products/123`.
 */
module Handlers {
  import opened Wrappers
  import opened Errors
  import opened Numbers
  import opened Strings

  const InvalidPath := Message("invalid URL path")
  /** Given on user routes as well as product routes. */
  const InvalidId := Message("invalid product ID")

  /**
    `getIDFromPath` as a function of the path: split on '/', take the third piece
    (index 2; the first piece is the empty text before the leading '/') and read it
    with `strconv.Atoi`. Later pieces are ignored. Every error comes with id 0, and a
    successful id is a 64-bit `int`, possibly zero or negative.
   */
  function GetIdFromPath(path: string): (r: (int, Outcome))
    ensures r.1 != Pass ==> r.0 == 0
    ensures r.1 == Fail(InvalidPath) <==> |Split(path, '/')| < 3
    ensures r.1 == Pass ==> MinInt64 <= r.0 <= MaxInt64
    ensures r.1 == Pass || r.1 == Fail(InvalidPath) || r.1 == Fail(InvalidId)
    ensures |Split(path, '/')| >= 3 ==>
              match Atoi(Split(path, '/')[2])
              case None => r == (0, Fail(InvalidId))
              case Some(n) => r == (n, Pass)
  {
    var parts := Split(path, '/');
    if |parts| < 3 then (0, Fail(InvalidPath))
    else
      match Atoi(parts[2])
      case None => (0, Fail(InvalidId))
      case Some(id) => (id, Pass)
  }

  lemma NoSlashInFormatInt(n: int)
    ensures '/' !in FormatInt(n)
  {
    var d := Decimal(if n < 0 then -n else n);
    assert forall k :: 0 <= k < |d| ==> IsDigit(d[k]);
    if n < 0 {
      assert forall k :: 1 <= k < |FormatInt(n)| ==> FormatInt(n)[k] == d[k - 1];
    }
  }

  /** `/<a>/<b>` with no '/' inside `a` or `b` splits into the three pieces "", a, b. */
  lemma SplitRoute(a: string, b: string)
    requires '/' !in a && '/' !in b
    ensures Split("/" + a + "/" + b, '/') == ["", a, b]
  {
    var parts := ["", a, b];
    assert Join(parts[2..], '/') == b;
    assert Join(parts[1..], '/') == a + "/" + b;
    assert Join(parts, '/') == "/" + a + "/" + b;
    SplitJoin(parts, '/');
  }

  /** The result depends on the number of pieces and the third piece only. */
  lemma SameThirdPiece(p: string, q: string)
    requires |Split(p, '/')| >= 3 && |Split(q, '/')| >= 3
    requires Split(p, '/')[2] == Split(q, '/')[2]
    ensures GetIdFromPath(p) == GetIdFromPath(q)
  {
  }

  /** The id printed into `/<resource>/<id>` is read back, for every 64-bit `int`. */
  lemma IdFromFormattedPath(resource: string, n: int)
    requires '/' !in resource
    requires MinInt64 <= n <= MaxInt64
    ensures GetIdFromPath("/" + resource + "/" + FormatInt(n)) == (n, Pass)
  {
    NoSlashInFormatInt(n);
    SplitRoute(resource, FormatInt(n));
    AtoiFormatInt(n);
  }

  /** Only the third piece is read: anything after it does not change the result. */
  lemma LaterSegmentsIgnored(path: string, rest: string)
    requires |Split(path, '/')| >= 3
    ensures GetIdFromPath(path + "/" + rest) == GetIdFromPath(path)
  {
    var p, q := Split(path, '/'), Split(rest, '/');
    SplitAppend(path, rest, '/');
    assert path + "/" + rest == path + ['/'] + rest;
    assert (p + q)[2] == p[2];
    SameThirdPiece(path + "/" + rest, path);
  }

  /** "/products/7/x" gives 7: the trailing piece is ignored. */
  lemma TrailingPieceExample()
    ensures GetIdFromPath("/products/7/x") == (7, Pass)
  {
    assert FormatInt(7) == "7";
    IdFromFormattedPath("products", 7);
    assert "/products/7/x" == "/products/7" + "/" + "x";
    assert "/products/7" == "/" + "products" + "/" + FormatInt(7);
    LaterSegmentsIgnored("/products/7", "x");
  }

  /** "/users/-3" gives -3: a sign is accepted and nothing demands a positive id. */
  lemma NegativeIdExample()
    ensures GetIdFromPath("/users/-3") == (-3, Pass)
  {
    assert FormatInt(-3) == "-3";
    IdFromFormattedPath("users", -3);
    assert "/users/-3" == "/" + "users" + "/" + FormatInt(-3);
  }

  /** "/products/0042" gives 42: leading zeros are accepted. */
  lemma LeadingZeroIdExample()
    ensures GetIdFromPath("/products/0042") == (42, Pass)
  {
    assert "/products/0042" == "/" + "products" + "/" + "0042";
    SplitRoute("products", "0042");
    AtoiNonCanonical();
  }

  /** "/products" has two pieces only. */
  lemma MissingIdExample()
    ensures GetIdFromPath("/products") == (0, Fail(InvalidPath))
  {
    var parts := ["", "products"];
    assert Join(parts, '/') == "/products" by {
      assert Join(parts[1..], '/') == "products";
    }
    assert '/' !in parts[1];
    SplitJoin(parts, '/');
  }

  /** "/products/" has an empty third piece, which is not a number. */
  lemma EmptyIdExample()
    ensures GetIdFromPath("/products/") == (0, Fail(InvalidId))
  {
    assert "/products/" == "/" + "products" + "/" + "";
    SplitRoute("products", "");
  }

  /** "/users/abc" is refused as an invalid product ID, on a user route. */
  lemma NonNumericIdExample()
    ensures GetIdFromPath("/users/abc") == (0, Fail(InvalidId))
  {
    assert "/users/abc" == "/" + "users" + "/" + "abc";
    SplitRoute("users", "abc");
    assert !IsDigit("abc"[0]);
  }
}
