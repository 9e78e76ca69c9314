/** Dispatch of the request path (already stripped of query and fragment) to
    the handler's operations, for GET and for POST. */
module Routes {

  import opened Wrappers
  import opened Text
  import opened Numerals

  /** What a GET path is served by. */
  datatype GetTarget = UiPage | ItemsQuery | ClaimsQuery | MetricsQuery | EmployeesQuery | NoGetRoute

  /** What a POST path is served by; `claimKey` is the path piece naming the claim. */
  datatype PostTarget = AddItemRoute | ApproveRoute(claimKey: string) | NoPostRoute

  const ItemsPath: string := "/api/items"
  const ClaimsPrefix: string := "/api/claims/"
  const ApproveSuffix: string := "/approve"

  predicate StartsWith(s: string, prefix: string)
  {
    prefix <= s
  }

  predicate EndsWith(s: string, suffix: string)
  {
    |suffix| <= |s| && s[|s| - |suffix|..] == suffix
  }

  function GetRoute(path: string): (t: GetTarget)
    ensures t == UiPage <==> path == "/" || path == "/ui.html"
    ensures t == ItemsQuery <==> path == ItemsPath
    ensures t == ClaimsQuery <==> path == "/api/claims"
    ensures t == MetricsQuery <==> path == "/api/metrics"
    ensures t == EmployeesQuery <==> path == "/api/employees"
  {
    if path == "/" || path == "/ui.html" then UiPage
    else if path == ItemsPath then ItemsQuery
    else if path == "/api/claims" then ClaimsQuery
    else if path == "/api/metrics" then MetricsQuery
    else if path == "/api/employees" then EmployeesQuery
    else NoGetRoute
  }

  /** Below the claims prefix the first three pieces are fixed, so the piece
      at index 3 always exists. */
  lemma SplitUnderClaimsPrefix(path: string)
    requires StartsWith(path, ClaimsPrefix)
    ensures Split(path) == ["", "api", "claims"] + Split(path[|ClaimsPrefix|..])
  {
    var rest := path[|ClaimsPrefix|..];
    assert path == "" + "/" + ("api" + "/" + ("claims" + "/" + rest));
    SplitPrefixed("", "api", "claims", rest);
  }

  /** Splitting `a/b/c/rest` for separator-free `a`, `b`, `c`. */
  lemma SplitPrefixed(a: string, b: string, c: string, rest: string)
    requires '/' !in a && '/' !in b && '/' !in c
    ensures Split(a + "/" + (b + "/" + (c + "/" + rest))) == [a, b, c] + Split(rest)
  {
    var t3 := c + "/" + rest;
    var t2 := b + "/" + t3;
    SplitOfPiece(a);
    SplitOfPiece(b);
    SplitOfPiece(c);
    SplitAppend(c, rest);
    SplitAppend(b, t3);
    SplitAppend(a, t2);
  }

  /** The POST dispatch: the item path, then any path with the claims prefix
      and the approve suffix, whose claim key is piece 3 of the path split at
      every separator. */
  function PostRoute(path: string): (t: PostTarget)
    ensures t == AddItemRoute <==> path == ItemsPath
    ensures t.ApproveRoute? <==> StartsWith(path, ClaimsPrefix) && EndsWith(path, ApproveSuffix)
    ensures t.ApproveRoute? ==>
      var rest := path[|ClaimsPrefix|..];
      && t.claimKey <= rest
      && '/' !in t.claimKey
      && (|t.claimKey| == |rest| || rest[|t.claimKey|] == '/')
  {
    if path == ItemsPath then AddItemRoute
    else if StartsWith(path, ClaimsPrefix) && EndsWith(path, ApproveSuffix) then
      SplitUnderClaimsPrefix(path);
      var rest := path[|ClaimsPrefix|..];
      SplitHead(rest);
      SplitPiecesAreSeparatorFree(rest);
      ApproveRoute(Split(path)[3])
    else NoPostRoute
  }

  /** Any path with the claims prefix and the approve suffix approves the
      first piece after the prefix. */
  lemma ApproveRouteOf(path: string)
    requires StartsWith(path, ClaimsPrefix) && EndsWith(path, ApproveSuffix)
    ensures PostRoute(path) == ApproveRoute(Split(path[|ClaimsPrefix|..])[0])
  {
    assert |path| >= |ClaimsPrefix| > |ItemsPath|;
    SplitUnderClaimsPrefix(path);
  }

  /** The URL the front end builds for a claim key without separators
      dispatches to approval of exactly that key. */
  lemma {:induction false} ApprovePathRoundTrip(key: string)
    requires '/' !in key
    ensures PostRoute(ClaimsPrefix + key + ApproveSuffix) == ApproveRoute(key)
  {
    var path := ClaimsPrefix + key + ApproveSuffix;
    ApprovePathShape(key);
    ApproveRouteOf(path);
    KeyIsFirstPiece(key);
  }

  lemma ApprovePathShape(key: string)
    ensures var path := ClaimsPrefix + key + ApproveSuffix;
      StartsWith(path, ClaimsPrefix) && EndsWith(path, ApproveSuffix)
      && path[|ClaimsPrefix|..] == key + ApproveSuffix
  {
    var rest := key + ApproveSuffix;
    var path := ClaimsPrefix + key + ApproveSuffix;
    assert path == ClaimsPrefix + rest;
    assert path[..|ClaimsPrefix|] == ClaimsPrefix && path[|ClaimsPrefix|..] == rest;
    assert path[|path| - |ApproveSuffix|..] == ApproveSuffix;
  }

  lemma KeyIsFirstPiece(key: string)
    requires '/' !in key
    ensures Split(key + ApproveSuffix)[0] == key
  {
    assert key + ApproveSuffix == key + "/" + "approve";
    SplitAppend(key, "approve");
    SplitOfPiece(key);
  }

  /** The numeral of claim `n` in that URL reads back as `n`. */
  lemma ApprovePathOfId(n: nat)
    ensures PostRoute(ClaimsPrefix + Decimal(n) + ApproveSuffix) == ApproveRoute(Decimal(n))
    ensures ParseDecimal(Decimal(n)) == Some(n)
  {
    ApprovePathRoundTrip(Decimal(n));
    ParseDecimal_Decimal(n);
  }

  /** The match is loose: pieces between the key and the suffix are ignored,
      so `/api/claims/7/extra/approve` approves claim key `7`. */
  lemma {:induction false} ExtraPiecesIgnored(key: string, middle: string)
    requires '/' !in key
    ensures PostRoute(ClaimsPrefix + key + "/" + middle + ApproveSuffix) == ApproveRoute(key)
  {
    var path := ClaimsPrefix + key + "/" + middle + ApproveSuffix;
    var rest := key + "/" + (middle + ApproveSuffix);
    assert path == ClaimsPrefix + rest;
    assert path[|ClaimsPrefix|..] == rest;
    SplitUnderClaimsPrefix(path);
    SplitAppend(key, middle + ApproveSuffix);
    SplitOfPiece(key);
    assert path[|path| - |ApproveSuffix|..] == ApproveSuffix;
  }

  /** The match is loose: the prefix and the suffix may share their
      separator, so `/api/claims/approve` asks to approve claim key `approve`. */
  lemma SharedSeparatorMatches()
    ensures PostRoute(ClaimsPrefix + "approve") == ApproveRoute("approve")
  {
    SharedSeparatorShape();
    ApproveRouteOf(ClaimsPrefix + "approve");
    SplitOfPiece("approve");
  }

  lemma SharedSeparatorShape()
    ensures var path := ClaimsPrefix + "approve";
      StartsWith(path, ClaimsPrefix) && EndsWith(path, ApproveSuffix)
      && path[|ClaimsPrefix|..] == "approve"
  {
    var path := ClaimsPrefix + "approve";
    assert path[..|ClaimsPrefix|] == ClaimsPrefix && path[|ClaimsPrefix|..] == "approve";
    assert path[|path| - |ApproveSuffix|..] == [ClaimsPrefix[11]] + "approve";
  }
}
