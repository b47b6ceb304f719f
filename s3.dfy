/**
 * lib/s3.js: retrying an S3 call that was rate-limited, with exponential backoff, and listing
 * every object of a bucket by following continuation tokens page by page.
 */
module S3 {
  import opened Wrappers

  datatype S3Error = S3Error(code: string, message: string)

  /** How a call to the service settles: a value, or a rejection carrying an error. */
  datatype Outcome<+T> = Resolved(value: T) | Rejected(error: S3Error)

  /** The error code S3 uses when it throttles a caller. */
  const RateLimitCode: string := "SlowDown"

  /** The error thrown when no attempt was allowed at all. */
  const UnknownError: S3Error := S3Error("", "Unknown error.")

  const DefaultNumRetries: nat := 6
  const DefaultBackoffMs: nat := 100
  const DefaultBackoffMaxMs: nat := 5000

  predicate IsRateLimited<T>(o: Outcome<T>) {
    o.Rejected? && o.error.code == RateLimitCode
  }

  // ---------------------------------------------------------------------------------------
  // retryOnRateLimit

  function Pow2(n: nat): (p: nat)
    ensures p >= 1
  {
    if n == 0 then 1 else 2 * Pow2(n - 1)
  }

  function Min(a: nat, b: nat): nat {
    if a <= b then a else b
  }

  /**
   * The wait before call number `k` (counting from 0): none before the first call, then
   * `backoffMs` doubled once per further failure, never more than `backoffMaxMs`.
   */
  function Backoff(k: nat, backoffMs: nat, backoffMaxMs: nat): (w: nat)
    ensures w <= backoffMaxMs
  {
    if k == 0 then 0 else Min(backoffMs * Pow2(k - 1), backoffMaxMs)
  }

  /** The source's update of `backoff` after a rate-limited call. */
  function NextBackoff(backoff: nat, backoffMs: nat, backoffMaxMs: nat): nat {
    var b := if backoff == 0 then backoffMs else backoff * 2;
    if b > backoffMaxMs then backoffMaxMs else b
  }

  lemma DoubleProduct(a: nat, p: nat)
    ensures a * (2 * p) == 2 * (a * p)
  {
  }

  /** Updating the counter step by step yields the closed form. */
  lemma BackoffStep(k: nat, backoffMs: nat, backoffMaxMs: nat)
    ensures NextBackoff(Backoff(k, backoffMs, backoffMaxMs), backoffMs, backoffMaxMs) == Backoff(k + 1, backoffMs, backoffMaxMs)
  {
    if k > 0 {
      var p := Pow2(k - 1);
      var b := Backoff(k, backoffMs, backoffMaxMs);
      assert Pow2(k) == 2 * p;
      DoubleProduct(backoffMs, p);
      if b == 0 {
        assert backoffMs * p == 0 || backoffMaxMs == 0;
        if backoffMs * p == 0 {
          assert backoffMs == 0;
        }
      }
    }
  }

  /**
   * `retryOnRateLimit(f, numRetries, backoffMs, backoffMaxMs)`. `script[k]` is how the k-th call
   * of `f` settles. Returns how the retry settles and the wait before each call made (one entry
   * per call).
   */
  method RetryOnRateLimit<T>(script: seq<Outcome<T>>, numRetries: nat, backoffMs: nat, backoffMaxMs: nat)
    returns (r: Outcome<T>, waits: seq<nat>)
    requires numRetries <= |script|
    ensures |waits| <= numRetries
    ensures forall k :: 0 <= k < |waits| ==> waits[k] == Backoff(k, backoffMs, backoffMaxMs)
    ensures forall k :: 0 <= k < |waits| - 1 ==> IsRateLimited(script[k])
    ensures |waits| == 0 ==> numRetries == 0 && r == Rejected(UnknownError)
    ensures |waits| > 0 ==> r == script[|waits| - 1]
    ensures |waits| < numRetries ==> !IsRateLimited(r)
  {
    var numTried: nat := 0;
    var backoff: nat := 0;
    var lastErr: Option<S3Error> := None;
    waits := [];
    while numTried != numRetries
      invariant numTried <= numRetries && |waits| == numTried
      invariant backoff == Backoff(numTried, backoffMs, backoffMaxMs)
      invariant forall k :: 0 <= k < |waits| ==> waits[k] == Backoff(k, backoffMs, backoffMaxMs)
      invariant forall k :: 0 <= k < |waits| ==> IsRateLimited(script[k])
      invariant lastErr == if numTried == 0 then None else Some(script[numTried - 1].error)
      decreases numRetries - numTried
    {
      waits := waits + [backoff];
      var o := script[numTried];
      if !IsRateLimited(o) {
        return o, waits;
      }
      numTried := numTried + 1;
      lastErr := Some(o.error);
      BackoffStep(numTried - 1, backoffMs, backoffMaxMs);
      if backoff == 0 {
        backoff := backoffMs;
      } else {
        backoff := backoff * 2;
      }
      if backoff > backoffMaxMs {
        backoff := backoffMaxMs;
      }
    }
    if lastErr.Some? {
      r := Rejected(lastErr.value);
    } else {
      r := Rejected(UnknownError);
    }
  }

  /** The waits of test/s3.retryOnRateLimit.test.js "Backs off, but not more than max": 50 ms doubling, capped at 200. */
  lemma CappedBackoffExample()
    ensures [Backoff(0, 50, 200), Backoff(1, 50, 200), Backoff(2, 50, 200), Backoff(3, 50, 200),
             Backoff(4, 50, 200), Backoff(5, 50, 200)] == [0, 50, 100, 200, 200, 200]
  {
    assert Pow2(4) == 16;
  }

  // ---------------------------------------------------------------------------------------
  // listAllObjects

  datatype ListParams = ListParams(bucket: string, prefix: string, continuationToken: Option<string>)

  datatype S3Object = S3Object(key: string)

  /** One `listObjectsV2` response. */
  datatype Page = Page(contents: seq<S3Object>, isTruncated: bool, nextContinuationToken: Option<string>)

  /** Another page is requested when this one is truncated and carries a (non-empty) token. */
  predicate Continues(p: Page) {
    p.isTruncated && p.nextContinuationToken.Some? && p.nextContinuationToken.value != ""
  }

  /** A page script that ends: some page fails or is the last one. */
  predicate Terminates(pages: seq<Outcome<Page>>)
    decreases |pages|
  {
    pages != [] && (pages[0].Rejected? || !Continues(pages[0].value) || Terminates(pages[1..]))
  }

  /** How many pages are requested: every one that continues, then the one that stops. */
  function Fetched(pages: seq<Outcome<Page>>): (n: nat)
    requires Terminates(pages)
    ensures 1 <= n <= |pages|
    ensures forall i :: 0 <= i < n - 1 ==> pages[i].Resolved? && Continues(pages[i].value)
    ensures pages[n - 1].Rejected? || !Continues(pages[n - 1].value)
    decreases |pages|
  {
    if pages[0].Rejected? || !Continues(pages[0].value) then 1 else 1 + Fetched(pages[1..])
  }

  function ConcatContents(pages: seq<Outcome<Page>>): seq<S3Object>
    requires forall i :: 0 <= i < |pages| ==> pages[i].Resolved?
  {
    if pages == [] then [] else pages[0].value.contents + ConcatContents(pages[1..])
  }

  /** What a listing returns, and the parameters of each request it made. */
  datatype Listing = Listing(result: Outcome<seq<S3Object>>, requests: seq<ListParams>)

  /**
   * `listAllObjects(s3, params)`: `pages[i]` is how the i-th page request settles, after its
   * retries. The next request repeats `params` with `ContinuationToken` set to the previous
   * page's `NextContinuationToken`; the contents of the pages are concatenated in order, and
   * the first failed request fails the listing.
   */
  function ListAllObjects(pages: seq<Outcome<Page>>, params: ListParams): (l: Listing)
    requires Terminates(pages)
    ensures |l.requests| == Fetched(pages) && l.requests[0] == params
    ensures forall i :: 0 < i < |l.requests| ==>
      l.requests[i] == params.(continuationToken := pages[i - 1].value.nextContinuationToken)
    ensures l.result.Resolved? <==> pages[Fetched(pages) - 1].Resolved?
    ensures l.result.Resolved? ==> l.result.value == ConcatContents(pages[..Fetched(pages)])
    ensures l.result.Rejected? ==> l.result.error == pages[Fetched(pages) - 1].error
    decreases |pages|
  {
    match pages[0]
    case Rejected(e) => Listing(Rejected(e), [params])
    case Resolved(p) =>
      if Continues(p) then
        var rest := ListAllObjects(pages[1..], params.(continuationToken := p.nextContinuationToken));
        assert pages[..Fetched(pages)][1..] == pages[1..][..Fetched(pages[1..])];
        Listing(match rest.result
                case Resolved(xs) => Resolved(p.contents + xs)
                case Rejected(e) => Rejected(e),
                [params] + rest.requests)
      else
        assert ConcatContents(pages[..1][1..]) == [];
        Listing(Resolved(p.contents), [params])
  }

  /** test/s3.listAllObjects.test.js: three pages, the first two truncated with token "blah". */
  lemma ThreePageExample(params: ListParams)
    ensures var o1, o2, o3 := S3Object("1"), S3Object("2"), S3Object("3");
      var pages := [Resolved(Page([o1], true, Some("blah"))), Resolved(Page([o2], true, Some("blah"))),
                    Resolved(Page([o3], false, None))];
      Terminates(pages) &&
      ListAllObjects(pages, params) ==
        Listing(Resolved([o1, o2, o3]), [params, params.(continuationToken := Some("blah")), params.(continuationToken := Some("blah"))])
  {
    var o1, o2, o3 := S3Object("1"), S3Object("2"), S3Object("3");
    var pages := [Resolved(Page([o1], true, Some("blah"))), Resolved(Page([o2], true, Some("blah"))),
                  Resolved(Page([o3], false, None))];
    assert pages[1..][1..] == [pages[2]];
    assert Terminates(pages[1..][1..]);
    assert Terminates(pages[1..]);
    assert Fetched(pages) == 3;
    assert pages[..3] == pages;
    assert ConcatContents(pages[1..][1..]) == [o3] by {
      assert pages[1..][1..][1..] == [];
    }
    assert ConcatContents(pages[1..]) == [o2, o3];
    assert ConcatContents(pages) == [o1, o2, o3];
  }
}
