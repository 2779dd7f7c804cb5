/** Splitting a locale's blog posts into index pages, and the paths of those
    pages. */
module Pagination {
  import opened JsValues

  /** Posts per blog index page, as configured in the build script. */
  const PostsPerPage: nat := 1

  /** Ceiling of `n / k`. */
  function CeilDiv(n: nat, k: nat): nat
    requires k >= 1
  {
    (n + k - 1) / k
  }

  function Flatten<T>(cs: seq<seq<T>>): seq<T>
  {
    if |cs| == 0 then [] else cs[0] + Flatten(cs[1..])
  }

  /** Chunks of `k` in order, each taken from the front of what is left, as
      `splice(0, k)` does. */
  function Chunks<T>(posts: seq<T>, k: nat): seq<seq<T>>
    requires k >= 1
    decreases |posts|
  {
    if |posts| == 0 then []
    else
      var n := if |posts| < k then |posts| else k;
      [posts[..n]] + Chunks(posts[n..], k)
  }

  /** ceil(N/K) chunks, none empty, none longer than K, all but the last of
      length exactly K, and together the posts in their original order. */
  lemma {:induction false} ChunksShape<T>(posts: seq<T>, k: nat)
    requires k >= 1
    ensures var cs := Chunks(posts, k);
      && |cs| == CeilDiv(|posts|, k)
      && (forall i :: 0 <= i < |cs| ==> 1 <= |cs[i]| <= k)
      && (forall i :: 0 <= i < |cs| - 1 ==> |cs[i]| == k)
      && Flatten(cs) == posts
    decreases |posts|
  {
    if |posts| > 0 {
      var n := if |posts| < k then |posts| else k;
      var rest := Chunks(posts[n..], k);
      ChunksShape(posts[n..], k);
      CeilDivStep(|posts|, k);
      var cs := [posts[..n]] + rest;
      assert Chunks(posts, k) == cs;
      assert cs[1..] == rest;
      assert posts[..n] + posts[n..] == posts;
      forall i | 1 <= i < |cs| ensures cs[i] == rest[i - 1] {}
      if |posts| < k {
        assert |rest| == 0;
      }
    }
  }

  lemma MulBounds(k: int, x: int)
    requires k >= 1
    ensures x >= 1 ==> k * x >= k
    ensures x <= -1 ==> k * x <= -k
  {
  }

  lemma DivUnique(a: int, k: int, q: int, r: int)
    requires k >= 1 && 0 <= r < k && a == k * q + r
    ensures a / k == q
  {
    var q', r' := a / k, a % k;
    assert a == k * q' + r';
    assert k * (q - q') == r' - r;
    MulBounds(k, q - q');
  }

  lemma CeilDivStep(n: nat, k: nat)
    requires k >= 1 && n >= 1
    ensures CeilDiv(n, k) == 1 + CeilDiv(if n < k then 0 else n - k, k)
  {
    if n < k {
      DivUnique(n + k - 1, k, 1, n - 1);
      DivUnique(k - 1, k, 0, k - 1);
    } else {
      var q, r := (n - 1) / k, (n - 1) % k;
      assert n - 1 == k * q + r;
      DivUnique(n + k - 1, k, q + 1, r);
    }
  }

  /** The loop `while (blogposts.length) bloglist.push(blogposts.splice(0, k))`. */
  method Paginate<T>(posts: seq<T>, k: nat) returns (bloglist: seq<seq<T>>)
    requires k >= 1
    ensures bloglist == Chunks(posts, k)
    ensures Flatten(bloglist) == posts
    ensures |bloglist| == CeilDiv(|posts|, k)
  {
    bloglist := [];
    var blogposts := posts;
    while |blogposts| > 0
      invariant bloglist + Chunks(blogposts, k) == Chunks(posts, k)
      decreases |blogposts|
    {
      var n := if |blogposts| < k then |blogposts| else k;
      var slice := blogposts[..n];
      var rest := blogposts[n..];
      assert Chunks(blogposts, k) == [slice] + Chunks(rest, k);
      assert bloglist + [slice] + Chunks(rest, k) == bloglist + ([slice] + Chunks(rest, k));
      blogposts := rest;
      bloglist := bloglist + [slice];
    }
    assert Chunks(blogposts, k) == [];
    ChunksShape(posts, k);
  }

  /** Path of the `i`-th index page (0-based): the base path for the first,
      then the base path followed by "/" and the page number. */
  function IndexPath(base: string, i: nat): (p: string)
    ensures base <= p
    ensures i == 0 <==> p == base
    ensures i > 0 ==> p[|base|..] == "/" + Decimal(i + 1)
  {
    if i == 0 then base else base + "/" + Decimal(i + 1)
  }

  /** Distinct index pages of one locale get distinct paths. */
  lemma IndexPathsDistinct(base: string, i: nat, j: nat)
    requires i != j
    ensures IndexPath(base, i) != IndexPath(base, j)
  {
    if i > 0 && j > 0 && IndexPath(base, i) == IndexPath(base, j) {
      assert "/" + Decimal(i + 1) == "/" + Decimal(j + 1);
      assert Decimal(i + 1) == ("/" + Decimal(i + 1))[1..];
      assert Decimal(j + 1) == ("/" + Decimal(j + 1))[1..];
      DecimalInjective(i + 1, j + 1);
    }
  }

  /** The page number in an index path reads back as `i + 1`. */
  lemma IndexPathPageNumber(base: string, i: nat)
    requires i > 0
    ensures var p := IndexPath(base, i);
            |p| >= |base| + 2 && AllDigits(p[|base| + 1..]) && ParseDecimal(p[|base| + 1..]) == i + 1
  {
    var p := IndexPath(base, i);
    assert p[|base| + 1..] == (p[|base|..])[1..];
    ParseDecimalInvertsDecimal(i + 1);
  }
}
