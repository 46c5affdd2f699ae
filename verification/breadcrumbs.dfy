/**
 The breadcrumb deriver: maps a request's original URL to the navigation
 trail stored on the request. The URL is treated as an opaque string and is
 not parsed: a query string is split on "/" like the rest, so it ends up in
 the last segment only when it contains no "/".
 */
module Breadcrumbs {
  import opened Wrappers
  import opened Strings

  /** One navigation entry; a `None` url means "current page, not a link". */
  datatype Breadcrumb = Breadcrumb(name: string, url: Option<string>)

  /** The fixed first entry of every trail. */
  const Home := Breadcrumb("Home", Some("/"))

  /** The path segments: the URL without its first character, split on `/`. */
  function Segments(url: string): (segs: seq<string>)
    ensures |segs| == Count(DropFirst(url), '/') + 1
    ensures forall i :: 0 <= i < |segs| ==> '/' !in segs[i]
  {
    Split(DropFirst(url), '/')
  }

  /** For a URL starting with "/", the segments joined by "/" after a leading "/" give the URL back. */
  lemma SegmentsRebuildUrl(url: string)
    requires |url| > 0 && url[0] == '/'
    ensures "/" + Join(Segments(url), '/') == url
  {
    JoinSplit(DropFirst(url), '/');
  }

  /** Joining the first n segments extends the join of the first n - 1 by "/" and segment n - 1. */
  lemma JoinPrefixStep(segs: seq<string>, n: nat)
    requires 1 <= n <= |segs|
    ensures n == 1 ==> Join(segs[..n], '/') == segs[0]
    ensures n > 1 ==> Join(segs[..n], '/') == Join(segs[..n - 1], '/') + "/" + segs[n - 1]
  {
    if n > 1 {
      JoinSnoc(segs[..n - 1], segs[n - 1], '/');
      assert segs[..n - 1] + [segs[n - 1]] == segs[..n];
    }
  }

  /** The cumulative path of the first `n` segments: "/" + s0 + "/" + s1 ... + "/" + s(n-1). */
  function PathPrefix(segs: seq<string>, n: nat): string
    requires n <= |segs|
  {
    if n == 0 then "" else PathPrefix(segs, n - 1) + "/" + segs[n - 1]
  }

  /** The cumulative path of the first n segments is "/" followed by those segments joined by "/". */
  lemma {:induction false} PathPrefixIsJoin(segs: seq<string>, n: nat)
    requires 1 <= n <= |segs|
    ensures PathPrefix(segs, n) == "/" + Join(segs[..n], '/')
  {
    JoinPrefixStep(segs, n);
    if n > 1 {
      PathPrefixIsJoin(segs, n - 1);
    }
  }

  /** Extending the accumulator by the first segment shifts the cumulative path by one segment. */
  lemma {:induction false} PathPrefixShift(acc: string, segs: seq<string>, m: nat)
    requires m + 1 <= |segs|
    ensures acc + "/" + segs[0] + PathPrefix(segs[1..], m) == acc + PathPrefix(segs, m + 1)
  {
    if m == 0 {
      assert PathPrefix(segs, 1) == "" + "/" + segs[0];
    } else {
      PathPrefixShift(acc, segs, m - 1);
      var head := acc + "/" + segs[0];
      assert segs[1..][m - 1] == segs[m];
      calc {
        head + PathPrefix(segs[1..], m);
        head + (PathPrefix(segs[1..], m - 1) + "/" + segs[m]);
        (head + PathPrefix(segs[1..], m - 1)) + "/" + segs[m];
        (acc + PathPrefix(segs, m)) + "/" + segs[m];
        acc + (PathPrefix(segs, m) + "/" + segs[m]);
      }
    }
  }

  /** The entry at index k of a trail whose accumulated path is `acc`. */
  function Crumb(acc: string, segs: seq<string>, k: nat): Breadcrumb
    requires k < |segs|
  {
    Breadcrumb(Capitalize(segs[k]), if k == |segs| - 1 then None else Some(acc + PathPrefix(segs, k + 1)))
  }

  /** The first entry of a trail links to the accumulator extended by the first segment, unless it is the last. */
  lemma CrumbFirst(acc: string, segs: seq<string>)
    requires |segs| >= 1
    ensures Crumb(acc, segs, 0) ==
      Breadcrumb(Capitalize(segs[0]), if |segs| == 1 then None else Some(acc + "/" + segs[0]))
  {
    assert acc + PathPrefix(segs, 1) == acc + ("" + "/" + segs[0]) == acc + "/" + segs[0];
  }

  /** Entry k of a trail is entry k - 1 of the trail of the remaining segments, with the accumulator extended. */
  lemma CrumbShift(acc: string, segs: seq<string>, k: nat)
    requires 1 <= k < |segs|
    ensures Crumb(acc + "/" + segs[0], segs[1..], k - 1) == Crumb(acc, segs, k)
  {
    if k < |segs| - 1 {
      PathPrefixShift(acc, segs, k);
    }
  }

  /**
   One step of the trail: the entry for the first segment in front of the
   trail of the remaining segments, whose accumulator is extended by that
   segment, is the trail of all the segments.
   */
  lemma TrailCons(acc: string, segs: seq<string>, rest: seq<Breadcrumb>)
    requires |segs| >= 1
    requires |rest| == |segs| - 1
    requires forall k :: 0 <= k < |rest| ==> rest[k] == Crumb(acc + "/" + segs[0], segs[1..], k)
    ensures var first := Breadcrumb(Capitalize(segs[0]), if |segs| == 1 then None else Some(acc + "/" + segs[0]));
      forall k :: 0 <= k < |segs| ==> ([first] + rest)[k] == Crumb(acc, segs, k)
  {
    var first := Breadcrumb(Capitalize(segs[0]), if |segs| == 1 then None else Some(acc + "/" + segs[0]));
    var r := [first] + rest;
    CrumbFirst(acc, segs);
    forall k | 1 <= k < |segs|
      ensures r[k] == Crumb(acc, segs, k)
    {
      assert r[k] == rest[k - 1];
      CrumbShift(acc, segs, k);
    }
  }

  /**
   The entries for `segs`, with `acc` the path accumulated so far: the
   recursive form of the loop body, which extends `acc` by "/" + segment for
   every segment but the last, whose url is null.
   */
  function Trail(acc: string, segs: seq<string>): (r: seq<Breadcrumb>)
    ensures |r| == |segs|
    ensures forall k :: 0 <= k < |segs| ==> r[k] == Crumb(acc, segs, k)
    decreases |segs|
  {
    if |segs| == 0 then []
    else
      var url := if |segs| == 1 then None else Some(acc + "/" + segs[0]);
      var rest := Trail(acc + "/" + segs[0], segs[1..]);
      TrailCons(acc, segs, rest);
      [Breadcrumb(Capitalize(segs[0]), url)] + rest
  }

  /**
   The whole trail for a list of segments: the Home entry, then one entry per
   segment, named after it with its first character upper-cased and linked
   to the cumulative path up to it; only the final entry has no link.
   */
  function Derive(segs: seq<string>): (r: seq<Breadcrumb>)
    requires |segs| >= 1
    ensures |r| == |segs| + 1
    ensures r[0] == Home
    ensures forall k :: 1 <= k < |r| ==> r[k].name == Capitalize(segs[k - 1])
    ensures forall k :: 0 <= k < |r| ==> (r[k].url == None <==> k == |r| - 1)
    ensures forall k {:trigger r[k]} :: 1 <= k < |r| - 1 ==> r[k].url == Some(PathPrefix(segs, k))
  {
    var t := Trail("", segs);
    var r := [Home] + t;
    forall k | 1 <= k < |r|
      ensures r[k] == Crumb("", segs, k - 1)
      ensures k < |r| - 1 ==> r[k].url == Some(PathPrefix(segs, k))
    {
      assert r[k] == t[k - 1];
      assert "" + PathPrefix(segs, k) == PathPrefix(segs, k);
    }
    r
  }

  /**
   `getBreadcrumbs(url)`: the fixed Home entry, then one entry per segment
   (empty segments included). Entry k (k >= 1) is named after segment k-1
   with its first character upper-cased; its url is the cumulative path of
   the first k segments, except for the last entry, which alone has no url.
   */
  function GetBreadcrumbs(url: string): (r: seq<Breadcrumb>)
    ensures |r| == |Segments(url)| + 1 >= 2
    ensures r[0] == Home
    ensures forall k :: 1 <= k < |r| ==> r[k].name == Capitalize(Segments(url)[k - 1])
    ensures forall k :: 0 <= k < |r| ==> (r[k].url == None <==> k == |r| - 1)
    ensures forall k {:trigger r[k]} :: 1 <= k < |r| - 1 ==> r[k].url == Some(PathPrefix(Segments(url), k))
  {
    Derive(Segments(url))
  }

  /** The trail has two entries more than the URL has slashes after its first character. */
  lemma CrumbCount(url: string)
    ensures |GetBreadcrumbs(url)| == Count(DropFirst(url), '/') + 2
  {
  }

  /**
   The same derivation written as the source's loop: `rtn` starts as
   [Home], `acc` as "", and iteration i writes entry i + 1.
   */
  method BuildBreadcrumbs(url: string) returns (rtn: seq<Breadcrumb>)
    ensures rtn == GetBreadcrumbs(url)
  {
    rtn := [Home];
    var acc: Option<string> := Some("");
    var arr := Split(DropFirst(url), '/');
    var i := 0;
    while i < |arr|
      invariant 0 <= i <= |arr|
      invariant |rtn| == i + 1
      invariant rtn[0] == Home
      invariant i < |arr| ==> acc == Some(PathPrefix(arr, i))
      invariant forall k :: 1 <= k <= i ==> rtn[k] == Crumb("", arr, k - 1)
    {
      acc := if i != |arr| - 1 then Some(acc.value + "/" + arr[i]) else None;
      rtn := rtn + [Breadcrumb(Capitalize(arr[i]), acc)];
      assert rtn[i + 1] == Crumb("", arr, i) by {
        assert "" + PathPrefix(arr, i + 1) == PathPrefix(arr, i + 1);
      }
      i := i + 1;
    }
    var trail := Trail("", arr);
    assert forall k :: 1 <= k < |rtn| ==> rtn[k] == trail[k - 1];
    assert rtn == [Home] + trail;
  }

  /** The cumulative path of the first j segments followed by "/" and the rest rebuilds "/" + the joined segments. */
  lemma {:induction false} PathPrefixThenRest(segs: seq<string>, n: nat)
    requires n < |segs|
    ensures PathPrefix(segs, n) + "/" + Join(segs[n..], '/') == "/" + Join(segs, '/')
  {
    if n > 0 {
      PathPrefixThenRest(segs, n - 1);
      var rest := segs[n - 1..];
      assert rest[1..] == segs[n..];
      assert Join(rest, '/') == segs[n - 1] + "/" + Join(segs[n..], '/');
    }
  }

  /** A shorter cumulative path is a proper prefix of a longer one, followed there by "/". */
  lemma {:induction false} PathPrefixGrows(segs: seq<string>, j: nat, k: nat)
    requires j < k <= |segs|
    ensures |PathPrefix(segs, j)| < |PathPrefix(segs, k)|
    ensures PathPrefix(segs, k)[..|PathPrefix(segs, j)|] == PathPrefix(segs, j)
    ensures PathPrefix(segs, k)[|PathPrefix(segs, j)|] == '/'
    decreases k
  {
    if j < k - 1 {
      PathPrefixGrows(segs, j, k - 1);
      var p := PathPrefix(segs, k - 1);
      assert PathPrefix(segs, k) == p + ("/" + segs[k - 1]);
      assert PathPrefix(segs, k)[..|p|] == p;
    }
  }

  /**
   For a URL that starts with "/", every linked entry after Home points at a
   proper prefix of the URL that ends just before a "/" of the URL.
   */
  lemma CrumbUrlIsPrefixOfUrl(url: string, k: nat)
    requires |url| > 0 && url[0] == '/'
    requires 1 <= k < |GetBreadcrumbs(url)| - 1
    ensures GetBreadcrumbs(url)[k].url.Some?
    ensures var p := GetBreadcrumbs(url)[k].url.value;
      |p| < |url| && url[..|p|] == p && url[|p|] == '/'
  {
    var segs := Segments(url);
    var p := PathPrefix(segs, k);
    SegmentsRebuildUrl(url);
    PathPrefixThenRest(segs, k);
    assert url == p + "/" + Join(segs[k..], '/');
    assert url[..|p|] == p;
  }

  /** Linked entries strictly grow: each one's url is a proper prefix of the next ones'. */
  lemma CrumbUrlsGrow(url: string, j: nat, k: nat)
    requires 1 <= j < k < |GetBreadcrumbs(url)| - 1
    ensures var r := GetBreadcrumbs(url);
      r[j].url.Some? && r[k].url.Some? &&
      |r[j].url.value| < |r[k].url.value| &&
      r[k].url.value[..|r[j].url.value|] == r[j].url.value
  {
    PathPrefixGrows(Segments(url), j, k);
  }

  /** The root path "/" has a single, empty segment: Home and an empty unlinked entry. */
  lemma RootPath()
    ensures GetBreadcrumbs("/") == [Home, Breadcrumb("", None)]
  {
    assert DropFirst("/") == "";
  }

  /** The empty URL behaves like "/", because substring(1) of "" is "". */
  lemma EmptyUrl()
    ensures GetBreadcrumbs("") == GetBreadcrumbs("/")
  {
  }

  /*
   The worked cases below take the URL as a parameter pinned by `requires`
   instead of writing the literal inside `ensures`: applied to a literal, the
   verifier evaluates `Split` on it symbolically, which makes the proof slow
   and unstable.
   */

  /** The segments of a URL are any separator-free pieces that join to it after its first character. */
  lemma SegmentsAre(url: string, segs: seq<string>)
    requires |segs| >= 1
    requires forall i :: 0 <= i < |segs| ==> '/' !in segs[i]
    requires DropFirst(url) == Join(segs, '/')
    ensures Segments(url) == segs
  {
    SplitJoin(segs, '/');
  }

  /** A trailing slash yields a final empty, unlinked entry. */
  lemma TrailingSlash(url: string)
    requires url == "/products/"
    ensures GetBreadcrumbs(url) ==
      [Home, Breadcrumb("Products", Some("/products")), Breadcrumb("", None)]
  {
    var segs := ["products", ""];
    assert DropFirst(url) == "products" + "/" + "" == Join(segs, '/');
    SegmentsAre(url, segs);
    assert Capitalize("products") == "Products";
    assert PathPrefix(segs, 1) == "" + "/" + "products" == "/products";
  }

  /** A two-segment path: only the first segment is a link. */
  lemma TwoSegments(url: string)
    requires url == "/products/shoes"
    ensures GetBreadcrumbs(url) ==
      [Home, Breadcrumb("Products", Some("/products")), Breadcrumb("Shoes", None)]
  {
    var segs := ["products", "shoes"];
    assert DropFirst(url) == "products" + "/" + "shoes" == Join(segs, '/');
    SegmentsAre(url, segs);
    assert Capitalize("products") == "Products";
    assert Capitalize("shoes") == "Shoes";
    assert PathPrefix(segs, 1) == "" + "/" + "products" == "/products";
  }

  /** Only the first character is upper-cased; the rest is not lower-cased. */
  lemma FirstCharacterOnly(url: string)
    requires url == "/aBC"
    ensures GetBreadcrumbs(url) == [Home, Breadcrumb("ABC", None)]
  {
    SegmentsAre(url, ["aBC"]);
    assert Capitalize("aBC") == "ABC";
  }

  /** Empty pieces between consecutive slashes are kept as entries. */
  lemma DoubleSlash(url: string)
    requires url == "/a//b"
    ensures GetBreadcrumbs(url) ==
      [Home, Breadcrumb("A", Some("/a")), Breadcrumb("", Some("/a/")), Breadcrumb("B", None)]
  {
    var segs := ["a", "", "b"];
    assert DropFirst(url) == "a" + "/" + "" + "/" + "b" == Join(segs, '/');
    SegmentsAre(url, segs);
    assert Capitalize("a") == "A";
    assert Capitalize("b") == "B";
    assert PathPrefix(segs, 1) == "" + "/" + "a" == "/a";
    assert PathPrefix(segs, 2) == "/a" + "/" + "" == "/a/";
  }

  /** A "/" inside a query string splits it like any other "/" of the URL. */
  lemma SlashInQuery(url: string)
    requires url == "/p?n=/c"
    ensures GetBreadcrumbs(url) ==
      [Home, Breadcrumb("P?n=", Some("/p?n=")), Breadcrumb("C", None)]
  {
    var segs := ["p?n=", "c"];
    assert DropFirst(url) == "p?n=" + "/" + "c" == Join(segs, '/');
    SegmentsAre(url, segs);
    assert Capitalize("p?n=") == "P?n=";
    assert Capitalize("c") == "C";
    assert PathPrefix(segs, 1) == "" + "/" + "p?n=" == "/p?n=";
  }
}
