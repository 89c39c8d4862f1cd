/**
 * The breadcrumb trail above every page: one crumb per non-empty path
 * segment, each linking to the path up to and including its segment.
 */
module Breadcrumbs {
  import opened Wrappers
  import opened Text
  import opened ListOps

  /** A crumb; `title` is the source's `label`, a keyword in Dafny. */
  datatype Crumb = Crumb(href: string, title: string, isCurrent: bool)

  /** `Boolean` on a string: whether it is non-empty. */
  predicate NonEmpty(s: string)
  {
    s != []
  }

  /** `pathname.split("/").filter(Boolean)`: the empty pieces are dropped. */
  function Segments(pathname: string): (r: seq<string>)
    ensures forall s :: s in r ==> s != [] && '/' !in s
  {
    Filter(Split(pathname, '/'), NonEmpty)
  }

  /** The link of the crumb at `index`: a slash, then the first `index + 1` segments joined by slashes. */
  function Href(segments: seq<string>, index: nat): string
    requires index < |segments|
  {
    "/" + Join(segments[..index + 1], '/')
  }

  /** One crumb per segment, labelled by the segment with its first letter capitalized; the last is current. */
  function Crumbs(segments: seq<string>): (r: seq<Crumb>)
    ensures |r| == |segments|
    ensures forall i :: 0 <= i < |r| ==> r[i].href == Href(segments, i)
    ensures forall i :: 0 <= i < |r| ==> r[i].title == Capitalize(segments[i])
    ensures forall i :: 0 <= i < |r| ==> (r[i].isCurrent <==> i == |r| - 1)
  {
    seq(|segments|, i requires 0 <= i < |segments| =>
      Crumb(Href(segments, i), Capitalize(segments[i]), i == |segments| - 1))
  }

  /** The component's result: no trail (null) when the path has no segment. */
  function BuildBreadcrumbs(pathname: string): (r: Option<seq<Crumb>>)
    ensures r == None <==> Segments(pathname) == []
    ensures r.Some? ==> r.value == Crumbs(Segments(pathname))
  {
    var segments := Segments(pathname);
    var crumbs := Crumbs(segments);
    if |crumbs| == 0 then None else Some(crumbs)
  }

  /** Exactly one crumb is current, and it is the last. */
  lemma OneCurrentCrumb(pathname: string)
    requires BuildBreadcrumbs(pathname).Some?
    ensures var r := BuildBreadcrumbs(pathname).value;
      |r| >= 1 && r[|r| - 1].isCurrent
      && forall i, j :: 0 <= i < |r| && 0 <= j < |r| && r[i].isCurrent && r[j].isCurrent ==> i == j
  {
  }

  /** Each crumb's link extends the previous one by a slash and its own segment. */
  lemma HrefChain(segments: seq<string>, i: nat)
    requires i + 1 < |segments|
    ensures Href(segments, 0) == "/" + segments[0]
    ensures Href(segments, i + 1) == Href(segments, i) + "/" + segments[i + 1]
  {
    assert segments[..1] == [segments[0]];
    assert segments[..i + 2] == segments[..i + 1] + [segments[i + 1]];
    JoinSnoc(segments[..i + 1], segments[i + 1], '/');
  }

  /** The root and the empty path show no trail. */
  lemma RootHasNoTrail()
    ensures BuildBreadcrumbs("/") == None
    ensures BuildBreadcrumbs("") == None
  {
    assert Split("/", '/') == [[], []] by {
      assert "/" == [] + ['/'] + [];
      SplitPieceThenSep([], '/', []);
    }
  }

  /** A path written as a slash before slash-separated non-empty segments. */
  function PathOf(segments: seq<string>): string
  {
    "/" + Join(segments, '/')
  }

  /**
   * On a path without doubled or trailing slashes the segments are read back
   * exactly, and the last crumb links to the path itself.
   */
  lemma {:induction false} NormalPathRoundTrip(segments: seq<string>)
    requires |segments| >= 1
    requires forall s :: s in segments ==> s != [] && '/' !in s
    ensures Segments(PathOf(segments)) == segments
    ensures BuildBreadcrumbs(PathOf(segments)).Some?
    ensures var r := BuildBreadcrumbs(PathOf(segments)).value;
      |r| == |segments| && r[|r| - 1].href == PathOf(segments)
  {
    var joined := Join(segments, '/');
    assert PathOf(segments) == [] + ['/'] + joined;
    SplitPieceThenSep([], '/', joined);
    SplitJoin(segments, '/');
    FilterAppend([[]], segments, NonEmpty);
    FilterAll(segments, NonEmpty);
    assert segments[..|segments|] == segments;
  }

  /** The promotion page's path is normal and has two segments. */
  lemma PromotionPath()
    ensures "/products/promotion" == PathOf(["products", "promotion"])
  {
    JoinCons("products", ["promotion"], '/');
  }

  /** The labels of the promotion page's segments. */
  lemma PromotionLabels()
    ensures Capitalize("products") == "Products"
    ensures Capitalize("promotion") == "Promotion"
  {
    assert "Products" == [UpperChar('p')] + "products"[1..];
    assert "Promotion" == [UpperChar('p')] + "promotion"[1..];
  }

  /** The links of the promotion page's segments. */
  lemma PromotionLinks()
    ensures Href(["products", "promotion"], 0) == "/products"
    ensures Href(["products", "promotion"], 1) == "/products/promotion"
  {
    HrefChain(["products", "promotion"], 0);
  }

  /** The crumbs of the promotion page's two segments. */
  lemma PromotionCrumbs()
    ensures Crumbs(["products", "promotion"])
         == [Crumb("/products", "Products", false), Crumb("/products/promotion", "Promotion", true)]
  {
    PromotionLabels();
    PromotionLinks();
    var r := Crumbs(["products", "promotion"]);
    assert r == [r[0], r[1]];
  }

  /** The promotion page's trail. */
  lemma PromotionTrail()
    ensures BuildBreadcrumbs("/products/promotion")
         == Some([Crumb("/products", "Products", false), Crumb("/products/promotion", "Promotion", true)])
  {
    var segments := ["products", "promotion"];
    PromotionPath();
    NormalPathRoundTrip(segments);
    assert Segments(PathOf(segments)) == segments;
    PromotionCrumbs();
    assert BuildBreadcrumbs(PathOf(segments)) == Some(Crumbs(segments));
    var path := "/products/promotion";
    assert path == PathOf(segments);
    assert BuildBreadcrumbs(path) == BuildBreadcrumbs(PathOf(segments));
  }
}
