/**
  The saved-image gallery page of the web UI (the `saved_images` script).

  The page reads `page` and `imgsPerPage` from its query, fetches the listing
  of `/media/saved/`, keeps the links to `.jpg` files, writes the page
  navigation above and below the gallery, shows the number of images, and
  fills the gallery with the links of the requested page, last listed first.

  The listing is given as the `href` of each anchor in document order (HTML
  parsing is outside the model), and the page's output as data: the
  navigation entries, the count text and the images.
*/
module Gallery {
  import opened Wrappers
  import opened Text
  import opened Numerals
  import opened SearchParams
  import opened JsNumber
  import opened StableSort

  const DirectoryPath: string := "/media/saved/"
  const DefaultPage: int := 0
  const DefaultImagesPerPage: int := 20

  /** What every plain object converts to, the key `sort()` compares. */
  const ObjectText: string := "[object Object]"

  datatype Settings = Settings(page: int, imagesPerPage: int)

  /** `Number(urlParams.get(...)) || default` for both parameters. */
  function ReadSettings(q: Query): (r: Settings)
    ensures r.imagesPerPage != 0
  {
    Settings(NumberOr(Get(q, "page"), DefaultPage), NumberOr(Get(q, "imgsPerPage"), DefaultImagesPerPage))
  }

  /**
    A page size written as an integer is used as it is, unless it is 0; a
    missing one is 20.
  */
  lemma ReadSettingsSize(q: Query, n: int)
    ensures Get(q, "imgsPerPage").None? ==> ReadSettings(q).imagesPerPage == 20
    ensures Get(q, "imgsPerPage") == Some(IntToString(n)) ==>
      ReadSettings(q).imagesPerPage == if n == 0 then 20 else n
    ensures Get(q, "page") == Some(IntToString(n)) ==> ReadSettings(q).page == n
  {
    NumberOrCases("", n, "", DefaultImagesPerPage);
    NumberOrCases("", n, "", DefaultPage);
    assert "" + IntToString(n) + "" == IntToString(n);
  }

  /** A gallery entry: the image source and its alternative text. */
  datatype Link = Link(src: string, alt: string)

  predicate IsImageHref(href: string) {
    EndsWith(href, ".jpg")
  }

  /** The entry for an anchor: the file name under the saved-images path, and the full `href`. */
  function LinkFor(href: string): Link {
    Link(DirectoryPath + LastSegment(href, '/'), href)
  }

  /** The anchors whose `href` ends in `.jpg`, in document order. */
  function CollectLinks(hrefs: seq<string>): (r: seq<Link>)
    ensures |r| <= |hrefs|
    ensures forall i :: 0 <= i < |r| ==> IsImageHref(r[i].alt) && r[i].alt in hrefs && r[i] == LinkFor(r[i].alt)
  {
    if |hrefs| == 0 then []
    else
      var front := hrefs[..|hrefs| - 1];
      var last := hrefs[|hrefs| - 1];
      assert forall h :: h in front ==> h in hrefs;
      CollectLinks(front) + (if IsImageHref(last) then [LinkFor(last)] else [])
  }

  /** Filtering keeps document order: the links of two listings in a row are the links of each, in a row. */
  lemma {:induction false} CollectLinksAppend(a: seq<string>, b: seq<string>)
    ensures CollectLinks(a + b) == CollectLinks(a) + CollectLinks(b)
    decreases |b|
  {
    if |b| == 0 {
      assert a + b == a;
    } else {
      var front := b[..|b| - 1];
      assert (a + b)[..|a + b| - 1] == a + front;
      CollectLinksAppend(a, front);
    }
  }

  /** An `href` becomes a gallery entry exactly when it is listed and ends in `.jpg`. */
  lemma {:induction false} CollectLinksMember(hrefs: seq<string>, h: string)
    ensures (exists i :: 0 <= i < |CollectLinks(hrefs)| && CollectLinks(hrefs)[i].alt == h)
      <==> h in hrefs && IsImageHref(h)
    decreases |hrefs|
  {
    if h in hrefs && IsImageHref(h) {
      var k := CollectedAt(hrefs, h);
    }
  }

  /** A listed `.jpg` link has a position among the gallery entries. */
  lemma {:induction false} CollectedAt(hrefs: seq<string>, h: string) returns (k: nat)
    requires h in hrefs && IsImageHref(h)
    ensures k < |CollectLinks(hrefs)| && CollectLinks(hrefs)[k].alt == h
    decreases |hrefs|
  {
    var front := hrefs[..|hrefs| - 1];
    var last := hrefs[|hrefs| - 1];
    var r := CollectLinks(hrefs);
    if h == last {
      k := |r| - 1;
    } else {
      assert hrefs == front + [last];
      assert h in front;
      k := CollectedAt(front, h);
      assert r[k] == CollectLinks(front)[k];
    }
  }

  /** The image source is the saved-images path followed by the file name, which ends in `.jpg`. */
  lemma ImageSource(href: string)
    requires IsImageHref(href)
    ensures StartsWith(LinkFor(href).src, DirectoryPath)
    ensures EndsWith(LinkFor(href).src, ".jpg")
    ensures '/' !in LinkFor(href).src[|DirectoryPath|..]
  {
    var name := LastSegment(href, '/');
    var src := DirectoryPath + name;
    assert src[..|DirectoryPath|] == DirectoryPath;
    assert src[|DirectoryPath|..] == name;
    assert href[|href| - 4..] == ".jpg";
    assert |name| >= 4;
    assert name[|name| - 4..] == href[|href| - 4..];
    assert src[|src| - 4..] == name[|name| - 4..];
  }

  /** Pairs each link with the text it converts to. */
  function Keyed(links: seq<Link>): (r: seq<(string, Link)>)
    ensures |r| == |links|
    ensures forall i :: 0 <= i < |r| ==> r[i] == (ObjectText, links[i])
  {
    if |links| == 0 then [] else Keyed(links[..|links| - 1]) + [(ObjectText, links[|links| - 1])]
  }

  function Unkeyed(s: seq<(string, Link)>): (r: seq<Link>)
    ensures |r| == |s|
    ensures forall i :: 0 <= i < |r| ==> r[i] == s[i].1
  {
    if |s| == 0 then [] else Unkeyed(s[..|s| - 1]) + [s[|s| - 1].1]
  }

  /** `links.sort().reverse()`. */
  function SortThenReverse(links: seq<Link>): seq<Link> {
    Reverse(Unkeyed(Sort(Keyed(links))))
  }

  /**
    Every link converts to the same text, so the stable sort keeps document
    order and the gallery shows the links in reverse document order.
  */
  lemma SortThenReverseIsReverse(links: seq<Link>)
    ensures SortThenReverse(links) == Reverse(links)
  {
    var keyed := Keyed(links);
    SortEqualKeysIdentity(keyed, ObjectText);
    assert Unkeyed(keyed) == links;
  }

  /** `Math.ceil(linkCount / n)` for a non-zero page size of either sign. */
  function PageCount(linkCount: nat, n: int): (r: int)
    requires n != 0
    ensures n > 0 ==> r >= 0 && (r - 1) * n < linkCount <= r * n
    ensures n < 0 ==> r <= 0 && r * n <= linkCount < (r - 1) * n
  {
    if n > 0 then
      var q := (linkCount + n - 1) / n;
      CeilingBounds(linkCount, n, q);
      q
    else
      var q := linkCount / -n;
      FloorBounds(linkCount, -n, q);
      -q
  }

  lemma CeilingBounds(a: nat, n: int, q: int)
    requires n > 0 && q == (a + n - 1) / n
    ensures q >= 0 && (q - 1) * n < a <= q * n
  {
    var rem := (a + n - 1) % n;
    assert a + n - 1 == q * n + rem && 0 <= rem < n;
    assert (q - 1) * n == q * n - n;
  }

  lemma FloorBounds(a: nat, m: int, q: int)
    requires m > 0 && q == a / m
    ensures q >= 0 && q * m <= a < (q + 1) * m
  {
    var rem := a % m;
    assert a == q * m + rem && 0 <= rem < m;
    assert (q + 1) * m == q * m + m;
  }

  /** No links, no pages. */
  lemma NoLinksNoPages(n: int)
    requires n != 0
    ensures PageCount(0, n) == 0
  {
    var r := PageCount(0, n);
    if n > 0 {
      assert (r - 1) * n < 0 <= r * n;
    } else {
      assert r * n <= 0;
    }
  }

  /** A relative index of `slice`: negative counts from the end; both are clamped to the length. */
  function RelativeIndex(k: int, len: nat): (r: nat)
    ensures r <= len
    ensures 0 <= k ==> r == Min(k, len)
    ensures k < 0 ==> r + Min(-k, len) == len
  {
    if k < 0 then (if len + k < 0 then 0 else len + k) else Min(k, len)
  }

  /** `Array.prototype.slice(start, end)`. */
  function JsSlice<T>(s: seq<T>, start: int, end: int): (r: seq<T>)
    ensures |r| <= |s|
    ensures 0 <= start <= end ==> r == s[Min(start, |s|)..Min(end, |s|)]
    ensures 0 <= end <= start ==> r == []
  {
    var from := RelativeIndex(start, |s|);
    var to := RelativeIndex(end, |s|);
    if from < to then s[from..to] else []
  }

  /** The links the gallery shows: the requested page, or all of them when the page is not positive. */
  function Visible(links: seq<Link>, page: int, n: int): (r: seq<Link>)
    ensures page <= 0 ==> r == links
    ensures page > 0 && n > 0 ==> r == links[Min((page - 1) * n, |links|)..Min(page * n, |links|)]
  {
    if page > 0 then
      PageStartNonNegative(page, n);
      JsSlice(links, (page - 1) * n, page * n)
    else links
  }

  lemma PageStartNonNegative(page: int, n: int)
    requires page > 0
    ensures n > 0 ==> 0 <= (page - 1) * n <= page * n
  {
    if n > 0 {
      assert page * n == (page - 1) * n + n;
    }
  }

  /**
    A negative page size slices with negative indices: page 1 shows all but
    the last `-n` links, and every later page shows nothing.
  */
  lemma NegativeSizePages(links: seq<Link>, page: int, n: int)
    requires n < 0 && page > 0
    ensures page == 1 ==> Visible(links, page, n) == links[..if |links| + n < 0 then 0 else |links| + n]
    ensures page > 1 ==> Visible(links, page, n) == []
  {
    assert page * n == (page - 1) * n + n;
    if page > 1 {
      assert (page - 1) * n < 0;
    }
  }

  /** A page past the last one shows nothing. */
  lemma PastLastPageEmpty(links: seq<Link>, page: int, n: int)
    requires n > 0 && page > PageCount(|links|, n)
    ensures Visible(links, page, n) == []
  {
    var count := PageCount(|links|, n);
    MulMonotone(page - 1, count, n);
  }

  lemma MulMonotone(a: int, b: int, n: int)
    requires a >= b && n > 0
    ensures a * n >= b * n
  {
    assert a * n - b * n == (a - b) * n;
  }

  /** The links of pages 1 to `k`, one page after another. */
  function PagesUpTo(links: seq<Link>, n: int, k: nat): seq<Link> {
    if k == 0 then [] else PagesUpTo(links, n, k - 1) + Visible(links, k, n)
  }

  /** With a positive page size, the pages 1 to `k` are the first `k * n` links, without gaps or overlaps. */
  lemma {:induction false} PagesUpToPrefix(links: seq<Link>, n: int, k: nat)
    requires n > 0
    ensures PagesUpTo(links, n, k) == links[..Min(k * n, |links|)]
    decreases k
  {
    if k > 0 {
      PagesUpToPrefix(links, n, k - 1);
      PageStartNonNegative(k, n);
      var a := Min((k - 1) * n, |links|);
      var b := Min(k * n, |links|);
      assert Visible(links, k, n) == links[a..b];
      PrefixThenSlice(links, a, b);
    }
  }

  lemma PrefixThenSlice<T>(s: seq<T>, a: nat, b: nat)
    requires a <= b <= |s|
    ensures s[..a] + s[a..b] == s[..b]
  {
  }

  /** Going through every page shows every link exactly once, in order. */
  lemma PagesCoverAllLinks(links: seq<Link>, n: int)
    requires n > 0
    ensures PagesUpTo(links, n, PageCount(|links|, n)) == links
  {
    PagesUpToPrefix(links, n, PageCount(|links|, n));
  }

  /**
    An entry of the page navigation, by the page it links to; every entry's
    `href` is `PageHref` of that page and the page size (see `Href`).
  */
  datatype NavLink =
    | Previous(target: int)
    | Numbered(number: int, current: bool)
    | Next(target: int)

  /** `?page=${page}&imgsPerPage=${imgsPerPage}`. */
  function PageHref(page: int, n: int): string {
    "?page=" + IntToString(page) + "&imgsPerPage=" + IntToString(n)
  }

  /** The `href` of a navigation entry under page size `n`. */
  function Href(link: NavLink, n: int): string {
    match link
    case Previous(target) => PageHref(target, n)
    case Numbered(number, _) => PageHref(number, n)
    case Next(target) => PageHref(target, n)
  }

  /** The numbered links 1 to `count`. */
  function NumberedLinks(count: int, page: int): (r: seq<NavLink>)
    ensures |r| == Max(count, 0)
    ensures forall i :: 0 <= i < |r| ==> r[i] == Numbered(i + 1, i + 1 == page)
    decreases count
  {
    if count <= 0 then [] else NumberedLinks(count - 1, page) + [Numbered(count, count == page)]
  }

  predicate HasPrevious(count: int, page: int) {
    count > 1 && page != 1
  }

  predicate HasNext(count: int, page: int) {
    count > 1 && page != count
  }

  /** The navigation for `count` pages: the previous link, the numbered links and the next link. */
  function Navigation(count: int, page: int): seq<NavLink> {
    var prev := if HasPrevious(count, page) then [Previous(page - 1)] else [];
    var next := if HasNext(count, page) then [Next(page + 1)] else [];
    prev + NumberedLinks(count, page) + next
  }

  /** `insertPageLinks`. */
  function PageLinks(linkCount: nat, page: int, n: int): seq<NavLink>
    requires n != 0
  {
    Navigation(PageCount(linkCount, n), page)
  }

  /**
    The navigation: a previous link exactly when there is more than one page
    and the page is not 1, then one link per page from 1 to the page count,
    then a next link exactly when there is more than one page and the page is
    not the last.
  */
  lemma PageLinksShape(linkCount: nat, page: int, n: int)
    requires n != 0
    ensures var r := PageLinks(linkCount, page, n);
      var count := PageCount(linkCount, n);
      var offset := if HasPrevious(count, page) then 1 else 0;
      && |r| == offset + Max(count, 0) + (if HasNext(count, page) then 1 else 0)
      && (|r| > 0 && r[0].Previous? <==> HasPrevious(count, page))
      && (HasPrevious(count, page) ==> r[0] == Previous(page - 1))
      && (|r| > 0 && r[|r| - 1].Next? <==> HasNext(count, page))
      && (HasNext(count, page) ==> r[|r| - 1] == Next(page + 1))
      && forall i :: offset <= i < offset + Max(count, 0) ==> r[i] == Numbered(i - offset + 1, i - offset + 1 == page)
  {
    var r := PageLinks(linkCount, page, n);
    var count := PageCount(linkCount, n);
    var prev := if HasPrevious(count, page) then [Previous(page - 1)] else [];
    var nums := NumberedLinks(count, page);
    var next := if HasNext(count, page) then [Next(page + 1)] else [];
    assert r == prev + nums + next;
    assert forall i :: |prev| <= i < |prev| + |nums| ==> r[i] == nums[i - |prev|];
    if |nums| > 0 && !HasNext(count, page) {
      assert r[|r| - 1] == nums[|nums| - 1];
    }
    if |nums| > 0 && !HasPrevious(count, page) {
      assert r[0] == nums[0];
    }
  }

  /** How many entries are marked as the current page. */
  function CurrentMarks(links: seq<NavLink>): nat {
    if |links| == 0 then 0
    else CurrentMarks(links[..|links| - 1]) + (if links[|links| - 1].Numbered? && links[|links| - 1].current then 1 else 0)
  }

  lemma {:induction false} NumberedMarks(count: int, page: int)
    ensures CurrentMarks(NumberedLinks(count, page)) == if 1 <= page <= count then 1 else 0
    decreases count
  {
    if count > 0 {
      var r := NumberedLinks(count, page);
      assert r[..|r| - 1] == NumberedLinks(count - 1, page);
      NumberedMarks(count - 1, page);
    }
  }

  lemma {:induction false} CurrentMarksAppend(a: seq<NavLink>, b: seq<NavLink>)
    ensures CurrentMarks(a + b) == CurrentMarks(a) + CurrentMarks(b)
    decreases |b|
  {
    if |b| == 0 {
      assert a + b == a;
    } else {
      assert (a + b)[..|a + b| - 1] == a + b[..|b| - 1];
      CurrentMarksAppend(a, b[..|b| - 1]);
    }
  }

  /** Exactly one entry is marked when the page is one of the numbered pages, and none otherwise. */
  lemma CurrentMarkedOnce(linkCount: nat, page: int, n: int)
    requires n != 0
    ensures CurrentMarks(PageLinks(linkCount, page, n)) == if 1 <= page <= PageCount(linkCount, n) then 1 else 0
  {
    NavigationMarks(PageCount(linkCount, n), page);
  }

  lemma NavigationMarks(count: int, page: int)
    ensures CurrentMarks(Navigation(count, page)) == if 1 <= page <= count then 1 else 0
  {
    var prev := if HasPrevious(count, page) then [Previous(page - 1)] else [];
    var next := if HasNext(count, page) then [Next(page + 1)] else [];
    CurrentMarksAppend(prev, NumberedLinks(count, page));
    CurrentMarksAppend(prev + NumberedLinks(count, page), next);
    NumberedMarks(count, page);
    UnnumberedUnmarked(prev);
    UnnumberedUnmarked(next);
  }

  lemma {:induction false} UnnumberedUnmarked(s: seq<NavLink>)
    requires forall i :: 0 <= i < |s| ==> !s[i].Numbered?
    ensures CurrentMarks(s) == 0
    decreases |s|
  {
    if |s| > 0 {
      UnnumberedUnmarked(s[..|s| - 1]);
    }
  }

  /** With the page parameter missing (page 0) and more than one page, the previous link points at page -1. */
  lemma PreviousFromPageZero(linkCount: nat, n: int)
    requires n > 0 && linkCount > n
    ensures PageLinks(linkCount, 0, n)[0] == Previous(-1)
  {
    var count := PageCount(linkCount, n);
    assert count * n >= linkCount > n;
    assert count > 1;
  }

  /** Reads a navigation `href` back into the page and the page size. */
  function ParsePageHref(h: string): Option<(int, int)> {
    if !StartsWith(h, "?page=") then None else ParsePageAndSize(h[6..])
  }

  /** Reads `<page>&imgsPerPage=<size>`. */
  function ParsePageAndSize(rest: string): Option<(int, int)> {
    if '&' !in rest then None
    else
      var i := FirstIndex(rest, '&');
      if !StartsWith(rest[i..], "&imgsPerPage=") then None
      else
        match (ParseInt(rest[..i]), ParseInt(rest[i + 13..]))
        case (Some(p), Some(m)) => Some((p, m))
        case _ => None
  }

  /** Decimal text has no `&`. */
  lemma IntTextNoAmpersand(i: int)
    ensures '&' !in IntToString(i)
  {
    var s := IntToString(i);
    var digits := if i < 0 then NatToString(-i) else NatToString(i);
    assert forall k :: 0 <= k < |digits| ==> digits[k] in DecimalAlphabet;
    assert forall k :: 0 <= k < |s| ==> s[k] == '-' || s[k] in DecimalAlphabet;
  }

  /** Every navigation `href` determines the page it leads to and the page size it keeps. */
  lemma PageHrefRoundTrip(page: int, n: int)
    ensures ParsePageHref(PageHref(page, n)) == Some((page, n))
  {
    IntTextNoAmpersand(page);
    HrefAfterPrefix(IntToString(page), IntToString(n));
    PageAndSizeRoundTrip(IntToString(page), IntToString(n));
  }

  lemma HrefAfterPrefix(p: string, m: string)
    ensures ParsePageHref("?page=" + p + "&imgsPerPage=" + m) == ParsePageAndSize(p + "&imgsPerPage=" + m)
  {
    var h := "?page=" + p + "&imgsPerPage=" + m;
    assert h == "?page=" + (p + "&imgsPerPage=" + m);
    assert h[..6] == "?page=";
    assert h[6..] == p + "&imgsPerPage=" + m;
  }

  lemma PageAndSizeRoundTrip(p: string, m: string)
    requires '&' !in p && ParseInt(p).Some? && ParseInt(m).Some?
    ensures ParsePageAndSize(p + "&imgsPerPage=" + m) == Some((ParseInt(p).value, ParseInt(m).value))
  {
    var rest := p + "&imgsPerPage=" + m;
    assert rest == p + ("&imgsPerPage=" + m);
    FirstIndexAfter(p, "&imgsPerPage=" + m, '&');
    assert rest[..|p|] == p;
    assert rest[|p|..] == "&imgsPerPage=" + m;
    assert rest[|p|..][..13] == "&imgsPerPage=";
    assert rest[|p| + 13..] == m;
  }

  /** A gallery image: source, alternative text and its position, which gives the element id (see `Id`). */
  datatype Image = Image(src: string, alt: string, number: nat)

  /** `saved-image-${k}`. */
  function ImageId(k: nat): string {
    "saved-image-" + IntToString(k)
  }

  /** The element id of an image. */
  function Id(img: Image): string {
    ImageId(img.number)
  }

  /** The image element for the `k`-th shown link. */
  function ImageFor(link: Link, k: nat): Image {
    Image(link.src, link.alt, k)
  }

  /** The images for the shown links, numbered from 1 in the order shown. */
  function Images(links: seq<Link>): (r: seq<Image>)
    ensures |r| == |links|
    ensures forall i :: 0 <= i < |r| ==> r[i] == ImageFor(links[i], i + 1)
  {
    if |links| == 0 then []
    else
      var front := links[..|links| - 1];
      var r := Images(front) + [ImageFor(links[|links| - 1], |links|)];
      assert forall i :: 0 <= i < |front| ==> r[i] == Images(front)[i] && front[i] == links[i];
      r
  }

  /** The ids of the images differ pairwise. */
  lemma ImageIdsDistinct(links: seq<Link>, i: nat, j: nat)
    requires i < j < |links|
    ensures Id(Images(links)[i]) != Id(Images(links)[j])
  {
    var a := IntToString(i + 1);
    var b := IntToString(j + 1);
    if a == b {
      IntToStringInjective(i + 1, j + 1);
    }
    assert ImageId(i + 1)[12..] == a;
    assert ImageId(j + 1)[12..] == b;
  }

  /** `(${links.length})` when there are links; otherwise the element is left as it is. */
  function TotalCount(linkCount: nat): (r: Option<string>)
    ensures r.Some? <==> linkCount > 0
    ensures r.Some? ==> |r.value| >= 3
    ensures r.Some? ==>
      && r.value[0] == '(' && r.value[|r.value| - 1] == ')'
      && ParseInt(r.value[1..|r.value| - 1]) == Some(linkCount)
  {
    if linkCount > 0 then
      var s := "(" + IntToString(linkCount) + ")";
      assert s[1..|s| - 1] == IntToString(linkCount);
      Some(s)
    else None
  }

  /** What the script puts on the page. */
  datatype GalleryPage = GalleryPage(
    topNav: seq<NavLink>,
    bottomNav: seq<NavLink>,
    totalCount: Option<string>,
    images: seq<Image>)

  datatype FetchError = ListingNotOk

  /**
    The page: a listing response that is not OK throws before anything is
    written; otherwise the same navigation goes above and below the gallery,
    and the gallery shows the requested page of the links, sorted and
    reversed.
  */
  function Render(q: Query, responseOk: bool, hrefs: seq<string>): (r: Result<GalleryPage, FetchError>)
    ensures r.Failure? <==> !responseOk
    ensures r.Success? ==> r.value.topNav == r.value.bottomNav
    ensures r.Success? ==> (r.value.totalCount.Some? <==> exists h :: h in hrefs && IsImageHref(h))
    ensures r.Success? ==> |r.value.images| <= |hrefs|
  {
    if !responseOk then Failure(ListingNotOk)
    else
      var s := ReadSettings(q);
      var links := CollectLinks(hrefs);
      AnyImageHref(hrefs);
      var nav := PageLinks(|links|, s.page, s.imagesPerPage);
      var shown := Visible(SortThenReverse(links), s.page, s.imagesPerPage);
      SortThenReverseIsReverse(links);
      Success(GalleryPage(nav, nav, TotalCount(|links|), Images(shown)))
  }

  lemma AnyImageHref(hrefs: seq<string>)
    ensures |CollectLinks(hrefs)| > 0 <==> exists h :: h in hrefs && IsImageHref(h)
  {
    if exists h :: h in hrefs && IsImageHref(h) {
      var h :| h in hrefs && IsImageHref(h);
      CollectLinksMember(hrefs, h);
    }
  }

  /**
    The gallery shows the requested page of the image links taken in reverse
    document order, numbered from 1; without a positive page it shows all of
    them.
  */
  lemma RenderShowsPage(q: Query, hrefs: seq<string>)
    ensures var s := ReadSettings(q);
      var shown := Visible(Reverse(CollectLinks(hrefs)), s.page, s.imagesPerPage);
      && Render(q, true, hrefs).value.images == Images(shown)
      && (s.page <= 0 ==> |Render(q, true, hrefs).value.images| == |CollectLinks(hrefs)|)
  {
    SortThenReverseIsReverse(CollectLinks(hrefs));
  }
}
