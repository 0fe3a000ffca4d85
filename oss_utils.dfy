/**
 * public/js/oss-utils.js: thumbnail URLs for images kept in Aliyun OSS, and
 * the `preconnect`/`dns-prefetch` hints added to the page head for the
 * bucket's origin. `new URL(url).origin` is a parameter (`None` when the
 * constructor throws).
 */
module OssUtils {
  import opened Wrappers
  import opened Text

  const OssHost: string := "aliyuncs.com"
  const DefaultHeight: int := 500
  const ProcessPrefix: string := "x-oss-process=image/resize,h_"
  const ProcessTail: string := "/format,webp/quality,q_80"

  /** Neither `!url` nor `!url.includes('aliyuncs.com')`. */
  predicate IsOssUrl(url: string): (b: bool)
    ensures b ==> |url| >= |OssHost| && url != ""
  {
    url != "" && Includes(url, OssHost)
  }

  /** `height || 500`: a missing or zero height falls back to 500. */
  function ThumbHeight(height: Option<int>): (h: int)
    ensures h != 0
    ensures height.Some? && height.value != 0 ==> h == height.value
    ensures height.None? || height.value == 0 ==> h == DefaultHeight
  {
    if height.Some? && height.value != 0 then height.value else DefaultHeight
  }

  /** `ossThumb(url, height)`. */
  function OssThumb(url: string, height: Option<int>): (r: string)
    ensures !IsOssUrl(url) ==> r == url
    ensures StartsWith(r, url)
    ensures IsOssUrl(url) ==> |r| > |url| && r[|url|] == (if Includes(url, "?") then '&' else '?')
  {
    if !IsOssUrl(url) then url
    else
      var sep := if Includes(url, "?") then "&" else "?";
      var r := url + sep + ProcessPrefix + IntToString(ThumbHeight(height)) + ProcessTail;
      assert r[..|url|] == url;
      r
  }

  /**
   * The processing parameter carries the height and then asks for WebP at
   * quality 80: after `h_` come the height's digits and the fixed
   * `/format,webp/quality,q_80`, and reading the number that follows `h_`
   * gives back the height used (500 when none was given), so the original
   * URL and the height are both recoverable from the result.
   */
  lemma ThumbHeightReadBack(url: string, height: Option<int>)
    requires IsOssUrl(url)
    ensures var r := OssThumb(url, height);
            var start := |url| + 1 + |ProcessPrefix|;
            start <= |r| && r[|url| + 1..start] == ProcessPrefix &&
            r[start..] == IntToString(ThumbHeight(height)) + ProcessTail &&
            ParseInt10(r[start..]) == Some(ThumbHeight(height))
  {
    var sep := if Includes(url, "?") then "&" else "?";
    var h := ThumbHeight(height);
    var digits := IntToString(h);
    var head := url + sep;
    var tail := digits + ProcessTail;
    assert OssThumb(url, height) == head + ProcessPrefix + tail by {
      assert url + sep + ProcessPrefix + digits + ProcessTail == head + ProcessPrefix + tail;
    }
    SplitAfter(head, ProcessPrefix, tail);
    assert !IsDigit(ProcessTail[0]);
    ParseIntOfIntToString(h, ProcessTail);
  }

  lemma SplitAfter(head: string, mid: string, tail: string)
    ensures (head + mid + tail)[|head|..|head| + |mid|] == mid
    ensures (head + mid + tail)[|head| + |mid|..] == tail
  {
  }

  // ----- ossPreconnect -----

  /** A `<link>` element of the document: `rel`, `href` and, when set, `crossOrigin`. */
  datatype Link = Link(rel: string, href: string, crossOrigin: Option<string>)

  /** `document.querySelector('link[rel="preconnect"][href="' + origin + '"]')` finds one. */
  predicate HasPreconnect(links: seq<Link>, origin: string) {
    exists k :: 0 <= k < |links| && links[k].rel == "preconnect" && links[k].href == origin
  }

  /** The number of preconnect links for `origin`. */
  function PreconnectCount(links: seq<Link>, origin: string): (n: nat)
    ensures n == 0 <==> !HasPreconnect(links, origin)
  {
    if links == [] then 0
    else
      var init := links[..|links| - 1];
      var last := links[|links| - 1];
      var n := PreconnectCount(init, origin);
      assert forall k :: 0 <= k < |init| ==> init[k] == links[k];
      n + (if last.rel == "preconnect" && last.href == origin then 1 else 0)
  }

  lemma {:induction false} PreconnectCountAppend(a: seq<Link>, b: seq<Link>, origin: string)
    ensures PreconnectCount(a + b, origin) == PreconnectCount(a, origin) + PreconnectCount(b, origin)
    decreases |b|
  {
    if b == [] {
      assert a + b == a;
    } else {
      var init := b[..|b| - 1];
      assert (a + b)[..|a + b| - 1] == a + init;
      assert (a + b)[|a + b| - 1] == b[|b| - 1];
      PreconnectCountAppend(a, init, origin);
    }
  }

  /** The two hints `ossPreconnect` appends for `origin`, in order. */
  function Hints(origin: string): seq<Link> {
    [Link("preconnect", origin, Some("anonymous")), Link("dns-prefetch", origin, None)]
  }

  /** The head after `ossPreconnect(url)`, given `origin` = `new URL(url).origin`. */
  function Preconnected(links: seq<Link>, url: string, origin: Option<string>): (r: seq<Link>)
    ensures r == links || (origin.Some? && r == links + Hints(origin.value))
    ensures (!IsOssUrl(url) || origin.None?) ==> r == links
    ensures origin.Some? && HasPreconnect(links, origin.value) ==> r == links
    ensures IsOssUrl(url) && origin.Some? ==> HasPreconnect(r, origin.value)
  {
    if !IsOssUrl(url) || origin.None? || HasPreconnect(links, origin.value) then links
    else
      var r := links + Hints(origin.value);
      assert r[|links|].rel == "preconnect" && r[|links|].href == origin.value;
      r
  }

  /** Calling `ossPreconnect` again for the same URL adds nothing. */
  lemma PreconnectIdempotent(links: seq<Link>, url: string, origin: Option<string>)
    ensures Preconnected(Preconnected(links, url, origin), url, origin) == Preconnected(links, url, origin)
  {
  }

  /**
   * No origin ever gets a second preconnect link: whatever URL is
   * preconnected, every origin that had at most one preconnect link still
   * has at most one.
   */
  lemma PreconnectNoDuplicate(links: seq<Link>, url: string, origin: Option<string>, o: string)
    requires PreconnectCount(links, o) <= 1
    ensures PreconnectCount(Preconnected(links, url, origin), o) <= 1
  {
    var r := Preconnected(links, url, origin);
    if r != links {
      var h := origin.value;
      PreconnectCountAppend(links, Hints(h), o);
      assert Hints(h)[..1] == [Link("preconnect", h, Some("anonymous"))];
      assert PreconnectCount(Hints(h), o) == if h == o then 1 else 0;
      assert h == o ==> PreconnectCount(links, o) == 0;
    }
  }

  /** The `<link>` elements of the page, which `ossPreconnect` appends to. */
  class Document {
    var links: seq<Link>

    constructor (links: seq<Link>)
      ensures this.links == links
    {
      this.links := links;
    }

    /** `ossPreconnect(url)`: at most one preconnect and one dns-prefetch hint per origin. */
    method Preconnect(url: string, origin: Option<string>)
      modifies this
      ensures links == Preconnected(old(links), url, origin)
    {
      if url == "" || !Includes(url, OssHost) {
        return;
      }
      if origin.None? {
        return;
      }
      if HasPreconnect(links, origin.value) {
        return;
      }
      links := links + [Link("preconnect", origin.value, Some("anonymous"))];
      links := links + [Link("dns-prefetch", origin.value, None)];
    }
  }
}
