/**
  The reference fetcher, `scrape_naver_blogs` (app.py:11-25): the URL text is
  cut into lines, each line stripped, blank lines dropped and the first five
  kept; every URL is moved to the mobile blog host, handed to the page oracle,
  and each page that comes back is truncated and appended under a numbered
  label. The oracle `fetch` stands for `requests.get` followed by
  `BeautifulSoup(...).get_text(separator=' ', strip=True)`; it answers `None`
  where either of them raises, and the page's plain text otherwise.
*/
module Scraper {
  import opened Wrappers
  import opened Text

  /** At most this many reference URLs are used. */
  const MaxUrls: nat := 5
  /** A page's text is cut after this many characters... */
  const MaxBody: nat := 800
  /** ...and this marker is appended to show the cut. */
  const Ellipsis := "..."
  const DesktopHost := "blog.naver.com"
  const MobileHost := "m.blog.naver.com"

  // ---------------------------------------------------------------------------
  // URL list (app.py:13)
  // ---------------------------------------------------------------------------

  /** `[line.strip() for line in lines if line.strip()]` */
  function StrippedLines(lines: seq<string>): (r: seq<string>)
    ensures |r| <= |lines|
    ensures forall k :: 0 <= k < |r| ==> r[k] != "" && Strip(r[k]) == r[k]
  {
    if lines == [] then [] else Kept(lines[0]) + StrippedLines(lines[1..])
  }

  /** What one line contributes to the URL list: its stripped form, unless that is empty. */
  function Kept(line: string): (r: seq<string>)
    ensures |r| <= 1
    ensures forall k :: 0 <= k < |r| ==> r[k] != "" && Strip(r[k]) == r[k]
  {
    var stripped := Strip(line);
    StripIdempotent(line);
    if stripped != "" then [stripped] else []
  }

  /**
    The comprehension keeps order and drops nothing but blank lines: it maps
    a concatenation of line lists to the concatenation of the results.
  */
  lemma {:induction false} StrippedLinesAppend(a: seq<string>, b: seq<string>)
    ensures StrippedLines(a + b) == StrippedLines(a) + StrippedLines(b)
    decreases |a|
  {
    if a == [] {
      assert a + b == b;
    } else {
      assert (a + b)[0] == a[0];
      assert (a + b)[1..] == a[1..] + b;
      StrippedLinesAppend(a[1..], b);
    }
  }

  /** A line survives, stripped, exactly when it is not blank. */
  lemma StrippedLinesSingle(line: string)
    ensures StrippedLines([line]) == if AllSpace(line) then [] else [Strip(line)]
  {
    assert [line][1..] == [];
    assert StrippedLines([line]) == Kept(line);
  }

  /** The lines of `text` that are not blank, stripped, at most the first five (app.py:13). */
  function NormaliseUrls(text: string): (urls: seq<string>)
    ensures |urls| <= MaxUrls
    ensures urls <= StrippedLines(SplitOn(text, "\n"))
    ensures |urls| == MaxUrls || urls == StrippedLines(SplitOn(text, "\n"))
    ensures forall k :: 0 <= k < |urls| ==> urls[k] != "" && Strip(urls[k]) == urls[k]
  {
    var all := StrippedLines(SplitOn(text, "\n"));
    if |all| <= MaxUrls then all else all[..MaxUrls]
  }

  /** Each stripped non-blank line is a whole line of the input: none contains a line break. */
  lemma {:induction false} StrippedLinesHaveNoBreak(lines: seq<string>)
    requires forall k :: 0 <= k < |lines| ==> '\n' !in lines[k]
    ensures forall k :: 0 <= k < |StrippedLines(lines)| ==> '\n' !in StrippedLines(lines)[k]
    decreases |lines|
  {
    if lines != [] {
      StrippedLinesHaveNoBreak(lines[1..]);
      if '\n' in Strip(lines[0]) {
        StripKeepsNoNewChar(lines[0], '\n');
      }
    }
  }

  /** A normalised URL never spans a line break of the input. */
  lemma NormalisedUrlsAreSingleLines(text: string)
    ensures forall k :: 0 <= k < |NormaliseUrls(text)| ==> '\n' !in NormaliseUrls(text)[k]
  {
    var lines := SplitOn(text, "\n");
    SplitPiecesFree(text, "\n");
    forall k | 0 <= k < |lines| ensures '\n' !in lines[k] {
      ContainsChar(lines[k], '\n');
    }
    StrippedLinesHaveNoBreak(lines);
  }

  /** Empty URL text yields no URL. */
  lemma NormaliseEmpty()
    ensures NormaliseUrls("") == []
  {
    assert SplitOn("", "\n") == [""];
    assert Strip("") == "";
    assert StrippedLines([""]) == [];
  }

  // ---------------------------------------------------------------------------
  // Host rewrite (app.py:17)
  // ---------------------------------------------------------------------------

  /** The URL moved to the mobile host unless it already names it (app.py:17). */
  function ToMobile(url: string): string
  {
    if Contains(url, MobileHost) then url else Replace(url, DesktopHost, MobileHost)
  }

  /**
    A URL that names the mobile host is left alone. Otherwise every
    occurrence of the desktop host is replaced: the URL is its pieces
    between desktop hosts (pieces that hold none) joined by the desktop
    host, and the result is the same pieces joined by the mobile host.
    The result names the mobile host exactly when the URL names the blog
    host in either form.
  */
  lemma ToMobileReplacesEveryOccurrence(url: string)
    ensures Contains(url, MobileHost) ==> ToMobile(url) == url
    ensures !Contains(url, MobileHost) ==>
      var pieces := SplitOn(url, DesktopHost);
      && url == Join(pieces, DesktopHost)
      && ToMobile(url) == Join(pieces, MobileHost)
      && forall k :: 0 <= k < |pieces| ==> !Contains(pieces[k], DesktopHost)
    ensures Contains(ToMobile(url), MobileHost) <==> Contains(url, DesktopHost)
  {
    assert MobileHost == "m." + DesktopHost;
    if Contains(url, MobileHost) {
      ContainsSuffixOfPattern(url, "m.", DesktopHost);
    } else {
      ReplaceIsJoinOfSplit(url, DesktopHost, MobileHost);
      JoinSplit(url, DesktopHost);
      SplitPiecesFree(url, DesktopHost);
      if Contains(url, DesktopHost) {
        ReplacePresent(url, DesktopHost, MobileHost);
      } else {
        ReplaceAbsent(url, DesktopHost, MobileHost);
      }
    }
  }

  /** Rewriting an already rewritten URL changes nothing. */
  lemma ToMobileIdempotent(url: string)
    ensures ToMobile(ToMobile(url)) == ToMobile(url)
  {
    ToMobileReplacesEveryOccurrence(url);
    if !Contains(url, MobileHost) && !Contains(url, DesktopHost) {
      ReplaceAbsent(url, DesktopHost, MobileHost);
    }
  }

  // ---------------------------------------------------------------------------
  // Truncation and labels (app.py:22-23)
  // ---------------------------------------------------------------------------

  /** Page text of at most 800 characters is kept; longer text is cut to 800 and marked. */
  function Truncate(text: string): (body: string)
    ensures |body| <= MaxBody + |Ellipsis|
    ensures |text| <= MaxBody ==> body == text
    ensures |text| > MaxBody ==> |body| == MaxBody + |Ellipsis| && body[..MaxBody] == text[..MaxBody] && body[MaxBody..] == Ellipsis
  {
    if |text| > MaxBody then text[..MaxBody] + Ellipsis else text
  }

  /** Truncating a kept body again changes nothing. */
  lemma TruncateIdempotent(text: string)
    ensures Truncate(Truncate(text)) == Truncate(text)
  {
    var body := Truncate(text);
    if |text| > MaxBody {
      assert body == body[..MaxBody] + body[MaxBody..];
    }
  }

  /** The labelled segment for the URL at position `index` of the list; labels count from 1. */
  function Segment(index: nat, body: string): string
  {
    "\n[참고" + Decimal(index + 1) + "]: " + body + "\n"
  }

  /** A segment carries the page body and the label number `index + 1`, each verbatim. */
  lemma SegmentHoldsNumberAndBody(index: nat, body: string)
    ensures Contains(Segment(index, body), Decimal(index + 1))
    ensures Contains(Segment(index, body), body)
  {
    var open, number := "\n[참고", Decimal(index + 1);
    var seg := Segment(index, body);
    assert seg == open + number + ("]: " + body + "\n");
    assert seg[|open|..|open| + |number|] == number;
    ContainsAt(seg, number, |open|);
    var start := |open| + |number| + 3;
    assert seg[start..start + |body|] == body;
    ContainsAt(seg, body, start);
  }

  /** What the URL at `index` adds to the result: nothing when its fetch raised. */
  function Contribution(index: nat, page: Option<string>): string
  {
    match page
    case None => ""
    case Some(text) => Segment(index, Truncate(text))
  }

  /** A URL adds text exactly when its fetch did not raise. */
  lemma ContributionEmptyIff(index: nat, page: Option<string>)
    ensures Contribution(index, page) == "" <==> page.None?
  {
    if page.Some? {
      assert |Segment(index, Truncate(page.value))| >= 5;
    }
  }

  // ---------------------------------------------------------------------------
  // Assembly (app.py:14-25)
  // ---------------------------------------------------------------------------

  /** The contributions of positions `lo` up to (not including) `hi`, in list order. */
  function SegmentsIn(pages: seq<Option<string>>, lo: nat, hi: nat): string
    requires lo <= hi <= |pages|
    decreases hi - lo
  {
    if lo == hi then "" else SegmentsIn(pages, lo, hi - 1) + Contribution(hi - 1, pages[hi - 1])
  }

  /** What the oracle answers for each URL of the list, after the host rewrite. */
  function Fetched(urls: seq<string>, fetch: string -> Option<string>): (pages: seq<Option<string>>)
    ensures |pages| == |urls|
  {
    seq(|urls|, k requires 0 <= k < |urls| => fetch(ToMobile(urls[k])))
  }

  /** The URLs handed to the oracle, in list order. */
  function MobileUrls(urls: seq<string>): (r: seq<string>)
    ensures |r| == |urls|
  {
    if urls == [] then [] else MobileUrls(urls[..|urls| - 1]) + [ToMobile(urls[|urls| - 1])]
  }

  /** Extending a prefix of the list by one URL extends the rewritten list by that URL, rewritten. */
  lemma MobileUrlsSnoc(urls: seq<string>, i: nat)
    requires i < |urls|
    ensures MobileUrls(urls[..i + 1]) == MobileUrls(urls[..i]) + [ToMobile(urls[i])]
  {
    assert urls[..i + 1][..i] == urls[..i];
  }

  /** Entry `k` of the requested list is URL `k` of the list, rewritten. */
  lemma {:induction false} MobileUrlsElements(urls: seq<string>)
    ensures forall k :: 0 <= k < |urls| ==> MobileUrls(urls)[k] == ToMobile(urls[k])
    decreases |urls|
  {
    if urls != [] {
      var init := urls[..|urls| - 1];
      MobileUrlsElements(init);
      assert forall k :: 0 <= k < |init| ==> init[k] == urls[k];
    }
  }

  /** The answer at position `k` is what the oracle says for the `k`-th requested URL. */
  lemma FetchedAsksMobileUrls(urls: seq<string>, fetch: string -> Option<string>)
    ensures forall k :: 0 <= k < |urls| ==> Fetched(urls, fetch)[k] == fetch(MobileUrls(urls)[k])
  {
    MobileUrlsElements(urls);
  }

  /** The specification of `scrape_naver_blogs`: the text the method returns. */
  function ReferenceContent(urlsText: string, fetch: string -> Option<string>): string
  {
    if urlsText == "" then ""
    else
      var urls := NormaliseUrls(urlsText);
      SegmentsIn(Fetched(urls, fetch), 0, |urls|)
  }

  /** Segments concatenate: the result for a range is the result for its two halves. */
  lemma {:induction false} SegmentsSplit(pages: seq<Option<string>>, lo: nat, mid: nat, hi: nat)
    requires lo <= mid <= hi <= |pages|
    ensures SegmentsIn(pages, lo, hi) == SegmentsIn(pages, lo, mid) + SegmentsIn(pages, mid, hi)
    decreases hi - mid
  {
    if mid < hi {
      SegmentsSplit(pages, lo, mid, hi - 1);
    }
  }

  /** A range's segments depend only on the oracle answers inside that range. */
  lemma {:induction false} SegmentsLocal(pages: seq<Option<string>>, other: seq<Option<string>>, lo: nat, hi: nat)
    requires lo <= hi <= |pages| && hi <= |other|
    requires forall k :: lo <= k < hi ==> pages[k] == other[k]
    ensures SegmentsIn(pages, lo, hi) == SegmentsIn(other, lo, hi)
    decreases hi - lo
  {
    if lo < hi {
      SegmentsLocal(pages, other, lo, hi - 1);
    }
  }

  /** The whole result is the segments before `k`, then `k`'s contribution, then the segments after it. */
  lemma SegmentsAround(pages: seq<Option<string>>, k: nat)
    requires k < |pages|
    ensures SegmentsIn(pages, 0, |pages|)
         == SegmentsIn(pages, 0, k) + Contribution(k, pages[k]) + SegmentsIn(pages, k + 1, |pages|)
  {
    SegmentsSplit(pages, 0, k + 1, |pages|);
  }

  /**
    A failed fetch at position `k` removes exactly that position's segment:
    the segments before and after it, labels included, are the ones a
    successful fetch would have produced, so later URLs keep their numbers.
  */
  lemma FailureDropsOnlyItsSegment(pages: seq<Option<string>>, k: nat)
    requires k < |pages|
    ensures SegmentsIn(pages[k := None], 0, |pages|)
         == SegmentsIn(pages, 0, k) + SegmentsIn(pages, k + 1, |pages|)
  {
    var failed := pages[k := None];
    var n := |pages|;
    var before, after := SegmentsIn(pages, 0, k), SegmentsIn(pages, k + 1, n);
    assert SegmentsIn(failed, 0, k) == before by {
      assert forall j :: 0 <= j < k ==> failed[j] == pages[j];
      SegmentsLocal(pages, failed, 0, k);
    }
    assert SegmentsIn(failed, k + 1, n) == after by {
      assert forall j :: k + 1 <= j < n ==> failed[j] == pages[j];
      SegmentsLocal(pages, failed, k + 1, n);
    }
    assert Contribution(k, failed[k]) == "" by {
      assert failed[k] == None;
    }
    calc {
      SegmentsIn(failed, 0, n);
      { SegmentsAround(failed, k); }
      SegmentsIn(failed, 0, k) + Contribution(k, failed[k]) + SegmentsIn(failed, k + 1, n);
      before + "" + after;
      { assert before + "" == before; }
      before + after;
    }
  }

  /** The result for a range is empty exactly when every fetch in it failed. */
  lemma {:induction false} SegmentsEmptyIffAllFailed(pages: seq<Option<string>>, lo: nat, hi: nat)
    requires lo <= hi <= |pages|
    ensures SegmentsIn(pages, lo, hi) == "" <==> forall k :: lo <= k < hi ==> pages[k].None?
    decreases hi - lo
  {
    if lo < hi {
      var init, last := SegmentsIn(pages, lo, hi - 1), Contribution(hi - 1, pages[hi - 1]);
      assert SegmentsIn(pages, lo, hi) == init + last;
      assert init + last == "" <==> init == "" && last == "" by {
        assert |init + last| == |init| + |last|;
      }
      assert init == "" <==> forall k :: lo <= k < hi - 1 ==> pages[k].None? by {
        SegmentsEmptyIffAllFailed(pages, lo, hi - 1);
      }
      assert last == "" <==> pages[hi - 1].None? by {
        ContributionEmptyIff(hi - 1, pages[hi - 1]);
      }
      assert (forall k :: lo <= k < hi ==> pages[k].None?)
         <==> (forall k :: lo <= k < hi - 1 ==> pages[k].None?) && pages[hi - 1].None?;
    }
  }

  /** Over a whole URL list: no text exactly when every fetch of a rewritten URL failed. */
  lemma FetchedSegmentsEmptyIff(urls: seq<string>, fetch: string -> Option<string>)
    ensures SegmentsIn(Fetched(urls, fetch), 0, |urls|) == "" <==>
      forall k :: 0 <= k < |urls| ==> fetch(ToMobile(urls[k])).None?
  {
    var pages := Fetched(urls, fetch);
    SegmentsEmptyIffAllFailed(pages, 0, |urls|);
    assert forall k :: 0 <= k < |urls| ==> pages[k] == fetch(ToMobile(urls[k]));
  }

  /**
    Reference text is present exactly when some URL of the normalised list
    was fetched without an exception; in particular empty URL text and a
    list whose every fetch fails both give the empty string.
  */
  lemma ReferenceContentEmptyIff(urlsText: string, fetch: string -> Option<string>)
    ensures ReferenceContent(urlsText, fetch) == "" <==>
      forall k :: 0 <= k < |NormaliseUrls(urlsText)| ==> fetch(ToMobile(NormaliseUrls(urlsText)[k])).None?
  {
    if urlsText == "" {
      NormaliseEmpty();
    } else {
      FetchedSegmentsEmptyIff(NormaliseUrls(urlsText), fetch);
    }
  }

  /**
    `scrape_naver_blogs`. `requested` records, in order, the URLs handed to
    the oracle; it is empty when the URL text is empty.
  */
  method ScrapeNaverBlogs(urlsText: string, fetch: string -> Option<string>)
    returns (combined: string, ghost requested: seq<string>)
    ensures combined == ReferenceContent(urlsText, fetch)
    ensures urlsText == "" ==> combined == "" && requested == []
    ensures |requested| <= MaxUrls
    ensures requested == MobileUrls(NormaliseUrls(urlsText))
  {
    if urlsText == "" {
      NormaliseEmpty();
      assert MobileUrls([]) == [];
      return "", [];
    }
    var urlList := NormaliseUrls(urlsText);
    assert urlList[..0] == [];
    ghost var pages := Fetched(urlList, fetch);
    combined := "";
    requested := [];
    for i := 0 to |urlList|
      invariant combined == SegmentsIn(pages, 0, i)
      invariant requested == MobileUrls(urlList[..i])
    {
      var url := urlList[i];
      url := ToMobile(url);
      MobileUrlsSnoc(urlList, i);
      requested := requested + [url];
      var page := fetch(url);
      assert page == pages[i];
      ghost var before := combined;
      match page {
        case None =>
        case Some(raw) =>
          var text := raw;
          if |text| > MaxBody {
            text := text[..MaxBody] + Ellipsis;
          }
          assert text == Truncate(raw);
          combined := combined + ("\n[참고" + Decimal(i + 1) + "]: " + text + "\n");
          assert combined == before + Segment(i, text);
      }
      assert combined == before + Contribution(i, pages[i]);
    }
    assert urlList[..|urlList|] == urlList;
    assert ReferenceContent(urlsText, fetch) == SegmentsIn(pages, 0, |urlList|);
  }
}
