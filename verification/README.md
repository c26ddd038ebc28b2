# Blog prompt generator: a Dafny model

`app.py` is a small web form for tradespeople who write blog posts about their jobs. They enter:

- the trade;
- the equipment, the place and the work done;
- how urgent the job was;
- a length option and a contact line;
- optionally, reference blog URLs, one per line; only the first five non-blank lines are used.

When they press "generate", the app:

1. checks that the trade and the work done were filled in;
2. fetches each reference URL, first rewriting `blog.naver.com` to the mobile host `m.blog.naver.com` in URLs that do not already name the mobile host (other URLs are fetched as given), then cuts each page's text to 800 characters and labels it `[참고N]`;
3. picks one of four post structures and one of four opening styles at random;
4. fills a fixed prompt template with all of this, for the user to paste into a chat model.

This project models that core in Dafny and proves what it guarantees.

- `wrappers.dfy` (`Wrappers`): the `Option` type the page oracle answers with.
- `text.dfy` (`Text`): the string operations the app relies on, defined from scratch, each proved against a partner property:
  - substring containment;
  - Python's `str.split` and `str.join`;
  - `str.replace`;
  - `str.strip`;
  - decimal formatting of the label number;
  - concatenation of template pieces.
- `scraper.dfy` (`Scraper`): `scrape_naver_blogs`, as an imperative method with a loop. It is proved equal to the specification function `ReferenceContent`. That function's properties are proved as lemmas: the URL normalisation, the host rewrite, truncation, labelling, and what a failed fetch does.
- `style.dfy` (`Style`): the two random pickers and the length policy. `random.choice` over a four-element list becomes a choice index below 4 that the caller supplies.
- `prompt.dfy` (`Prompt`): `generate_pro_prompt` and the generate button's handler.
  - The template is kept verbatim as its literal pieces. A line break in the source is `\n`.
  - The handler is proved to warn exactly when a required field is empty.
  - Otherwise it shows the prompt built from the scraped references.

HTTP and HTML parsing happen outside the model. They are represented by a page oracle `fetch: string -> Option<string>`:

- `None` stands for a request or a parse that raised (the bare `except: pass`);
- `Some(text)` stands for the page's plain text.

The handler and the scraper also return a ghost list of the URLs handed to the oracle, so the model can state which pages are requested and in which order.

## Model

| member | source | states |
|---|---|---|
| Scraper.ScrapeNaverBlogs | app.py:11-25 | The loop returns exactly `ReferenceContent`: one labelled segment per successfully fetched URL, in list order. Empty URL text returns "" with no request. The URLs handed to the oracle are the normalised list, rewritten to the mobile host, in order; there are at most five. |
| Scraper.NormaliseUrls | app.py:13 | The URL list has at most five entries and is a prefix of the stripped, non-blank lines. It is all of them when there are at most five. Every entry is non-empty and already stripped. |
| Scraper.StrippedLines | app.py:13 | The comprehension yields no more entries than there are lines; each entry is non-empty and unchanged by a further strip. |
| Scraper.Kept | app.py:13 | One line contributes at most one entry, and that entry is non-empty and stripped. |
| Scraper.StrippedLinesAppend | app.py:13 | The comprehension keeps order and treats lines independently: the result for `a + b` is the result for `a` followed by the result for `b`. |
| Scraper.StrippedLinesSingle | app.py:13 | A single line is dropped exactly when it is all whitespace; otherwise it is kept in stripped form. |
| Scraper.StrippedLinesHaveNoBreak | app.py:13 | Lines free of line breaks give entries free of line breaks. |
| Scraper.NormalisedUrlsAreSingleLines | app.py:13 | No normalised URL contains a line break of the input. |
| Scraper.NormaliseEmpty | app.py:12-13 | Empty URL text gives no URL. |
| Scraper.ToMobileReplacesEveryOccurrence | app.py:17 | A URL already naming `m.blog.naver.com` is left alone. Otherwise the URL is its pieces between occurrences of `blog.naver.com`, joined by that host; no piece contains the host; and the result is the same pieces joined by `m.blog.naver.com`. The result names the mobile host exactly when the URL names `blog.naver.com`. |
| Scraper.ToMobileIdempotent | app.py:17 | Rewriting a rewritten URL changes nothing. |
| Scraper.ToMobile | app.py:17 | The host rewrite; its contract is stated by Scraper.ToMobileReplacesEveryOccurrence and Scraper.ToMobileIdempotent. |
| Scraper.Segment | app.py:23 | The labelled segment `\n[참고N]: body\n` with N = position + 1; Scraper.SegmentHoldsNumberAndBody and Text.DecimalRoundTrip state what it carries. |
| Scraper.SegmentHoldsNumberAndBody | app.py:23 | A segment contains the label number `index + 1` and the page body, each verbatim. |
| Scraper.Contribution | app.py:16-24 | What one position adds: nothing after a failed fetch, otherwise the segment of the truncated text; Scraper.ContributionEmptyIff states when it is empty. |
| Scraper.SegmentsIn | app.py:14-25 | The accumulated text over a range of positions; Scraper.SegmentsSplit, Scraper.SegmentsLocal, Scraper.SegmentsAround and Scraper.SegmentsEmptyIffAllFailed state its contract. |
| Scraper.ReferenceContent | app.py:11-25 | The specification of the scraper's result; Scraper.ScrapeNaverBlogs is proved equal to it, and Scraper.ReferenceContentEmptyIff and Scraper.FailureDropsOnlyItsSegment state its properties. |
| Scraper.Truncate | app.py:22 | Text of at most 800 characters is kept as is. Longer text becomes its first 800 characters followed by "..." (803 characters), so no body exceeds 803. |
| Scraper.TruncateIdempotent | app.py:22 | A truncated body is a fixed point of truncation. |
| Scraper.ContributionEmptyIff | app.py:16-24 | A URL adds text to the result exactly when its fetch did not raise. |
| Scraper.SegmentsSplit | app.py:15-23 | The accumulated text for a range of positions is the text for its first part followed by the text for the rest. |
| Scraper.SegmentsLocal | app.py:15-23 | The text for a range depends only on the oracle answers inside that range. |
| Scraper.SegmentsAround | app.py:15-23 | The result is the segments before position `k`, then `k`'s contribution, then the segments after it. |
| Scraper.FailureDropsOnlyItsSegment | app.py:15-24 | A fetch that raises at position `k` removes exactly `k`'s segment. Every other segment, its `[참고N]` number included, is what it would have been, because numbering follows list position rather than success count. |
| Scraper.SegmentsEmptyIffAllFailed | app.py:14-24 | The text for a range is empty exactly when every fetch in it raised. |
| Scraper.FetchedSegmentsEmptyIff | app.py:14-25 | Over a whole URL list, the result is empty exactly when the oracle failed on every rewritten URL. |
| Scraper.ReferenceContentEmptyIff | app.py:11-25 | The scraper returns "" exactly when every normalised URL's fetch raised. This includes empty URL text and blank-only text. |
| Scraper.Fetched | app.py:17-21 | One oracle answer per URL of the list. |
| Scraper.MobileUrls | app.py:15-17 | One rewritten URL per URL of the list. |
| Scraper.MobileUrlsElements | app.py:15-17 | Entry `k` of the requested list is URL `k` of the normalised list, rewritten to the mobile host. |
| Scraper.FetchedAsksMobileUrls | app.py:15-21 | The oracle answer used for position `k` is the answer for the `k`-th requested URL, so the requested list and the assembled text refer to the same fetches. |
| Scraper.MobileUrlsSnoc | app.py:15-17 | Handling one more URL of the list appends that URL, rewritten, to the requested list. |
| Style.StructurePattern | app.py:28-35 | The chosen pattern is one of the four listed patterns. |
| Style.IntroStyle | app.py:38-45 | The chosen opening style is one of the four listed styles. |
| Style.StructurePatternsAllReachable | app.py:29-35 | Every listed pattern can be picked, and different choices pick different patterns. |
| Style.IntroStylesAllReachable | app.py:39-45 | Every listed opening style can be picked, and different choices pick different styles. |
| Style.LengthInstruction | app.py:48-51 | Every option gets one of the three instructions. "짧게" gets the 1,000-character one, and only it does. "보통" gets the 1,500-character one, and only it does. Every other string falls to the 2,500-character one. |
| Style.SliderOptionsDistinguished | app.py:49-51 | The three slider options map to three different instructions, "길게" to the long one. |
| Prompt.ReferenceSection | app.py:60-62 | The reference section is empty exactly when there is no reference text; otherwise it contains that text verbatim. |
| Prompt.GenerateProPrompt | app.py:54-99 | The reported opening style and pattern are members of their fixed lists. |
| Prompt.PromptParts | app.py:64-98 | The f-string's pieces in order: literal text and interpolated values alternating; Prompt.PartsContainValues and Prompt.PromptEndsWithContact state its contract. |
| Prompt.PartsContainValues | app.py:64-98 | Whatever the template's literal text, every interpolated value occurs verbatim in the filled template. |
| Prompt.PromptContainsInputs | app.py:54-98 | The prompt contains each of the following verbatim: the trade, the equipment, the place, the work done, the urgency, the contact line, the reported opening style and pattern, the length instruction, and the reference text when there is any. |
| Prompt.PromptEndsWithContact | app.py:94-98 | The prompt ends with the contact line followed by the fixed closing text. |
| Prompt.OnGenerate | app.py:123-129 | It warns, and fetches nothing, exactly when the trade or the work done is empty. Otherwise it shows `GenerateProPrompt` applied to the form, the choices and `ReferenceContent` of the URL text. In that case the oracle was handed the normalised, rewritten URLs, at most five of them. |
| Text.JoinSplit | app.py:17 | Splitting then joining with the same separator gives back the text; this is the inverse pair behind `str.split` and `str.replace`. |
| Text.SplitPiecesFree | app.py:13 | No piece of a split contains the separator. |
| Text.SplitOn | app.py:13 | `str.split` always yields at least one piece, and the first piece is a prefix of the text. |
| Text.JoinConsHead | app.py:17 | A character put in front of the first piece ends up in front of the joined text. |
| Text.ReplaceIsJoinOfSplit | app.py:17 | `str.replace` equals splitting on the target and joining with the replacement. |
| Text.ReplaceAbsent | app.py:17 | Without an occurrence of the target, replacing changes nothing. |
| Text.ReplacePresent | app.py:17 | With an occurrence of the target, the result contains the replacement. |
| Text.Contains | app.py:17 | Python's `in` on strings; Text.ContainsAt, Text.ContainsChar, Text.ContainsInfix and the lemmas beside them state its contract. |
| Text.ContainsInfix | app.py:60-76 | Containment is transitive; it carries the reference text from the section into the prompt. |
| Text.ContainsPrefixOf | app.py:17 | An occurrence in a prefix of a string is an occurrence in the string. |
| Text.Join | app.py:17 | `str.join`; Text.JoinSplit states that it undoes Text.SplitOn. |
| Text.Replace | app.py:17 | `str.replace`; Text.ReplaceIsJoinOfSplit, Text.ReplaceAbsent and Text.ReplacePresent state its contract. |
| Text.Decimal | app.py:23 | `str(n)` for the label number; Text.DecimalWellFormed and Text.DecimalRoundTrip state its contract. |
| Text.ContainsAt | app.py:17 | An occurrence at a known offset is an occurrence (the `in` operator). |
| Text.ContainsAfterPrefix | app.py:17 | Text placed in front does not hide an occurrence. |
| Text.ContainsBeforeSuffix | app.py:17 | Text placed after does not hide an occurrence. |
| Text.ContainsSuffixOfPattern | app.py:17 | A URL containing `m.blog.naver.com` contains `blog.naver.com`. |
| Text.ContainsChar | app.py:13 | A one-character pattern occurs exactly when that character is an element. |
| Text.LeadingSpace | app.py:13 | The counted prefix is all whitespace, and the character after it is not. |
| Text.TrailingSpace | app.py:13 | The counted suffix is all whitespace, and the character before it is not. |
| Text.Strip | app.py:13 | The stripped text is no longer than the input. It is empty exactly when the input is all whitespace, and otherwise neither starts nor ends with whitespace. |
| Text.StripRemovesOnlyOuterSpace | app.py:13 | The input is its leading whitespace, then the stripped text, then its trailing whitespace. |
| Text.StripIdempotent | app.py:13 | Stripping twice is stripping once. |
| Text.StripKeepsNoNewChar | app.py:13 | Every character of the stripped text occurs in the input. |
| Text.DigitChar | app.py:23 | A digit value becomes the digit character of that value. |
| Text.DecimalWellFormed | app.py:23 | The label number is a non-empty run of digits with no leading zero. |
| Text.DecimalRoundTrip | app.py:23 | Reading the label number back gives the number it was written from. |
| Text.ConcatSplit | app.py:64-98 | A concatenation of pieces splits at any piece boundary. |
| Text.ConcatContainsPart | app.py:64-98 | Each piece occurs verbatim in the concatenation. |
| Text.ConcatContainsEveryPart | app.py:64-98 | Every piece occurs verbatim in the concatenation. |
| Text.ConcatEndsWithLastTwo | app.py:94-98 | The concatenation ends with its last two pieces. |

## Left out

- The Streamlit page is not modelled: the page setup, the sidebar widgets, and the result columns at app.py:131-138. The form's values enter as a `JobForm` record.
- `requests.get` and the BeautifulSoup text extraction (app.py:18-21) are the page oracle `fetch`. The oracle is a function, so one URL always yields the same answer within one call. The `User-Agent` header and the 5-second timeout are not modelled; a timeout is one of the failures behind `None`.
- The bare `except: pass` (app.py:24) is modelled as the oracle answering `None`. An exception raised elsewhere in the loop body is not possible in the model: the host rewrite, the truncation and the labelling are total.
- `random.choice` (app.py:35, 45) becomes a choice index below 4 supplied by the caller. The model says nothing about the distribution of picks.
- Text.Strip: the whitespace set is the one of Python's `str.isspace`, written out as code points. Python's own Unicode tables are not consulted.
- Prompt.GenerateProPrompt: the source file has Windows line endings inside the triple-quoted template. The model writes each line break as a single `\n`, which is what Python's universal-newline source reading produces.
- Scraper.Fetched: its own contract states only the length of the answer list. Scraper.FetchedAsksMobileUrls states the answers: entry `k` is the oracle's answer for the `k`-th requested URL.
