/**
 * The link loop of `fetch_pib_data`: which anchors of the `content-area`
 * block become press-release records, with which title, URL and date.
 * The HTML parser is abstracted: the anchors arrive as a sequence of `Link`.
 */
module Extractor {
  import opened Wrappers
  import opened Text

  /** One `<a href=...>` of the result block: its href, its optional `title`
      attribute and its text. */
  datatype Link = Link(href: string, title: Option<string>, text: string)

  /** One result row: the columns Title, URL and Date. */
  datatype Record = Record(title: string, url: string, date: string)

  const Origin: string := "https://www.pib.gov.in"
  const ReleasePage: string := "PressReleasePage.aspx"
  const ReleaseIdParam: string := "relid="

  /** The href points at a press release: it names the release page, or it
      carries a `relid=` parameter in any letter case. */
  predicate Qualifies(href: string) {
    Contains(href, ReleasePage) || Contains(Lower(href), ReleaseIdParam)
  }

  /** The stripped `title` attribute, or the stripped link text when the
      attribute is absent or blank. */
  function ResolveTitle(link: Link): (t: string)
    ensures !AllSpace(link.title.GetOr("")) ==> t == Strip(link.title.GetOr(""))
    ensures AllSpace(link.title.GetOr("")) ==> t == Strip(link.text)
    ensures t == [] <==> AllSpace(link.title.GetOr("")) && AllSpace(link.text)
    ensures t != [] ==> !IsSpace(t[0]) && !IsSpace(t[|t| - 1])
  {
    var fromAttribute := Strip(link.title.GetOr(""));
    if fromAttribute != "" then fromAttribute else Strip(link.text)
  }

  /** The absolute URL of an href: hrefs that already start with "http" are
      kept, any other is appended to the site origin. */
  function AbsoluteUrl(href: string): (url: string)
    ensures StartsWith(url, "http")
    ensures url == href || url == Origin + href
    ensures url == href <==> StartsWith(href, "http")
  {
    if StartsWith(href, "http") then href else Origin + href
  }

  /** The optional keyword filter: an empty keyword keeps everything, any
      other must occur in the title, ignoring case. */
  predicate KeywordMatches(kw: string, title: string) {
    kw == "" || Contains(Lower(title), Lower(kw))
  }

  /** Everything a returned record satisfies for keyword `kw` and stamp `stamp`. */
  ghost predicate WellFormed(r: Record, kw: string, stamp: string) {
    && r.title != []
    && !IsSpace(r.title[0]) && !IsSpace(r.title[|r.title| - 1])
    && StartsWith(r.url, "http")
    && r.date == stamp
    && (kw == "" || exists i: nat :: OccursAt(Lower(kw), Lower(r.title), i))
  }

  /** What one link contributes to the result, if anything. */
  function RecordFor(link: Link, kw: string, stamp: string): Option<Record> {
    if !Qualifies(link.href) then None
    else
      var title := ResolveTitle(link);
      if title == [] || !KeywordMatches(kw, title) then None
      else Some(Record(title, AbsoluteUrl(link.href), stamp))
  }

  /** A link yields a record exactly when it is a release link with a
      non-blank title that passes the keyword filter, and that record is
      well formed and carries the link's title and absolute URL. */
  lemma RecordForMeaning(link: Link, kw: string, stamp: string)
    ensures var r := RecordFor(link, kw, stamp);
      && (r.Some? <==> Qualifies(link.href) && ResolveTitle(link) != [] && KeywordMatches(kw, ResolveTitle(link)))
      && (r.Some? ==> WellFormed(r.value, kw, stamp))
      && (r.Some? ==> r.value.title == ResolveTitle(link) && r.value.url == AbsoluteUrl(link.href))
  {
  }

  function Emit(r: Option<Record>): seq<Record> {
    if r.Some? then [r.value] else []
  }

  /** The records the loop produces from `links`, in link order. */
  function Extracted(links: seq<Link>, kw: string, stamp: string): seq<Record>
    decreases |links|
  {
    if links == [] then []
    else Extracted(links[..|links| - 1], kw, stamp) + Emit(RecordFor(links[|links| - 1], kw, stamp))
  }

  /** The loop over the anchors of the result block, appending to `results`. */
  method Extract(links: seq<Link>, kw: string, stamp: string) returns (results: seq<Record>)
    ensures results == Extracted(links, kw, stamp)
  {
    results := [];
    for i := 0 to |links|
      invariant results == Extracted(links[..i], kw, stamp)
    {
      var link := links[i];
      assert links[..i + 1][..i] == links[..i];
      ghost var emitted := RecordFor(link, kw, stamp);
      assert Extracted(links[..i + 1], kw, stamp) == results + Emit(emitted);
      var href := link.href;
      if Contains(href, ReleasePage) || Contains(Lower(href), ReleaseIdParam) {
        var title := Strip(link.title.GetOr(""));
        if title == "" {
          title := Strip(link.text);
        }
        assert title == ResolveTitle(link);
        if title != "" {
          var fullUrl := if !StartsWith(href, "http") then Origin + href else href;
          if kw == "" || Contains(Lower(title), Lower(kw)) {
            assert emitted == Some(Record(title, fullUrl, stamp));
            results := results + [Record(title, fullUrl, stamp)];
          } else {
            assert emitted == None;
          }
        } else {
          assert emitted == None;
        }
      } else {
        assert emitted == None;
      }
    }
    assert links[..|links|] == links;
  }

  /** `idx` lists, in increasing order, the positions of the links of
      `links` that yield a record, and record k comes from link idx[k]. */
  ghost predicate Selection(links: seq<Link>, kw: string, stamp: string, idx: seq<nat>) {
    && |idx| == |Extracted(links, kw, stamp)|
    && (forall k :: 0 <= k < |idx| ==> idx[k] < |links|)
    && (forall k, l :: 0 <= k < l < |idx| ==> idx[k] < idx[l])
    && (forall k :: 0 <= k < |idx| ==> RecordFor(links[idx[k]], kw, stamp) == Some(Extracted(links, kw, stamp)[k]))
    && (forall i :: 0 <= i < |links| && RecordFor(links[i], kw, stamp).Some? ==> i in idx)
  }

  /** The extraction is an order-preserving selection of the links: record k
      comes from link idx[k], the indices strictly increase, and every link
      that yields a record is selected. */
  lemma {:induction false} ExtractedSelection(links: seq<Link>, kw: string, stamp: string) returns (idx: seq<nat>)
    ensures |idx| == |Extracted(links, kw, stamp)|
    ensures forall k :: 0 <= k < |idx| ==> idx[k] < |links|
    ensures forall k, l :: 0 <= k < l < |idx| ==> idx[k] < idx[l]
    ensures forall k :: 0 <= k < |idx| ==> RecordFor(links[idx[k]], kw, stamp) == Some(Extracted(links, kw, stamp)[k])
    ensures forall i :: 0 <= i < |links| && RecordFor(links[i], kw, stamp).Some? ==> i in idx
  {
    idx := SelectionOf(links, kw, stamp);
  }

  lemma {:induction false} SelectionOf(links: seq<Link>, kw: string, stamp: string) returns (idx: seq<nat>)
    ensures Selection(links, kw, stamp, idx)
    decreases |links|
  {
    if links == [] {
      idx := [];
    } else {
      var prev := SelectionOf(links[..|links| - 1], kw, stamp);
      idx := SelectionStep(links, kw, stamp, prev);
    }
  }

  /** One step of the induction: extend a selection of all but the last link
      to a selection of all the links. */
  lemma SelectionStep(links: seq<Link>, kw: string, stamp: string, prev: seq<nat>) returns (idx: seq<nat>)
    requires links != [] && Selection(links[..|links| - 1], kw, stamp, prev)
    ensures Selection(links, kw, stamp, idx)
  {
    var n := |links| - 1;
    var last := RecordFor(links[n], kw, stamp);
    assert Extracted(links, kw, stamp) == Extracted(links[..n], kw, stamp) + Emit(last);
    idx := if last.Some? then prev + [n] else prev;
    StepOrder(prev, idx, n);
    StepValues(links, kw, stamp, prev, idx);
    StepComplete(links, kw, stamp, prev, idx);
  }

  lemma StepOrder(prev: seq<nat>, idx: seq<nat>, n: nat)
    requires forall k :: 0 <= k < |prev| ==> prev[k] < n
    requires forall k, l :: 0 <= k < l < |prev| ==> prev[k] < prev[l]
    requires idx == prev + [n] || idx == prev
    ensures forall k :: 0 <= k < |idx| ==> idx[k] < n + 1
    ensures forall k, l :: 0 <= k < l < |idx| ==> idx[k] < idx[l]
  {
    forall k, l | 0 <= k < l < |idx| ensures idx[k] < idx[l] {
      if l < |prev| {
        assert idx[k] == prev[k] && idx[l] == prev[l];
      }
    }
  }

  lemma StepValues(links: seq<Link>, kw: string, stamp: string, prev: seq<nat>, idx: seq<nat>)
    requires links != []
    requires var n := |links| - 1; var front := links[..n];
      && |prev| == |Extracted(front, kw, stamp)|
      && (forall k :: 0 <= k < |prev| ==> prev[k] < n)
      && (forall k :: 0 <= k < |prev| ==> RecordFor(front[prev[k]], kw, stamp) == Some(Extracted(front, kw, stamp)[k]))
      && Extracted(links, kw, stamp) == Extracted(front, kw, stamp) + Emit(RecordFor(links[n], kw, stamp))
      && idx == if RecordFor(links[n], kw, stamp).Some? then prev + [n] else prev
    ensures |idx| == |Extracted(links, kw, stamp)|
    ensures forall k :: 0 <= k < |idx| ==> idx[k] < |links| && RecordFor(links[idx[k]], kw, stamp) == Some(Extracted(links, kw, stamp)[k])
  {
    var n := |links| - 1;
    var front := links[..n];
    var all := Extracted(links, kw, stamp);
    forall k | 0 <= k < |idx|
      ensures idx[k] < |links| && RecordFor(links[idx[k]], kw, stamp) == Some(all[k])
    {
      if k < |prev| {
        assert idx[k] == prev[k] && all[k] == Extracted(front, kw, stamp)[k];
        assert links[prev[k]] == front[prev[k]];
      }
    }
  }

  lemma StepComplete(links: seq<Link>, kw: string, stamp: string, prev: seq<nat>, idx: seq<nat>)
    requires links != []
    requires var n := |links| - 1; var front := links[..n];
      && (forall i :: 0 <= i < |front| && RecordFor(front[i], kw, stamp).Some? ==> i in prev)
      && idx == if RecordFor(links[n], kw, stamp).Some? then prev + [n] else prev
    ensures forall i :: 0 <= i < |links| && RecordFor(links[i], kw, stamp).Some? ==> i in idx
  {
    var n := |links| - 1;
    var front := links[..n];
    forall i | 0 <= i < |links| && RecordFor(links[i], kw, stamp).Some? ensures i in idx {
      if i < n {
        assert links[i] == front[i];
        assert i in prev;
        var j :| 0 <= j < |prev| && prev[j] == i;
        assert idx[j] == i;
      } else {
        assert idx[|idx| - 1] == n;
      }
    }
  }

  /** At most one record per link. */
  lemma {:induction false} ExtractedLength(links: seq<Link>, kw: string, stamp: string)
    ensures |Extracted(links, kw, stamp)| <= |links|
  {
    var idx := ExtractedSelection(links, kw, stamp);
    IncreasingBound(idx, |links|);
  }

  lemma {:induction false} IncreasingBound(idx: seq<nat>, n: nat)
    requires forall k :: 0 <= k < |idx| ==> idx[k] < n
    requires forall k, l :: 0 <= k < l < |idx| ==> idx[k] < idx[l]
    ensures |idx| <= n
  {
    if idx != [] {
      var last := idx[|idx| - 1];
      IncreasingBound(idx[..|idx| - 1], last);
    }
  }

  /** Every returned record has a non-empty stripped title, a URL starting
      with "http", the period's stamp, and a title that passes the keyword filter. */
  lemma {:induction false} ExtractedWellFormed(links: seq<Link>, kw: string, stamp: string)
    ensures forall k :: 0 <= k < |Extracted(links, kw, stamp)| ==> WellFormed(Extracted(links, kw, stamp)[k], kw, stamp)
  {
    var idx := ExtractedSelection(links, kw, stamp);
    forall k | 0 <= k < |idx| ensures WellFormed(Extracted(links, kw, stamp)[k], kw, stamp) {
      RecordForMeaning(links[idx[k]], kw, stamp);
    }
  }

  /** A record is only ever produced from a release link. */
  lemma {:induction false} ExtractedFromReleaseLinks(links: seq<Link>, kw: string, stamp: string, k: nat)
    requires k < |Extracted(links, kw, stamp)|
    ensures exists i :: 0 <= i < |links| && Qualifies(links[i].href)
              && Extracted(links, kw, stamp)[k] == Record(ResolveTitle(links[i]), AbsoluteUrl(links[i].href), stamp)
  {
    var idx := ExtractedSelection(links, kw, stamp);
    var i := idx[k];
    RecordForMeaning(links[i], kw, stamp);
  }

  /** Extraction distributes over concatenation of the anchor list. */
  lemma {:induction false} ExtractedAppend(a: seq<Link>, b: seq<Link>, kw: string, stamp: string)
    ensures Extracted(a + b, kw, stamp) == Extracted(a, kw, stamp) + Extracted(b, kw, stamp)
    decreases |b|
  {
    if b != [] {
      var n := |b| - 1;
      assert (a + b)[..|a + b| - 1] == a + b[..n];
      ExtractedAppend(a, b[..n], kw, stamp);
    } else {
      assert a + b == a;
    }
  }

  /** The records of `rs` whose title passes the keyword filter, in order. */
  function FilterByKeyword(rs: seq<Record>, kw: string): seq<Record> {
    if rs == [] then []
    else
      FilterByKeyword(rs[..|rs| - 1], kw)
      + (if KeywordMatches(kw, rs[|rs| - 1].title) then [rs[|rs| - 1]] else [])
  }

  /** Filtering by keyword while extracting is the same as extracting with no
      keyword and filtering the records afterwards. */
  lemma {:induction false} KeywordIsPostFilter(links: seq<Link>, kw: string, stamp: string)
    ensures Extracted(links, kw, stamp) == FilterByKeyword(Extracted(links, "", stamp), kw)
    decreases |links|
  {
    if links != [] {
      var n := |links| - 1;
      KeywordIsPostFilter(links[..n], kw, stamp);
      var all := Extracted(links, "", stamp);
      var front := Extracted(links[..n], "", stamp);
      if RecordFor(links[n], "", stamp).Some? {
        assert all[..|all| - 1] == front;
      } else {
        assert all == front;
      }
    }
  }

  /** With an empty keyword a link is kept exactly when it is a release link
      with a non-blank title. */
  lemma EmptyKeywordKeepsAll(link: Link, stamp: string)
    ensures RecordFor(link, "", stamp).Some? <==> Qualifies(link.href) && ResolveTitle(link) != []
  {
    RecordForMeaning(link, "", stamp);
  }
}
