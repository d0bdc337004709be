/**
 * `fetch_pib_data`: load the listing page for its hidden tokens, post the
 * date selection, and extract the records from the `content-area` block.
 * The two HTTP exchanges are inputs: the first page load as a value, the
 * server's answer to the postback as a function of the payload.
 */
module Fetch {
  import opened Wrappers
  import opened Decimal
  import opened Extractor
  import Postback

  /** The result of one HTTP exchange and the parsing of its body: either
      some step raised an exception, or it produced a value. */
  datatype Exchange<T> = Raised | Returned(page: T)

  /** What the first page load yields: the `value` of each hidden input,
      None when the input or its `value` attribute is missing. */
  datatype ProbePage = ProbePage(viewState: Option<string>, eventValidation: Option<string>, viewStateGenerator: Option<string>)

  /** What the postback yields: the status code and the anchors carrying an
      href inside the `content-area` block, None when there is no such block. */
  datatype PostPage = PostPage(status: int, contentArea: Option<seq<Link>>)

  /** The tokens of a page load; None when any is missing (the lookup raises). */
  function ProbeTokens(page: ProbePage): (t: Option<Postback.Tokens>)
    ensures t.Some? <==> page.viewState.Some? && page.eventValidation.Some? && page.viewStateGenerator.Some?
    ensures t.Some? ==>
      && t.value.viewState == page.viewState.value
      && t.value.eventValidation == page.eventValidation.value
      && t.value.viewStateGenerator == page.viewStateGenerator.value
  {
    match (page.viewState, page.eventValidation, page.viewStateGenerator)
    case (Some(vs), Some(ev), Some(gen)) => Some(Postback.Tokens(vs, gen, ev))
    case _ => None
  }

  /** The records for day `d`, month `m`, year `y` and keyword `kw`; an
      empty sequence on every failure. */
  method FetchPibData(d: int, m: int, y: int, kw: string,
                      probe: Exchange<ProbePage>, post: Postback.Payload -> Exchange<PostPage>)
    returns (results: seq<Record>)
    ensures probe.Raised? ==> results == []
    ensures probe.Returned? && ProbeTokens(probe.page).None? ==> results == []
    ensures probe.Returned? && ProbeTokens(probe.page).Some? ==>
      var reply := post(Postback.BuildPayload(d, m, y, ProbeTokens(probe.page).value));
      && (reply.Raised? ==> results == [])
      && (reply.Returned? && reply.page.status != 200 ==> results == [])
      && (reply.Returned? && reply.page.status == 200 && reply.page.contentArea.None? ==> results == [])
      && (reply.Returned? && reply.page.status == 200 && reply.page.contentArea.Some? ==>
            results == Extracted(reply.page.contentArea.value, kw, DateLabel(d, m, y)))
    ensures forall k :: 0 <= k < |results| ==> WellFormed(results[k], kw, DateLabel(d, m, y))
  {
    var stamp := DateLabel(d, m, y);
    if probe.Raised? {
      return [];
    }
    var tokens := ProbeTokens(probe.page);
    if tokens.None? {
      return [];
    }
    var payload := Postback.BuildPayload(d, m, y, tokens.value);
    var reply := post(payload);
    if reply.Raised? {
      return [];
    }
    if reply.page.status != 200 {
      return [];
    }
    results := [];
    if reply.page.contentArea.Some? {
      var links := reply.page.contentArea.value;
      results := Extract(links, kw, stamp);
      ExtractedWellFormed(links, kw, stamp);
    }
  }

  /** Every stamp on a record extracted for a non-negative period reads
      back as that period. */
  lemma StampNamesPeriod(d: int, m: int, y: int, kw: string, links: seq<Link>)
    requires d >= 0 && m >= 0 && y >= 0
    ensures var records := Extracted(links, kw, DateLabel(d, m, y));
      forall k :: 0 <= k < |records| ==> ParseLabel(records[k].date) == Some((d, m, y))
  {
    ExtractedWellFormed(links, kw, DateLabel(d, m, y));
    LabelRoundTrip(d, m, y);
  }
}
