/**
 * The form postback that selects a date on the listing page: the hidden
 * ASP.NET state fields replayed from the first page load, the fixed
 * region, language and ministry selectors, and the day, month and year.
 */
module Postback {
  import opened Wrappers
  import opened Decimal

  /** The three hidden state fields read from the first page load. */
  datatype Tokens = Tokens(viewState: string, viewStateGenerator: string, eventValidation: string)

  /** The form fields of the POST body, by name. */
  type Payload = map<string, string>

  const EventTarget: string := "__EVENTTARGET"
  const EventArgument: string := "__EVENTARGUMENT"
  const LastFocus: string := "__LASTFOCUS"
  const ViewState: string := "__VIEWSTATE"
  const ViewStateGenerator: string := "__VIEWSTATEGENERATOR"
  const ViewStateEncrypted: string := "__VIEWSTATEENCRYPTED"
  const EventValidation: string := "__EVENTVALIDATION"
  const BarRegion: string := "ctl00$Bar1$ddlregion"
  const BarLang: string := "ctl00$Bar1$ddlLang"
  const RegionId: string := "ctl00$ContentPlaceHolder1$hydregionid"
  const LangId: string := "ctl00$ContentPlaceHolder1$hydLangid"
  const Ministry: string := "ctl00$ContentPlaceHolder1$ddlMinistry"
  const DayField: string := "ctl00$ContentPlaceHolder1$ddlday"
  const MonthField: string := "ctl00$ContentPlaceHolder1$ddlMonth"
  const YearField: string := "ctl00$ContentPlaceHolder1$ddlYear"

  /** The form field names, the same for every postback. */
  const FieldNames: set<string> := {
    EventTarget, EventArgument, LastFocus, ViewState, ViewStateGenerator,
    ViewStateEncrypted, EventValidation, BarRegion, BarLang, RegionId, LangId,
    Ministry, DayField, MonthField, YearField
  }

  /** The payload for day `d`, month `m` and year `y` with the tokens `t`. */
  function BuildPayload(d: int, m: int, y: int, t: Tokens): Payload {
    map[
      EventTarget := DayField,
      EventArgument := "",
      LastFocus := "",
      ViewState := t.viewState,
      ViewStateGenerator := t.viewStateGenerator,
      ViewStateEncrypted := "",
      EventValidation := t.eventValidation,
      BarRegion := "3",
      BarLang := "1",
      RegionId := "3",
      LangId := "1",
      Ministry := "0",
      DayField := IntToString(d),
      MonthField := IntToString(m),
      YearField := IntToString(y)
    ]
  }

  /** The date a payload selects, read back from its three date fields. */
  function PayloadDate(p: Payload): Option<(int, int, int)> {
    if DayField in p && MonthField in p && YearField in p
       && ParseInt(p[DayField]).Some? && ParseInt(p[MonthField]).Some? && ParseInt(p[YearField]).Some?
    then Some((ParseInt(p[DayField]).value, ParseInt(p[MonthField]).value, ParseInt(p[YearField]).value))
    else None
  }

  /** The tokens a payload replays. */
  function PayloadTokens(p: Payload): Option<Tokens> {
    if ViewState in p && ViewStateGenerator in p && EventValidation in p
    then Some(Tokens(p[ViewState], p[ViewStateGenerator], p[EventValidation]))
    else None
  }

  /** Every postback carries exactly the fixed field names. */
  lemma PayloadFieldNames(d: int, m: int, y: int, t: Tokens)
    ensures BuildPayload(d, m, y, t).Keys == FieldNames
  {
  }

  /** The postback is raised by the day drop-down, with empty event markers. */
  lemma PayloadMarkers(d: int, m: int, y: int, t: Tokens)
    ensures var p := BuildPayload(d, m, y, t);
      && p[EventTarget] == DayField && p[EventArgument] == "" && p[LastFocus] == ""
      && p[ViewStateEncrypted] == ""
  {
  }

  /** The selectors are the constants of this integration: region 3,
      language 1, all ministries. */
  lemma PayloadSelectors(d: int, m: int, y: int, t: Tokens)
    ensures var p := BuildPayload(d, m, y, t);
      && p[BarRegion] == "3" && p[BarLang] == "1"
      && p[RegionId] == "3" && p[LangId] == "1" && p[Ministry] == "0"
  {
  }

  /** The tokens travel unchanged and the date fields are `str(d)`, `str(m)`,
      `str(y)`, so reading the payload back yields the inputs. */
  lemma PayloadRoundTrip(d: int, m: int, y: int, t: Tokens)
    ensures var p := BuildPayload(d, m, y, t);
      && p[DayField] == IntToString(d) && p[MonthField] == IntToString(m) && p[YearField] == IntToString(y)
      && PayloadTokens(p) == Some(t)
      && PayloadDate(p) == Some((d, m, y))
  {
    IntRoundTrip(d);
    IntRoundTrip(m);
    IntRoundTrip(y);
  }

  /** The whole-month selection: day 0 is sent as "0". */
  lemma WholeMonthDay(m: int, y: int, t: Tokens)
    ensures BuildPayload(0, m, y, t)[DayField] == "0"
  {
  }
}
