# PIB press-release fetcher: a verified model of `fetch_pib_data`

`appnew.py` fetches press releases from the Press Information Bureau portal
(`https://www.pib.gov.in/allRel.aspx?reg=3&lang=1`) for one day, month and
year. It works in three steps. First it loads the page and reads the three hidden
ASP.NET state fields (`__VIEWSTATE`, `__EVENTVALIDATION`,
`__VIEWSTATEGENERATOR`). Then it posts them back with the date selection.
Last, it walks the anchors of the `content-area` block of the answer. A
press-release anchor becomes a record `{Title, URL, Date}`, and an optional
keyword filter ignores letter case. Every failure gives an empty list.

The model has six modules, one file each:

- `Wrappers` (`wrappers.dfy`): `Option`, for attributes and page elements that may be absent.
- `Text` (`text.dfy`): the Python string operations the loop uses: `strip()`, `lower()`,
  `startswith` and the substring test `t in s`. `Contains` is specified by
  the existence of an occurrence. `Strip` is specified by the whitespace it removes.
- `Decimal` (`decimal.dfy`): `str()` of an integer (`IntToString`) with its inverse
  `ParseInt`, and the date stamp `f"{d}-{m}-{y}"` (`DateLabel`) with its
  reader `ParseLabel`.
- `Extractor` (`extractor.dfy`): the anchor loop. `Extract` is the loop itself, a
  method that appends to `results`. `Extracted` is the functional
  specification it is proved equal to. The lemmas about `Extracted` state the
  selection, order, bound, title, URL, keyword and stamp properties.
- `Postback` (`postback.dfy`): the form payload, a map from field name to value. It
  has two readers (`PayloadTokens`, `PayloadDate`) that invert it.
- `Fetch` (`fetch.dfy`): the outcome cascade of `fetch_pib_data` as a method. Its
  inputs stand for the two HTTP exchanges. The first page load is a value
  (`Exchange<ProbePage>`). The server's answer to the postback is a function
  of the payload (`Payload -> Exchange<PostPage>`). `Raised` stands for any
  exception that the `except Exception` clause catches.

Behaviour worth noting:

- Day 0 gives the stamp `0-12-2024`: the stamp is always `str(d)-str(m)-str(y)`.
- Every failure gives `[]`: an exception during either exchange, a missing
  token, a status other than 200 and a missing `content-area` block.
- Any status other than 200, other 2xx statuses included, gives `[]`.
- An href counts as absolute only when it starts with `http`. So
  `httpdocs/x?relid=1` is kept as it is, and `//host/x` gets the origin prefix.
- One call handles one period.

## Model

| member | source | states |
|---|---|---|
| `Text.Strip` | appnew.py:95-97 | the result is empty exactly when the input is all Python whitespace; otherwise it is the slice left after removing the whitespace runs at both ends, and it begins and ends with a non-space character |
| `Text.Lower` | appnew.py:94 | lower-casing keeps the length and maps every character through ASCII lower-casing |
| `Text.Contains` | appnew.py:94 | `t in s` holds exactly when `t` occurs in `s` at some position |
| `Extractor.Qualifies` | appnew.py:94 | the release-link test: "PressReleasePage.aspx" occurs in the href, or "relid=" occurs in the lower-cased href; its meaning comes from the contract of `Text.Contains` and is stated for the output by `ExtractedFromReleaseLinks` |
| `Extractor.ResolveTitle` | appnew.py:95-97 | the title is the stripped `title` attribute when that has a non-space character, else the stripped link text; it is empty exactly when both are blank |
| `Extractor.AbsoluteUrl` | appnew.py:100 | the URL always starts with "http"; it is the href itself exactly when the href starts with "http", else the origin followed by the href |
| `Extractor.KeywordMatches` | appnew.py:103 | the keyword test: an empty keyword matches every title, any other must occur in the lower-cased title after lower-casing; specified through `Text.Contains` and `Text.Lower`, and stated for the output by `ExtractedWellFormed`, `KeywordIsPostFilter` and `EmptyKeywordKeepsAll` |
| `Extractor.RecordFor` | appnew.py:93-104 | what one anchor contributes to the result; specified by `RecordForMeaning` |
| `Extractor.RecordForMeaning` | appnew.py:93-104 | a link yields a record exactly when its href is a release link, its title is non-blank and the keyword matches; that record has the resolved title, the absolute URL and the stamp |
| `Extractor.Extracted` | appnew.py:86-106 | the records of the whole anchor list, in anchor order; specified by `Extract`, `ExtractedSelection`, `ExtractedLength`, `ExtractedWellFormed`, `ExtractedFromReleaseLinks`, `ExtractedAppend` and `KeywordIsPostFilter` |
| `Extractor.Extract` | appnew.py:86-104 | the loop's `results` equal the functional extraction `Extracted` of the anchors, so repeated runs on the same anchors give the same sequence |
| `Extractor.ExtractedSelection` | appnew.py:90-104 | the output is an order-preserving selection of the anchors: record k comes from anchor idx[k], the indices strictly increase, and every anchor that yields a record is selected |
| `Extractor.ExtractedLength` | appnew.py:92-104 | at most one record per anchor: the output is no longer than the anchor list |
| `Extractor.ExtractedWellFormed` | appnew.py:95-104 | every record has a non-empty stripped title, a URL starting with "http", the stamp as Date, and (for a non-empty keyword) the lower-cased keyword occurs in the lower-cased title |
| `Extractor.ExtractedFromReleaseLinks` | appnew.py:94 | every record comes from an anchor whose href contains "PressReleasePage.aspx" or whose lower-cased href contains "relid=" |
| `Extractor.ExtractedAppend` | appnew.py:92-104 | extraction distributes over concatenation of the anchor list (each anchor is handled on its own, in order) |
| `Extractor.KeywordIsPostFilter` | appnew.py:103 | extracting with a keyword equals extracting with no keyword and then keeping the records whose title matches |
| `Extractor.EmptyKeywordKeepsAll` | appnew.py:103 | with an empty keyword a link is kept exactly when it is a release link with a non-blank title |
| `Decimal.IntToString` | appnew.py:66-68 | `str(n)` is a canonical digit string for n >= 0, and '-' followed by a canonical non-zero digit string for n < 0 |
| `Decimal.IntRoundTrip` | appnew.py:66-68 | parsing `str(n)` gives back n, for every integer n |
| `Decimal.ParseIntRoundTrip` | appnew.py:66-68 | every string the parser accepts is `str()` of its value, so printing and parsing are mutually inverse |
| `Decimal.DateLabel` | appnew.py:32 | the stamp `f"{d}-{m}-{y}"`; specified by `LabelRoundTrip` and `DateLabelExample` |
| `Decimal.LabelRoundTrip` | appnew.py:32 | for non-negative day, month and year the stamp `f"{d}-{m}-{y}"` reads back as exactly (d, m, y) |
| `Decimal.DateLabelExample` | appnew.py:32 | day 9, month 12, year 2024 gives the stamp "9-12-2024" |
| `Postback.BuildPayload` | appnew.py:53-69 | the postback form fields; specified by `PayloadFieldNames`, `PayloadMarkers`, `PayloadSelectors`, `PayloadRoundTrip` and `WholeMonthDay` |
| `Postback.PayloadFieldNames` | appnew.py:53-69 | every payload has exactly the fixed field names of the dict literal, whatever the date and tokens |
| `Postback.PayloadMarkers` | appnew.py:54-59 | the event target is the day drop-down and the event argument, last-focus and view-state-encrypted markers are empty |
| `Postback.PayloadSelectors` | appnew.py:61-65 | the region selectors are "3", the language selectors "1" and the ministry "0" |
| `Postback.PayloadRoundTrip` | appnew.py:57-68 | the three tokens travel unchanged, the date fields are `str(d)`, `str(m)`, `str(y)`, and reading the payload back yields the tokens and (d, m, y) |
| `Postback.WholeMonthDay` | appnew.py:66 | day 0 is sent as "0" |
| `Fetch.ProbeTokens` | appnew.py:48-50 | the tokens are available exactly when all three hidden inputs carry a value, and they are those values |
| `Fetch.FetchPibData` | appnew.py:43-110 | an exception on the page load, a missing token, an exception on the postback, a status other than 200 or a missing `content-area` each give []; otherwise the result is the extraction of the block's anchors with the stamp of (d, m, y); every record is well formed |
| `Fetch.StampNamesPeriod` | appnew.py:104 | the Date of every record extracted for a non-negative (d, m, y) reads back as (d, m, y) |

## Left out

- The Streamlit interface: page set-up, inputs, button, spinner, the success, warning and error messages, and the `search_box_result` caption (appnew.py:11-28, 75, 80-83, 109, 112-146). None of them affects the returned records.
- HTTP through `requests.Session`, the request headers and the disabled certificate checks (appnew.py:33-45, 72). Network I/O is replaced by the abstract `Exchange` inputs of `FetchPibData`. The session cookies that tie the postback to the page load are assumed to be handled by the server function.
- HTML parsing with BeautifulSoup (appnew.py:46, 78, 87, 90). The hidden inputs become `Option<string>` values and the block's anchors become a `seq<Link>`. `Link.text` stands for the anchor's text.
- The table display and CSV export with pandas (appnew.py:121-144). These only serialise the records.
- `Text.Lower`: lower-cases the ASCII letters A-Z only, while Python's `str.lower()` also folds non-ASCII letters, some depending on context (a final capital sigma becomes ς). So the keyword test can differ from Python in either direction when the keyword or title holds non-ASCII letters. The `relid=` test is unaffected: the only non-ASCII characters whose lower case contains ASCII letters are İ (i followed by a combining dot) and the Kelvin sign (k), and neither can produce "relid=".
- `Postback.BuildPayload`: the payload is a map, so the order of the form fields in the encoded body is not modelled. Python sends the fields in the order of the dict literal; the model states only which fields are sent and their values.
- Concurrency, timeouts and merging several periods: the code handles one period per call and has none of these.
