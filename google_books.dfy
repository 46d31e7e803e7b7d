/** The Google Books search endpoint: it forwards the query to the Google
    Books volumes search and rewrites every volume it gets back into the
    record shape the catalog search uses, so that the two can be merged.

    The outbound request is a parameter (`fetch`): it maps the request URL to
    the parsed JSON body, or to None when the request or the parsing throws. */
module GoogleBooks {
  import opened JsText

  // ---------------------------------------------------------------------------
  // The volumes search answer, reduced to the fields the transform reads

  datatype IndustryIdentifier = IndustryIdentifier(identifier: Option<string>)

  datatype ImageLinks = ImageLinks(thumbnail: Option<string>)

  datatype VolumeInfo = VolumeInfo(
    title: Option<string>,
    authors: Option<seq<string>>,
    publishedDate: Option<string>,
    publisher: Option<string>,
    language: Option<string>,
    industryIdentifiers: Option<seq<IndustryIdentifier>>,
    pageCount: Option<int>,
    categories: Option<seq<string>>,
    imageLinks: Option<ImageLinks>,
    ratingsCount: Option<int>,
    averageRating: Option<int>,
    description: Option<string>,
    previewLink: Option<string>,
    infoLink: Option<string>)

  /** `amount` is the number as a template literal prints it. */
  datatype RetailPrice = RetailPrice(amount: Option<string>, currencyCode: Option<string>)

  datatype SaleInfo = SaleInfo(buyLink: Option<string>, retailPrice: Option<RetailPrice>)

  datatype Item = Item(id: Option<string>, volumeInfo: Option<VolumeInfo>, saleInfo: Option<SaleInfo>)

  datatype Volumes = Volumes(totalItems: Option<int>, items: Option<seq<Item>>)

  /** `item.volumeInfo || {}`. */
  const NoVolumeInfo := VolumeInfo(None, None, None, None, None, None, None, None, None, None, None, None, None, None)

  /** `item.saleInfo || {}`. */
  const NoSaleInfo := SaleInfo(None, None)

  // ---------------------------------------------------------------------------
  // The common record shape

  datatype BuyLinks = BuyLinks(googlePlay: Option<string>, retailPrice: Option<string>)

  datatype Record = Record(
    key: string,
    title: string,
    authorName: seq<string>,
    firstPublishYear: Option<int>,
    publisher: seq<string>,
    language: seq<string>,
    isbn: seq<Option<string>>,
    numberOfPagesMedian: Option<int>,
    subject: seq<string>,
    coverI: Option<string>,
    ratingsCount: int,
    averageRating: int,
    googleBooksId: Option<string>,
    description: Option<string>,
    buyLinks: BuyLinks,
    previewLink: Option<string>,
    infoLink: Option<string>,
    source: string)

  datatype Body = Body(numFound: int, start: int, docs: seq<Record>)

  /** The query string of a request: absent parameters are None. */
  datatype Request = Request(verb: string, q: Option<string>, limit: Option<string>, offset: Option<string>)

  datatype Response = Preflight | Failure(status: int, error: string) | Success(body: Body)

  const MaxResultsCap := 40
  const UnknownTitle := "Unknown Title"
  const UnknownAuthor := "Unknown Author"
  const SourceTag := "google_books"

  // ---------------------------------------------------------------------------
  // Paging

  /** `Math.min(parseInt(limit), 40)`; None is NaN, which `Math.min` passes on. */
  function SearchLimit(limit: string): Option<int> {
    match ParseInt(limit)
    case None => None
    case Some(v) => Some(if v <= MaxResultsCap then v else MaxResultsCap)
  }

  /** A number as a template literal prints it, NaN included. */
  function NumberText(n: Option<int>): string {
    if n.Some? then IntToString(n.value) else "NaN"
  }

  /** The volumes search URL: the encoded query, the clamped limit, the start
      index, and the API key when one is configured. */
  function RequestUrl(q: string, limit: string, offset: string, apiKey: string): string {
    "https://www.googleapis.com/books/v1/volumes?q=" + EncodeUriComponent(q)
    + "&maxResults=" + NumberText(SearchLimit(limit))
    + "&startIndex=" + IntToString(ParseIntOrZero(offset))
    + (if apiKey != "" then "&key=" + apiKey else "")
  }

  /** The page size asked for is never above 40, equals the requested size up
      to 40, and a numeric limit is read back exactly. */
  lemma SearchLimitClamp(n: nat)
    ensures SearchLimit(NatToString(n)) == Some(if n <= 40 then n else 40)
    ensures forall limit :: SearchLimit(limit).Some? ==> SearchLimit(limit).value <= 40
  {
    ParseIntOfNatToString(n);
  }

  /** A numeric offset is passed on as the start index; a non-numeric one becomes 0. */
  lemma StartIndexOfOffset(n: nat, junk: string)
    requires StartsNoNumeral(junk)
    ensures ParseIntOrZero(NatToString(n)) == n
    ensures ParseIntOrZero(junk) == 0
  {
    ParseIntOfNatToString(n);
  }

  // ---------------------------------------------------------------------------
  // The transform of one volume

  /** `parseInt(publishedDate.substring(0, 4))` when the date is present and
      not empty; NaN and a missing date both reach the client as null. */
  function PublishYear(date: Option<string>): Option<int> {
    if TruthyStr(date) then
      var s := date.value;
      ParseInt(s[..if |s| < 4 then |s| else 4])
    else None
  }

  /** `'$' + amount + ' ' + currencyCode`, where a missing part prints as `undefined`. */
  function PriceText(p: RetailPrice): string {
    "$" + p.amount.GetOr("undefined") + " " + p.currencyCode.GetOr("undefined")
  }

  /** `thumbnail.replace('http:', 'https:')` when a thumbnail is present. */
  function CoverOf(links: Option<ImageLinks>): Option<string> {
    if links.Some? && TruthyStr(links.value.thumbnail)
    then Some(ReplaceFirst(links.value.thumbnail.value, "http:", "https:"))
    else None
  }

  function IdentifiersOf(ids: seq<IndustryIdentifier>): (r: seq<Option<string>>)
    ensures |r| == |ids| && forall k :: 0 <= k < |ids| ==> r[k] == ids[k].identifier
  {
    seq(|ids|, k requires 0 <= k < |ids| => ids[k].identifier)
  }

  /** One volume in the common record shape. */
  function Transform(item: Item): Record {
    var info := item.volumeInfo.GetOr(NoVolumeInfo);
    var sale := item.saleInfo.GetOr(NoSaleInfo);
    Record(
      key := "/works/GB_" + item.id.GetOr("undefined"),
      title := if TruthyStr(info.title) then info.title.value else UnknownTitle,
      authorName := info.authors.GetOr([UnknownAuthor]),
      firstPublishYear := PublishYear(info.publishedDate),
      publisher := if TruthyStr(info.publisher) then [info.publisher.value] else [],
      language := if TruthyStr(info.language) then [info.language.value] else ["en"],
      isbn := if info.industryIdentifiers.Some? then IdentifiersOf(info.industryIdentifiers.value) else [],
      numberOfPagesMedian := NonZero(info.pageCount),
      subject := info.categories.GetOr([]),
      coverI := CoverOf(info.imageLinks),
      ratingsCount := OrZero(info.ratingsCount),
      averageRating := OrZero(info.averageRating),
      googleBooksId := item.id,
      description := NonEmpty(info.description),
      buyLinks := BuyLinks(NonEmpty(sale.buyLink),
                           if sale.retailPrice.Some? then Some(PriceText(sale.retailPrice.value)) else None),
      previewLink := NonEmpty(info.previewLink),
      infoLink := NonEmpty(info.infoLink),
      source := SourceTag)
  }

  /** `(data.items || []).map(...)`. */
  function TransformAll(items: seq<Item>): (r: seq<Record>)
    ensures |r| == |items| && forall k :: 0 <= k < |items| ==> r[k] == Transform(items[k])
  {
    seq(|items|, k requires 0 <= k < |items| => Transform(items[k]))
  }

  // ---------------------------------------------------------------------------
  // The handler

  /** Method and query checks, then one request and the rewrite of its answer. */
  function Handle(req: Request, apiKey: string, fetch: string -> Option<Volumes>): (resp: Response)
    ensures req.verb == "OPTIONS" ==> resp == Preflight
    ensures req.verb != "OPTIONS" && req.verb != "GET" ==> resp == Failure(405, "Method not allowed")
    ensures req.verb == "GET" && !TruthyStr(req.q) ==> resp == Failure(400, "Search query is required")
    ensures resp.Success? <==>
      req.verb == "GET" && TruthyStr(req.q)
      && fetch(RequestUrl(req.q.value, req.limit.GetOr("20"), req.offset.GetOr("0"), apiKey)).Some?
    ensures resp.Failure? && resp.status == 500 ==> resp.error == "Failed to search Google Books"
  {
    if req.verb == "OPTIONS" then Preflight
    else if req.verb != "GET" then Failure(405, "Method not allowed")
    else if !TruthyStr(req.q) then Failure(400, "Search query is required")
    else
      var offset := req.offset.GetOr("0");
      match fetch(RequestUrl(req.q.value, req.limit.GetOr("20"), offset, apiKey))
      case None => Failure(500, "Failed to search Google Books")
      case Some(data) =>
        Success(Body(OrZero(data.totalItems), ParseIntOrZero(offset), TransformAll(data.items.GetOr([]))))
  }

  // ---------------------------------------------------------------------------
  // Properties of the transform

  /** A successful answer has exactly one record per volume, in the volumes'
      order; `num_found` is `totalItems` (0 when missing) and `start` the start
      index that was requested. */
  lemma OneRecordPerItem(req: Request, apiKey: string, fetch: string -> Option<Volumes>)
    requires Handle(req, apiKey, fetch).Success?
    ensures var data := fetch(RequestUrl(req.q.value, req.limit.GetOr("20"), req.offset.GetOr("0"), apiKey)).value;
      var items := data.items.GetOr([]);
      var body := Handle(req, apiKey, fetch).body;
      && |body.docs| == |items|
      && (forall k :: 0 <= k < |items| ==> body.docs[k] == Transform(items[k]))
      && body.numFound == (if TruthyInt(data.totalItems) then data.totalItems.value else 0)
      && body.start == ParseIntOrZero(req.offset.GetOr("0"))
  {
  }

  /** Every record names its source, carries the volume's id (or `undefined`)
      under a `/works/GB_` key, and has a non-empty title and a single
      language; title and first author fall back to the placeholders exactly
      when the volume has none; the ratings default to 0; a price text is
      there exactly when the volume has a retail price. */
  lemma RecordShape(item: Item)
    ensures var r := Transform(item); var info := item.volumeInfo.GetOr(NoVolumeInfo);
      && r.source == "google_books"
      && StartsWith(r.key, "/works/GB_")
      && (item.id.Some? ==> r.key == "/works/GB_" + item.id.value)
      && (item.id.None? ==> r.key == "/works/GB_undefined")
      && r.title != ""
      && |r.language| == 1 && r.language[0] != ""
      && |r.publisher| <= 1
      && r.language == (if TruthyStr(info.language) then [info.language.value] else ["en"])
      && r.publisher == (if TruthyStr(info.publisher) then [info.publisher.value] else [])
      && r.numberOfPagesMedian == NonZero(info.pageCount)
      && (r.title == "Unknown Title" <== item.volumeInfo.None? || !TruthyStr(item.volumeInfo.value.title))
      && (item.volumeInfo.Some? && TruthyStr(item.volumeInfo.value.title) ==> r.title == item.volumeInfo.value.title.value)
      && (item.volumeInfo.None? || item.volumeInfo.value.authors.None? ==> r.authorName == ["Unknown Author"])
      && (item.volumeInfo.Some? && item.volumeInfo.value.authors.Some? ==> r.authorName == item.volumeInfo.value.authors.value)
      && r.ratingsCount == (if item.volumeInfo.Some? then OrZero(item.volumeInfo.value.ratingsCount) else 0)
      && r.averageRating == (if item.volumeInfo.Some? then OrZero(item.volumeInfo.value.averageRating) else 0)
      && (r.buyLinks.retailPrice.Some? <==> item.saleInfo.Some? && item.saleInfo.value.retailPrice.Some?)
      && (r.buyLinks.retailPrice.Some? ==>
            r.buyLinks.retailPrice.value == PriceText(item.saleInfo.value.retailPrice.value)
            && StartsWith(r.buyLinks.retailPrice.value, "$"))
      && (r.numberOfPagesMedian.Some? ==> r.numberOfPagesMedian.value != 0)
  {
  }

  /** Every record of an answer is its own volume's: it is tagged
      `google_books`, keyed by that volume's id, titled and given a language;
      volumes with different ids get different keys. */
  lemma {:induction false} RecordsKeyedById(items: seq<Item>)
    ensures var r := TransformAll(items);
      && |r| == |items|
      && (forall k :: 0 <= k < |r| ==>
            r[k].source == SourceTag && r[k].title != "" && |r[k].language| == 1
            && r[k].key == "/works/GB_" + items[k].id.GetOr("undefined"))
      && (forall j, k ::
            (0 <= j < |r| && 0 <= k < |r| && items[j].id.Some? && items[k].id.Some? && items[j].id != items[k].id)
            ==> r[j].key != r[k].key)
  {
    var r := TransformAll(items);
    var p := "/works/GB_";
    forall j, k | 0 <= j < |r| && 0 <= k < |r| && items[j].id.Some? && items[k].id.Some?
                  && items[j].id != items[k].id
      ensures r[j].key != r[k].key
    {
      assert (p + items[j].id.value)[|p|..] == items[j].id.value;
      assert (p + items[k].id.value)[|p|..] == items[k].id.value;
    }
  }

  /** The identifiers and categories come through in order, one for one. */
  lemma ListsPreserved(info: VolumeInfo, item: Item)
    requires item.volumeInfo == Some(info)
    ensures info.industryIdentifiers.Some? ==>
      |Transform(item).isbn| == |info.industryIdentifiers.value|
      && forall k :: 0 <= k < |info.industryIdentifiers.value| ==>
           Transform(item).isbn[k] == info.industryIdentifiers.value[k].identifier
    ensures info.industryIdentifiers.None? ==> Transform(item).isbn == []
    ensures Transform(item).subject == (if info.categories.Some? then info.categories.value else [])
  {
  }

  /** A thumbnail served over `http:` is rewritten to `https:` with the rest
      unchanged; one without `http:` is kept as it is; no thumbnail gives no cover. */
  lemma CoverUsesHttps(links: Option<ImageLinks>)
    ensures CoverOf(links).None? <==> links.None? || !TruthyStr(links.value.thumbnail)
    ensures links.Some? && TruthyStr(links.value.thumbnail) && StartsWith(links.value.thumbnail.value, "http:") ==>
      CoverOf(links) == Some("https:" + links.value.thumbnail.value[5..])
    ensures links.Some? && TruthyStr(links.value.thumbnail) && !Contains(links.value.thumbnail.value, "http:") ==>
      CoverOf(links) == links.value.thumbnail
  {
    if links.Some? && TruthyStr(links.value.thumbnail) {
      var t := links.value.thumbnail.value;
      if StartsWith(t, "http:") {
        ReplaceFirstAtStart(t, "http:", "https:");
      }
      if !Contains(t, "http:") {
        ReplaceFirstAbsent(t, "http:", "https:");
      }
    }
  }

  /** A date that begins with four digits gives those digits as the year;
      no date gives no year. */
  lemma YearOfDate(date: string)
    requires |date| >= 4 && forall k :: 0 <= k < 4 ==> IsDigit(date[k])
    ensures PublishYear(Some(date)) == Some(DecimalValue(date[..4]))
    ensures PublishYear(None) == None
  {
    ParseIntDigits(date[..4]);
  }
}
