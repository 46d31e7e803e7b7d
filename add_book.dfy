/** The endpoint that saves a book as a page in the reader's Notion reading
    list: it derives the page properties from the book record (title, author
    line, genres, series flag and the optional fields) and hands them to the
    page-creation call.

    The page-creation call is a parameter (`create`), and so is the current
    time, given as the ISO 8601 text `toISOString` would produce. */
module NoteExport {
  import opened JsText
  import opened JsArray

  // ---------------------------------------------------------------------------
  // Data

  /** `cover_i`: a number in catalog records, a URL string in Google Books records. */
  datatype CoverRef = CoverNumber(n: int) | CoverText(s: string)

  /** The book record the client posts, reduced to the fields read here. */
  datatype Book = Book(
    title: Option<string>,
    authorName: Option<seq<string>>,
    firstPublishYear: Option<int>,
    editionCount: Option<int>,
    coverI: Option<CoverRef>,
    numberOfPagesMedian: Option<int>,
    isbn: Option<seq<string>>,
    subject: Option<seq<string>>,
    key: Option<string>)

  datatype CoverFile = CoverFile(name: string, url: string)

  /** The page properties; an absent optional property is None. */
  datatype Properties = Properties(
    title: string,
    author: string,
    status: string,
    genre: seq<string>,
    dateAdded: string,
    partOfSeries: string,
    pages: Option<int>,
    linkToBuy: Option<string>,
    summary: Option<string>,
    cover: Option<CoverFile>)

  /** What the page-creation call gives back: the new page's id, or the message it threw. */
  datatype CreateResult = Created(pageId: string) | CreateFailed(message: string)

  /** A request: the method and the `book` field of the body (None when missing or null). */
  datatype Request = Request(verb: string, book: Option<Book>)

  datatype Response =
    | Preflight
    | Failure(status: int, error: string, details: Option<string>)
    | Added(message: string, pageId: string)

  const ExaminedSubjects := 10
  const AddedMessage := "Book added to your catalog successfully! \U{1F525}"

  // ---------------------------------------------------------------------------
  // Title, author line and cover

  function TitleOf(book: Book): string {
    if TruthyStr(book.title) then book.title.value else "Unknown Title"
  }

  /** `author_name.join(', ')`, or the placeholder when there is no author list. */
  function AuthorsOf(book: Book): string {
    if book.authorName.Some? then Join(book.authorName.value, ", ") else "Unknown Author"
  }

  predicate TruthyCover(c: Option<CoverRef>) {
    c.Some? && match c.value
      case CoverNumber(n) => n != 0
      case CoverText(s) => s != ""
  }

  function CoverRefText(c: CoverRef): string {
    match c
    case CoverNumber(n) => IntToString(n)
    case CoverText(s) => s
  }

  /** The large cover image on the catalog's cover server, when there is a cover id. */
  function CoverUrl(c: Option<CoverRef>): (r: Option<string>)
    ensures r.Some? <==> TruthyCover(c)
    ensures r.Some? ==> StartsWith(r.value, "https://covers.openlibrary.org/b/id/") && r.value != ""
  {
    if TruthyCover(c) then
      var url := "https://covers.openlibrary.org/b/id/" + CoverRefText(c.value) + "-L.jpg";
      assert url[..36] == "https://covers.openlibrary.org/b/id/";
      Some(url)
    else None
  }

  // ---------------------------------------------------------------------------
  // Genre and series classification

  /** The genre one lower-cased subject yields: the first branch of the chain
      that matches, or none. */
  function GenreOf(l: string): Option<string> {
    if Contains(l, "fiction") && !Contains(l, "non-fiction") then Some("Fiction")
    else if Contains(l, "non-fiction") || Contains(l, "biography") || Contains(l, "history") then Some("Non-Fiction")
    else if Contains(l, "mystery") || Contains(l, "detective") then Some("Mystery")
    else if Contains(l, "science fiction") || Contains(l, "sci-fi") then Some("Science Fiction")
    else if Contains(l, "fantasy") then Some("Fantasy")
    else if Contains(l, "biography") then Some("Biography")
    else if Contains(l, "self-help") || Contains(l, "self help") then Some("Self-Help")
    else if Contains(l, "business") then Some("Business")
    else if Contains(l, "memoir") then Some("Memoir")
    else None
  }

  /** A lower-cased subject that marks a series. */
  predicate SubjectMarksSeries(l: string) {
    Contains(l, "series") || Contains(l, "book 1") || Contains(l, "volume")
  }

  /** A title that marks a series: `series` in any case, `#`, or `Book ` as written. */
  predicate TitleMarksSeries(title: string) {
    Contains(Lower(title), "series") || Contains(title, "#") || Contains(title, "Book ")
  }

  /** The subjects the classifier looks at: the first ten, or none. */
  function Examined(subject: Option<seq<string>>): (r: seq<string>)
    ensures |r| <= ExaminedSubjects
    ensures subject.Some? ==> |r| <= |subject.value| && r == subject.value[..|r|]
    ensures subject.Some? && |subject.value| >= ExaminedSubjects ==> |r| == ExaminedSubjects
    ensures subject.Some? && |subject.value| < ExaminedSubjects ==> r == subject.value
    ensures subject.None? ==> r == []
  {
    if subject.None? then []
    else if |subject.value| <= ExaminedSubjects then subject.value
    else subject.value[..ExaminedSubjects]
  }

  /** The genre one subject yields, compared in lower case. */
  function SubjectGenre(subject: string): Option<string> {
    GenreOf(Lower(subject))
  }

  /** The genres the subjects yield, one or none per subject, in subject order. */
  function RawGenres(ss: seq<string>): seq<string> {
    Collect(ss, SubjectGenre)
  }

  /** Some subject marks a series. */
  predicate SomeSubjectMarksSeries(ss: seq<string>) {
    exists k :: 0 <= k < |ss| && SubjectMarksSeries(Lower(ss[k]))
  }

  predicate SeriesMarked(ss: seq<string>, title: string) {
    SomeSubjectMarksSeries(ss) || TitleMarksSeries(title)
  }

  lemma SomeSubjectStep(ss: seq<string>, i: nat)
    requires i < |ss|
    ensures SomeSubjectMarksSeries(ss[..i + 1])
        <==> SomeSubjectMarksSeries(ss[..i]) || SubjectMarksSeries(Lower(ss[i]))
  {
    if SomeSubjectMarksSeries(ss[..i + 1]) {
      var k :| 0 <= k < i + 1 && SubjectMarksSeries(Lower(ss[..i + 1][k]));
      if k < i {
        assert ss[..i][k] == ss[..i + 1][k];
      }
    }
    if SomeSubjectMarksSeries(ss[..i]) {
      var k :| 0 <= k < i && SubjectMarksSeries(Lower(ss[..i][k]));
      assert ss[..i + 1][k] == ss[..i][k];
    }
    if SubjectMarksSeries(Lower(ss[i])) {
      assert ss[..i + 1][i] == ss[i];
    }
  }

  function Identity(g: string): string {
    g
  }

  /** `[...new Set(genres)]`, or `['Fiction']` when that is empty. */
  function FinalGenres(raw: seq<string>): seq<string> {
    var d := Dedup(raw, Identity);
    if d == [] then ["Fiction"] else d
  }

  /** The classification loop over the examined subjects, then the title check,
      then duplicate removal with the default genre. */
  method Classify(subject: Option<seq<string>>, title: string) returns (genres: seq<string>, partOfSeries: string)
    ensures genres == FinalGenres(RawGenres(Examined(subject)))
    ensures partOfSeries == (if SeriesMarked(Examined(subject), title) then "Yes" else "No")
  {
    genres := [];
    partOfSeries := "No";
    var subjects := Examined(subject);
    var i := 0;
    while i < |subjects|
      invariant 0 <= i <= |subjects|
      invariant genres == RawGenres(subjects[..i])
      invariant partOfSeries == (if SomeSubjectMarksSeries(subjects[..i]) then "Yes" else "No")
    {
      var lowerSubject := Lower(subjects[i]);
      var genre := SubjectGenre(subjects[i]);
      CollectStep(subjects, i, SubjectGenre);
      SomeSubjectStep(subjects, i);
      if genre.Some? {
        genres := genres + [genre.value];
      }
      if SubjectMarksSeries(lowerSubject) {
        partOfSeries := "Yes";
      }
      i := i + 1;
    }
    assert subjects[..|subjects|] == subjects;
    if TitleMarksSeries(title) {
      partOfSeries := "Yes";
    }
    genres := Dedup(genres, Identity);
    if |genres| == 0 {
      genres := ["Fiction"];
    }
  }

  // ---------------------------------------------------------------------------
  // Properties of the classification

  /** `Biography` is unreachable: a subject containing `biography` either
      contains `fiction` without `non-fiction` or is taken by the `Non-Fiction` branch. */
  lemma BiographyNeverEmitted(ss: seq<string>)
    ensures "Biography" !in RawGenres(ss)
    ensures "Biography" !in FinalGenres(RawGenres(ss))
  {
    CollectMembers(ss, SubjectGenre);
    DedupSubset(RawGenres(ss), Identity);
  }

  /** `Science Fiction` comes only from a subject with `sci-fi` and without
      `fiction`: `science fiction` contains `fiction`, so an earlier branch takes it. */
  lemma ScienceFictionOnlyFromSciFi(l: string)
    requires GenreOf(l) == Some("Science Fiction")
    ensures Contains(l, "sci-fi") && !Contains(l, "fiction")
  {
    if Contains(l, "science fiction") {
      assert OccursAt("science fiction", "fiction", 8);
      ContainsTransitive(l, "science fiction", "fiction");
    }
  }

  /** Each subject adds at most one genre, the one the first matching branch
      names, and every genre comes from some subject. */
  lemma OneGenrePerSubject(ss: seq<string>)
    ensures |RawGenres(ss)| <= |ss|
    ensures forall g :: g in RawGenres(ss) <==> exists k :: 0 <= k < |ss| && GenreOf(Lower(ss[k])) == Some(g)
  {
    CollectMembers(ss, SubjectGenre);
  }

  /** The final genre list is never empty, has no duplicates, is `['Fiction']`
      when no subject matched, and otherwise holds exactly the matched genres,
      each at its first match and in the order first matched. */
  lemma FinalGenresShape(raw: seq<string>)
    ensures FinalGenres(raw) != []
    ensures DistinctBy(FinalGenres(raw), Identity)
    ensures raw == [] ==> FinalGenres(raw) == ["Fiction"]
    ensures raw != [] ==> forall g :: g in FinalGenres(raw) <==> g in raw
    ensures raw != [] ==> forall i, j :: 0 <= i < j < |FinalGenres(raw)| ==>
      exists p, q ::
        && 0 <= p < q < |raw|
        && raw[p] == FinalGenres(raw)[i] && raw[q] == FinalGenres(raw)[j]
        && raw[p] !in raw[..p] && raw[q] !in raw[..q]
  {
    DedupDistinct(raw, Identity);
    if raw != [] {
      forall i, j | 0 <= i < j < |FinalGenres(raw)|
        ensures exists p, q ::
          && 0 <= p < q < |raw|
          && raw[p] == FinalGenres(raw)[i] && raw[q] == FinalGenres(raw)[j]
          && raw[p] !in raw[..p] && raw[q] !in raw[..q]
      {
        DedupOrder(raw, Identity, i, j);
        var p, q :| 0 <= p < q < |raw| && raw[p] == FinalGenres(raw)[i] && raw[q] == FinalGenres(raw)[j]
          && !HasKey(raw[..p], Identity, raw[p]) && !HasKey(raw[..q], Identity, raw[q]);
        assert raw[p] !in raw[..p] && raw[q] !in raw[..q];
      }
      forall g ensures g in FinalGenres(raw) <==> g in raw {
        DedupKeys(raw, Identity, g);
        assert HasKey(raw, Identity, g) <==> g in raw;
        assert HasKey(Dedup(raw, Identity), Identity, g) <==> g in Dedup(raw, Identity);
      }
      DedupKeys(raw, Identity, raw[0]);
      assert raw[0] in raw && Identity(raw[0]) == raw[0];
      assert HasKey(raw, Identity, raw[0]);
    }
  }

  /** The series flag is `Yes` exactly when one of the first ten subjects or the
      title marks a series; later subjects play no part. */
  lemma SeriesOnlyFromExamined(subjects: seq<string>, more: seq<string>, title: string)
    requires |subjects| == ExaminedSubjects
    ensures Examined(Some(subjects + more)) == subjects
    ensures SeriesMarked(Examined(Some(subjects + more)), title) == SeriesMarked(subjects, title)
  {
  }

  // ---------------------------------------------------------------------------
  // The page properties

  /** `First published in Y. ` followed by the edition count when there is one. */
  function SummaryText(year: int, editions: Option<int>): string {
    "First published in " + IntToString(year) + ". "
    + (if TruthyInt(editions) then IntToString(editions.value) + " editions available." else "")
  }

  /** The fixed properties, then each optional one when its field is truthy. */
  method BuildProperties(book: Book, genres: seq<string>, partOfSeries: string, isoNow: string)
    returns (properties: Properties)
    ensures properties.title == TitleOf(book) && properties.author == AuthorsOf(book)
    ensures properties.status == "To Read"
    ensures properties.genre == genres && properties.partOfSeries == partOfSeries
    ensures properties.dateAdded == Split(isoNow, 'T')[0]
    ensures properties.pages.Some? <==> TruthyInt(book.numberOfPagesMedian)
    ensures properties.pages.Some? ==> properties.pages == book.numberOfPagesMedian
    ensures properties.linkToBuy.Some? <==> TruthyStr(book.key)
    ensures properties.linkToBuy.Some? ==> properties.linkToBuy.value == "https://openlibrary.org" + book.key.value
    ensures properties.summary.Some? <==> TruthyInt(book.firstPublishYear)
    ensures properties.summary.Some? ==>
      properties.summary.value == SummaryText(book.firstPublishYear.value, book.editionCount)
    ensures properties.cover.Some? <==> TruthyCover(book.coverI)
    ensures properties.cover.Some? ==>
      properties.cover.value == CoverFile(TitleOf(book) + " Cover", CoverUrl(book.coverI).value)
  {
    var title := TitleOf(book);
    var pages := NonZero(book.numberOfPagesMedian);
    var coverUrl := CoverUrl(book.coverI);
    properties := Properties(title, AuthorsOf(book), "To Read", genres, Split(isoNow, 'T')[0], partOfSeries,
                             None, None, None, None);
    if pages.Some? {
      properties := properties.(pages := pages);
    }
    if TruthyStr(book.key) {
      properties := properties.(linkToBuy := Some("https://openlibrary.org" + book.key.value));
    }
    if TruthyInt(book.firstPublishYear) {
      properties := properties.(summary := Some(SummaryText(book.firstPublishYear.value, book.editionCount)));
    }
    if coverUrl.Some? {
      properties := properties.(cover := Some(CoverFile(title + " Cover", coverUrl.value)));
    }
  }

  /** The date stamp is the calendar date part of the ISO timestamp. */
  lemma DateAddedIsDatePart(date: string, time: string)
    requires 'T' !in date && 'T' !in time
    ensures Split(date + "T" + time, 'T')[0] == date
  {
    assert date + "T" + time == date + ['T'] + time;
    SplitPair(date, time, 'T');
  }

  // ---------------------------------------------------------------------------
  // The handler

  /** Method and body checks, then classification, assembly and page creation. */
  method AddBook(req: Request, isoNow: string, create: Properties -> CreateResult) returns (resp: Response)
    ensures req.verb == "OPTIONS" ==> resp == Preflight
    ensures req.verb != "OPTIONS" && req.verb != "POST" ==> resp == Failure(405, "Method not allowed", None)
    ensures req.verb == "POST" && req.book.None? ==> resp == Failure(400, "Book data is required", None)
    ensures req.verb == "POST" && req.book.Some? ==>
      var book := req.book.value;
      var props := Properties(TitleOf(book), AuthorsOf(book), "To Read",
        FinalGenres(RawGenres(Examined(book.subject))), Split(isoNow, 'T')[0],
        if SeriesMarked(Examined(book.subject), TitleOf(book)) then "Yes" else "No",
        NonZero(book.numberOfPagesMedian),
        if TruthyStr(book.key) then Some("https://openlibrary.org" + book.key.value) else None,
        if TruthyInt(book.firstPublishYear) then Some(SummaryText(book.firstPublishYear.value, book.editionCount)) else None,
        if TruthyCover(book.coverI) then Some(CoverFile(TitleOf(book) + " Cover", CoverUrl(book.coverI).value)) else None);
      resp == match create(props)
        case Created(id) => Added(AddedMessage, id)
        case CreateFailed(m) => Failure(500, "Failed to add book to Notion", Some(m))
  {
    if req.verb == "OPTIONS" {
      return Preflight;
    }
    if req.verb != "POST" {
      return Failure(405, "Method not allowed", None);
    }
    if req.book.None? {
      return Failure(400, "Book data is required", None);
    }
    var book := req.book.value;
    var genres, partOfSeries := Classify(book.subject, TitleOf(book));
    var properties := BuildProperties(book, genres, partOfSeries, isoNow);
    match create(properties)
    case Created(id) => resp := Added(AddedMessage, id);
    case CreateFailed(m) => resp := Failure(500, "Failed to add book to Notion", Some(m));
  }
}
