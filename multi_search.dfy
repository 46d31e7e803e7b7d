/** The multi-source search endpoint: it queries the catalog search and the
    Google Books search, merges what comes back into one list without
    duplicate works, ranks the list and reports, per source, how the request
    went.

    The two outbound requests are a parameter (`fetch`), and what they settle
    to is taken in the order the requests were issued. */
module Aggregator {
  import opened JsText
  import opened JsArray

  // ---------------------------------------------------------------------------
  // Data

  /** A book record as a source returns it, reduced to the fields this endpoint
      reads; every other field travels through unchanged. */
  datatype Doc = Doc(
    key: Option<string>,
    title: Option<string>,
    authorName: Option<seq<string>>,
    ratingsCount: Option<int>,
    averageRating: Option<int>)

  /** The JSON body one source endpoint answered with. */
  datatype SourceData = SourceData(numFound: Option<int>, docs: Option<seq<Doc>>)

  /** What one request settles to: the parsed body, or the failure its `.catch` turned into a value. */
  datatype FetchResult = Fetched(data: SourceData) | FetchFailed(message: string)

  /** One outbound request: which internal endpoint, with the query, limit and offset passed through. */
  datatype Outbound = Outbound(source: string, q: string, limit: string, offset: string)

  /** A book of the merged list: the record and the source that supplied it.
      The three search links the endpoint adds are functions of the record. */
  datatype Entry = Entry(doc: Doc, searchSource: string) {
    /** `amazon_search`: an Amazon book search for the title and first author. */
    function AmazonSearch(): string {
      AmazonPrefix + EncodeUriComponent(LinkText(doc)) + "&i=stripbooks"
    }

    /** `goodreads_search`. */
    function GoodreadsSearch(): string {
      GoodreadsPrefix + EncodeUriComponent(LinkText(doc))
    }

    /** `audible_search`. */
    function AudibleSearch(): string {
      AudiblePrefix + EncodeUriComponent(LinkText(doc))
    }
  }

  /** One entry of the per-source status object. */
  datatype Status = Succeeded(found: int) | Errored(error: string)

  /** The query string of a request: absent parameters are None. */
  datatype Request = Request(
    verb: string,
    q: Option<string>,
    limit: Option<string>,
    offset: Option<string>,
    sources: Option<string>)

  datatype Envelope = Envelope(
    numFound: int,
    start: int,
    docs: seq<Entry>,
    sources: seq<(string, Status)>,
    searchQuery: string,
    message: string)

  datatype Response = Preflight | Failure(status: int, error: string) | Success(body: Envelope)

  const OpenLibrary := "openlibrary"
  const Google := "google"
  const SearchFailed := "Search failed"
  const AmazonPrefix := "https://www.amazon.com/s?k="
  const GoodreadsPrefix := "https://www.goodreads.com/search?q="
  const AudiblePrefix := "https://www.audible.com/search?keywords="
  const NoResultsMessage :=
    "No books found. Try different keywords or check the Gemini AI chat for personalized recommendations!"

  // ---------------------------------------------------------------------------
  // Which sources are queried

  /** The list of requested source names: `all` stands for both sources,
      anything else is split on commas. */
  function RequestedSources(sources: string): (r: seq<string>)
    ensures sources == "all" ==> r == [OpenLibrary, Google]
    ensures sources != "all" ==> Join(r, ",") == sources
    ensures sources != "all" ==> |r| >= 1 && forall k :: 0 <= k < |r| ==> ',' !in r[k]
  {
    if sources == "all" then [OpenLibrary, Google]
    else
      JoinSplit(sources, ',');
      Split(sources, ',')
  }

  /** The sources a request is issued for, in the order the requests are
      pushed: the catalog first, then Google Books. */
  function Queried(requested: seq<string>): (r: seq<string>)
    ensures forall s :: s in r <==> (s == OpenLibrary || s == Google) && s in requested
    ensures |r| <= 2 && (|r| == 2 ==> r == [OpenLibrary, Google])
  {
    (if OpenLibrary in requested then [OpenLibrary] else [])
    + (if Google in requested then [Google] else [])
  }

  /** The settled outcome of each issued request, in push order. */
  function Settle(queried: seq<string>, q: string, limit: string, offset: string,
                  fetch: Outbound -> FetchResult): (r: seq<(string, FetchResult)>)
    ensures |r| == |queried|
    ensures forall i :: 0 <= i < |r| ==>
      r[i] == (queried[i], fetch(Outbound(queried[i], q, limit, offset)))
  {
    seq(|queried|, i requires 0 <= i < |queried| =>
      (queried[i], fetch(Outbound(queried[i], q, limit, offset))))
  }

  // ---------------------------------------------------------------------------
  // Merge keys and decoration

  function FirstAuthor(d: Doc): Option<string> {
    if d.authorName.Some? && |d.authorName.value| > 0 then Some(d.authorName.value[0]) else None
  }

  /** An optional string as a template literal prints it after `?.toLowerCase()`. */
  function LowerOrUndefined(o: Option<string>): string {
    if o.Some? then Lower(o.value) else "undefined"
  }

  /** The deduplication key: lower-cased title, `_`, lower-cased first author. */
  function MergeKey(d: Doc): string {
    LowerOrUndefined(d.title) + "_" + LowerOrUndefined(FirstAuthor(d))
  }

  function EntryKey(e: Entry): string {
    MergeKey(e.doc)
  }

  /** The text the three search links search for: the title, a space and the
      first author (or nothing). */
  function LinkText(d: Doc): string {
    (if d.title.Some? then d.title.value else "undefined") + " "
    + (if TruthyStr(FirstAuthor(d)) then FirstAuthor(d).value else "")
  }

  /** `{ ...book, search_source: source, ... }`. */
  function Decorate(source: string, d: Doc): Entry {
    Entry(d, source)
  }

  function DecorateAll(source: string, docs: seq<Doc>): (r: seq<Entry>)
    ensures |r| == |docs|
    ensures forall k :: 0 <= k < |docs| ==> r[k] == Decorate(source, docs[k])
  {
    seq(|docs|, k requires 0 <= k < |docs| => Decorate(source, docs[k]))
  }

  /** What a site reads back as the searched parameter of a link: the text
      after the link's fixed prefix up to the next `&`. */
  function ParameterValue(link: string, prefix: string): string {
    if StartsWith(link, prefix) then Split(link[|prefix|..], '&')[0] else ""
  }

  /** An encoded component holds no `&`. */
  lemma EncodedHasNoAmpersand(text: string)
    ensures '&' !in EncodeUriComponent(text)
  {
    EncodeUriComponentSafe(text);
  }

  /** An encoded component ending a link is the whole parameter. */
  lemma ParameterAtEnd(prefix: string, text: string)
    ensures ParameterValue(prefix + EncodeUriComponent(text), prefix) == EncodeUriComponent(text)
  {
    var e := EncodeUriComponent(text);
    EncodedHasNoAmpersand(text);
    assert (prefix + e)[..|prefix|] == prefix;
    assert (prefix + e)[|prefix|..] == e;
    SplitNoSeparator(e, '&');
  }

  /** An encoded component followed by another parameter is the whole parameter. */
  lemma ParameterBeforeAmpersand(prefix: string, text: string, suffix: string)
    requires '&' !in suffix
    ensures ParameterValue(prefix + EncodeUriComponent(text) + ['&'] + suffix, prefix) == EncodeUriComponent(text)
  {
    var e := EncodeUriComponent(text);
    var link := prefix + e + ['&'] + suffix;
    EncodedHasNoAmpersand(text);
    assert link == prefix + (e + ['&'] + suffix);
    assert link[..|prefix|] == prefix;
    assert link[|prefix|..] == e + ['&'] + suffix;
    SplitPair(e, suffix, '&');
  }

  lemma AmazonReadsBack(e: Entry)
    ensures DecodeUriComponent(ParameterValue(e.AmazonSearch(), AmazonPrefix)) == Some(LinkText(e.doc))
  {
    var text := LinkText(e.doc);
    assert e.AmazonSearch() == AmazonPrefix + EncodeUriComponent(text) + ['&'] + "i=stripbooks";
    ParameterBeforeAmpersand(AmazonPrefix, text, "i=stripbooks");
    DecodeEncode(text);
  }

  lemma LinkAtEndReadsBack(prefix: string, text: string)
    ensures DecodeUriComponent(ParameterValue(prefix + EncodeUriComponent(text), prefix)) == Some(text)
  {
    ParameterAtEnd(prefix, text);
    DecodeEncode(text);
  }

  /** Every merged entry keeps the record it came from and names its source.
      Each of its three search links, read back by the site it points to,
      searches for exactly the record's title and first author. */
  lemma DecorateKeepsRecord(source: string, d: Doc)
    ensures Decorate(source, d).doc == d && Decorate(source, d).searchSource == source
    ensures EntryKey(Decorate(source, d)) == MergeKey(d)
    ensures DecodeUriComponent(ParameterValue(Decorate(source, d).AmazonSearch(), AmazonPrefix))
         == Some(LinkText(d))
    ensures DecodeUriComponent(ParameterValue(Decorate(source, d).GoodreadsSearch(), GoodreadsPrefix))
         == Some(LinkText(d))
    ensures DecodeUriComponent(ParameterValue(Decorate(source, d).AudibleSearch(), AudiblePrefix))
         == Some(LinkText(d))
  {
    AmazonReadsBack(Decorate(source, d));
    LinkAtEndReadsBack(GoodreadsPrefix, LinkText(d));
    LinkAtEndReadsBack(AudiblePrefix, LinkText(d));
  }

  // ---------------------------------------------------------------------------
  // Specification of the merge

  /** The entries a settled request contributes, before deduplication. */
  function Contribution(r: (string, FetchResult)): seq<Entry> {
    if r.1.Fetched? && r.1.data.docs.Some? then DecorateAll(r.0, r.1.data.docs.value) else []
  }

  /** All entries in the order the loop meets them. */
  function Candidates(settled: seq<(string, FetchResult)>): seq<Entry> {
    if settled == [] then []
    else Candidates(settled[..|settled| - 1]) + Contribution(settled[|settled| - 1])
  }

  /** `data.num_found || 0`. */
  function NumFoundOr0(data: SourceData): int {
    OrZero(data.numFound)
  }

  /** `data.num_found || data.docs?.length || 0`. */
  function FoundCount(data: SourceData): int {
    if TruthyInt(data.numFound) then data.numFound.value
    else if data.docs.Some? then |data.docs.value|
    else 0
  }

  function Max(a: int, b: int): int {
    if a >= b then a else b
  }

  /** `totalFound` after the loop: a running maximum over the fulfilled results, from 0. */
  function MaxFound(settled: seq<(string, FetchResult)>): int {
    if settled == [] then 0
    else
      var last := settled[|settled| - 1];
      var m := MaxFound(settled[..|settled| - 1]);
      if last.1.Fetched? then Max(m, NumFoundOr0(last.1.data)) else m
  }

  function StatusOf(r: FetchResult): Status {
    if r.Fetched? then Succeeded(FoundCount(r.data)) else Errored(SearchFailed)
  }

  // ---------------------------------------------------------------------------
  // The status object: string keys in insertion order

  /** `obj[k] = v`: an existing key keeps its place, a new key goes last. */
  function Put(t: seq<(string, Status)>, k: string, v: Status): seq<(string, Status)> {
    if t == [] then [(k, v)]
    else if t[0].0 == k then [(k, v)] + t[1..]
    else [t[0]] + Put(t[1..], k, v)
  }

  function Lookup(t: seq<(string, Status)>, k: string): Option<Status> {
    if t == [] then None
    else if t[0].0 == k then Some(t[0].1)
    else Lookup(t[1..], k)
  }

  function Keys(t: seq<(string, Status)>): (r: seq<string>)
    ensures |r| == |t| && forall i :: 0 <= i < |t| ==> r[i] == t[i].0
  {
    seq(|t|, i requires 0 <= i < |t| => t[i].0)
  }

  /** The status object as the loop builds it, each result recorded under its own source. */
  function StatusTable(settled: seq<(string, FetchResult)>): seq<(string, Status)> {
    if settled == [] then []
    else
      var last := settled[|settled| - 1];
      Put(StatusTable(settled[..|settled| - 1]), last.0, StatusOf(last.1))
  }

  /** The names in the status object whose status is a success, in key order. */
  function SucceededSources(t: seq<(string, Status)>): seq<string> {
    if t == [] then []
    else (if t[0].1.Succeeded? then [t[0].0] else []) + SucceededSources(t[1..])
  }

  /** The sources whose request was fulfilled, in push order. */
  function FetchedSources(settled: seq<(string, FetchResult)>): seq<string> {
    if settled == [] then []
    else
      FetchedSources(settled[..|settled| - 1])
      + (if settled[|settled| - 1].1.Fetched? then [settled[|settled| - 1].0] else [])
  }

  function SourcesOf(settled: seq<(string, FetchResult)>): (r: seq<string>)
    ensures |r| == |settled| && forall i :: 0 <= i < |r| ==> r[i] == settled[i].0
  {
    seq(|settled|, i requires 0 <= i < |settled| => settled[i].0)
  }

  predicate NoDuplicates(xs: seq<string>) {
    forall i, j :: 0 <= i < j < |xs| ==> xs[i] != xs[j]
  }

  // ---------------------------------------------------------------------------
  // The merge loop

  /** The inner `data.docs.forEach`: appends, decorated, each book whose merge key
      is not yet in the list. */
  method MergeDocs(allBooks: seq<Entry>, ghost seen: seq<Entry>, source: string, docs: seq<Doc>)
    returns (merged: seq<Entry>)
    requires allBooks == Dedup(seen, EntryKey)
    ensures merged == Dedup(seen + DecorateAll(source, docs), EntryKey)
  {
    merged := allBooks;
    var j := 0;
    assert seen + DecorateAll(source, docs[..0]) == seen;
    while j < |docs|
      invariant 0 <= j <= |docs|
      invariant merged == Dedup(seen + DecorateAll(source, docs[..j]), EntryKey)
    {
      var book := docs[j];
      MergeStep(merged, seen, source, docs, j);
      if !HasKey(merged, EntryKey, MergeKey(book)) {
        merged := merged + [Decorate(source, book)];
      }
      j := j + 1;
    }
    assert docs[..|docs|] == docs;
  }

  /** One more book of a source is kept exactly when its merge key is new. */
  lemma MergeStep(merged: seq<Entry>, seen: seq<Entry>, source: string, docs: seq<Doc>, j: nat)
    requires j < |docs| && merged == Dedup(seen + DecorateAll(source, docs[..j]), EntryKey)
    ensures Dedup(seen + DecorateAll(source, docs[..j + 1]), EntryKey)
         == if HasKey(merged, EntryKey, MergeKey(docs[j])) then merged else merged + [Decorate(source, docs[j])]
  {
    var e := Decorate(source, docs[j]);
    DecorateAllStep(source, docs, j);
    assert seen + DecorateAll(source, docs[..j + 1]) == (seen + DecorateAll(source, docs[..j])) + [e];
    DedupStep(seen + DecorateAll(source, docs[..j]), e, EntryKey);
    assert EntryKey(e) == MergeKey(docs[j]);
  }

  /** The body of `results.forEach`: records one settled result's status, raises
      the running maximum of `num_found`, and merges the result's books. */
  method Absorb(allBooks: seq<Entry>, totalFound: int, info: seq<(string, Status)>,
                settled: seq<(string, FetchResult)>, i: nat)
    returns (allBooks': seq<Entry>, totalFound': int, info': seq<(string, Status)>)
    requires i < |settled|
    requires allBooks == Dedup(Candidates(settled[..i]), EntryKey)
    requires totalFound == MaxFound(settled[..i])
    requires info == StatusTable(settled[..i])
    ensures allBooks' == Dedup(Candidates(settled[..i + 1]), EntryKey)
    ensures totalFound' == MaxFound(settled[..i + 1])
    ensures info' == StatusTable(settled[..i + 1])
  {
    var source, result := settled[i].0, settled[i].1;
    SettledStep(settled, i);
    allBooks' := allBooks;
    if result.Fetched? {
      info' := Put(info, source, Succeeded(FoundCount(result.data)));
      totalFound' := Max(totalFound, NumFoundOr0(result.data));
      if result.data.docs.Some? {
        allBooks' := MergeDocs(allBooks, Candidates(settled[..i]), source, result.data.docs.value);
      }
    } else {
      info' := Put(info, source, Errored(SearchFailed));
      totalFound' := totalFound;
    }
  }

  /** Walks the settled results in order and absorbs each one. */
  method Combine(settled: seq<(string, FetchResult)>)
    returns (allBooks: seq<Entry>, totalFound: int, info: seq<(string, Status)>)
    ensures allBooks == Dedup(Candidates(settled), EntryKey)
    ensures JsArray.DistinctBy(allBooks, EntryKey)
    ensures totalFound == MaxFound(settled) && totalFound >= 0
    ensures info == StatusTable(settled)
  {
    allBooks, totalFound, info := [], 0, [];
    var i := 0;
    while i < |settled|
      invariant 0 <= i <= |settled|
      invariant allBooks == Dedup(Candidates(settled[..i]), EntryKey)
      invariant totalFound == MaxFound(settled[..i])
      invariant info == StatusTable(settled[..i])
    {
      allBooks, totalFound, info := Absorb(allBooks, totalFound, info, settled, i);
      i := i + 1;
    }
    assert settled[..|settled|] == settled;
    DedupDistinct(Candidates(settled), EntryKey);
    MaxFoundBounds(settled);
  }

  /** One more settled result extends each running value by one step. */
  lemma SettledStep(settled: seq<(string, FetchResult)>, i: nat)
    requires i < |settled|
    ensures Candidates(settled[..i + 1]) == Candidates(settled[..i]) + Contribution(settled[i])
    ensures Contribution(settled[i]) == [] ==> Candidates(settled[..i + 1]) == Candidates(settled[..i])
    ensures MaxFound(settled[..i + 1]) == if settled[i].1.Fetched?
      then Max(MaxFound(settled[..i]), NumFoundOr0(settled[i].1.data)) else MaxFound(settled[..i])
    ensures StatusTable(settled[..i + 1]) == Put(StatusTable(settled[..i]), settled[i].0, StatusOf(settled[i].1))
  {
    assert settled[..i + 1][..i] == settled[..i];
    assert Candidates(settled[..i]) + [] == Candidates(settled[..i]);
  }

  lemma DecorateAllStep(source: string, docs: seq<Doc>, j: nat)
    requires j < |docs|
    ensures DecorateAll(source, docs[..j + 1]) == DecorateAll(source, docs[..j]) + [Decorate(source, docs[j])]
  {
  }

  lemma CandidatesPair(r1: (string, FetchResult), r2: (string, FetchResult))
    ensures Candidates([r1, r2]) == Contribution(r1) + Contribution(r2)
  {
    var settled := [r1, r2];
    SettledStep(settled, 0);
    SettledStep(settled, 1);
    assert settled[..0] == [] && settled[..2] == settled;
    assert [] + Contribution(r1) == Contribution(r1);
  }

  /** The catalog request is pushed before the Google Books one, so when both
      succeed and return works with the same merge key, the catalog's copy is
      the one that survives. */
  lemma CatalogCopyWinsDuplicates(ol: SourceData, gb: SourceData, e: Entry)
    requires ol.docs.Some? && gb.docs.Some?
    requires e in Dedup(Candidates([(OpenLibrary, Fetched(ol)), (Google, Fetched(gb))]), EntryKey)
    requires exists d | d in ol.docs.value :: MergeKey(d) == EntryKey(e)
    ensures e.searchSource == OpenLibrary
  {
    var a, b := DecorateAll(OpenLibrary, ol.docs.value), DecorateAll(Google, gb.docs.value);
    CandidatesPair((OpenLibrary, Fetched(ol)), (Google, Fetched(gb)));
    var d :| d in ol.docs.value && MergeKey(d) == EntryKey(e);
    var k :| 0 <= k < |ol.docs.value| && ol.docs.value[k] == d;
    assert a[k] in a;
    DedupPrefersEarlier(a, b, EntryKey, e);
    var m :| 0 <= m < |a| && a[m] == e;
  }

  /** `num_found` is the largest count a fulfilled source reported, or 0: never below
      0, never below any source's count, and always one of them when positive. */
  lemma {:induction false} MaxFoundBounds(settled: seq<(string, FetchResult)>)
    ensures MaxFound(settled) >= 0
    ensures forall i :: 0 <= i < |settled| && settled[i].1.Fetched? ==>
      MaxFound(settled) >= NumFoundOr0(settled[i].1.data)
    ensures MaxFound(settled) == 0
      || (exists i :: 0 <= i < |settled| && settled[i].1.Fetched?
                      && MaxFound(settled) == NumFoundOr0(settled[i].1.data))
  {
    if settled != [] {
      var init := settled[..|settled| - 1];
      MaxFoundBounds(init);
      forall i | 0 <= i < |init| ensures settled[i] == init[i] {
      }
    }
  }

  // ---------------------------------------------------------------------------
  // Properties of the status object

  lemma {:induction false} PutLookup(t: seq<(string, Status)>, k: string, v: Status, k': string)
    ensures Lookup(Put(t, k, v), k') == if k' == k then Some(v) else Lookup(t, k')
  {
    if t != [] && t[0].0 != k {
      PutLookup(t[1..], k, v, k');
    }
  }

  lemma {:induction false} PutSucceeded(t: seq<(string, Status)>, k: string, v: Status)
    requires k !in Keys(t)
    ensures SucceededSources(Put(t, k, v)) == SucceededSources(t) + (if v.Succeeded? then [k] else [])
    ensures Keys(Put(t, k, v)) == Keys(t) + [k]
  {
    if t != [] {
      KeysCons(t[0], t[1..]);
      assert [t[0]] + t[1..] == t;
      assert k != t[0].0;
      PutSucceeded(t[1..], k, v);
      KeysCons(t[0], Put(t[1..], k, v));
    }
  }

  lemma KeysCons(x: (string, Status), p: seq<(string, Status)>)
    ensures Keys([x] + p) == [x.0] + Keys(p)
  {
  }

  /** When the issued sources are distinct, the status object has exactly one key
      per source, in push order, and maps each source to the outcome of its own request. */
  lemma {:induction false} StatusTableCorrect(settled: seq<(string, FetchResult)>)
    requires NoDuplicates(SourcesOf(settled))
    ensures Keys(StatusTable(settled)) == SourcesOf(settled)
    ensures SucceededSources(StatusTable(settled)) == FetchedSources(settled)
    ensures forall i :: 0 <= i < |settled| ==>
      Lookup(StatusTable(settled), settled[i].0) == Some(StatusOf(settled[i].1))
  {
    if settled != [] {
      var init := settled[..|settled| - 1];
      var last := settled[|settled| - 1];
      assert SourcesOf(init) == SourcesOf(settled)[..|settled| - 1];
      StatusTableCorrect(init);
      assert last.0 !in Keys(StatusTable(init)) by {
        forall i | 0 <= i < |init| ensures init[i].0 != last.0 {
          assert SourcesOf(settled)[i] != SourcesOf(settled)[|settled| - 1];
        }
      }
      PutSucceeded(StatusTable(init), last.0, StatusOf(last.1));
      forall i | 0 <= i < |settled|
        ensures Lookup(StatusTable(settled), settled[i].0) == Some(StatusOf(settled[i].1))
      {
        PutLookup(StatusTable(init), last.0, StatusOf(last.1), settled[i].0);
        if i < |settled| - 1 {
          assert settled[i] == init[i];
          assert SourcesOf(settled)[i] != SourcesOf(settled)[|settled| - 1];
        }
      }
    }
  }

  /** One failed source never hides the other: with the catalog failing and
      Google Books fulfilled, Google Books is reported as a success and only the
      catalog as an error. */
  lemma OneFailureIsIsolated(gb: SourceData, reason: string)
    ensures var settled := [(OpenLibrary, FetchFailed(reason)), (Google, Fetched(gb))];
      && Lookup(StatusTable(settled), OpenLibrary) == Some(Errored(SearchFailed))
      && Lookup(StatusTable(settled), Google) == Some(Succeeded(FoundCount(gb)))
      && SucceededSources(StatusTable(settled)) == [Google]
  {
    var settled := [(OpenLibrary, FetchFailed(reason)), (Google, Fetched(gb))];
    assert OpenLibrary != Google by {
      assert OpenLibrary[0] != Google[0];
    }
    StatusTablePair(settled[0], settled[1]);
    var t := StatusTable(settled);
    assert t[1..] == [(Google, Succeeded(FoundCount(gb)))] && t[1..][1..] == [];
    assert SucceededSources(t[1..]) == [Google] + SucceededSources([]);
    assert SucceededSources(t) == [] + SucceededSources(t[1..]);
  }

  // ---------------------------------------------------------------------------
  // Ranking: the comparator given to the stable `Array.prototype.sort`

  /** `sourceWeight[search_source] || 0`. */
  function Weight(e: Entry): int {
    if e.searchSource == Google then 2 else if e.searchSource == OpenLibrary then 1 else 0
  }

  /** `ratings_count || average_rating || 0`. */
  function Popularity(e: Entry): int {
    if TruthyInt(e.doc.ratingsCount) then e.doc.ratingsCount.value
    else if TruthyInt(e.doc.averageRating) then e.doc.averageRating.value
    else 0
  }

  /** The comparator orders by weight, then popularity, both decreasing. */
  function RelevanceRank(e: Entry): (int, int) {
    (Weight(e), Popularity(e))
  }

  function SortByRelevance(s: seq<Entry>): seq<Entry> {
    JsArray.StableSort(s, RelevanceRank)
  }

  /** After ranking, Google Books entries come first, then catalog entries, then
      any other; within one weight, popularity never increases; entries of equal
      weight and popularity keep their merge order; nothing is added or lost. */
  lemma RankedOrder(s: seq<Entry>)
    ensures var r := SortByRelevance(s);
      && multiset(r) == multiset(s)
      && (forall i, j :: 0 <= i < j < |r| ==>
            Weight(r[i]) >= Weight(r[j])
            && (Weight(r[i]) == Weight(r[j]) ==> Popularity(r[i]) >= Popularity(r[j])))
      && (forall w, p :: JsArray.OfRank(r, RelevanceRank, (w, p)) == JsArray.OfRank(s, RelevanceRank, (w, p)))
  {
    JsArray.StableSortRanked(s, RelevanceRank);
    JsArray.StableSortPermutes(s, RelevanceRank);
    forall w, p ensures JsArray.OfRank(SortByRelevance(s), RelevanceRank, (w, p))
                        == JsArray.OfRank(s, RelevanceRank, (w, p)) {
      JsArray.StableSortStable(s, RelevanceRank, (w, p));
    }
  }

  // ---------------------------------------------------------------------------
  // The response

  /** The summary message: a fixed text when nothing was found, otherwise the
      count and the sources that succeeded, joined with ` + `. */
  function Message(allBooks: seq<Entry>, info: seq<(string, Status)>): string {
    if |allBooks| == 0 then NoResultsMessage
    else "Found " + IntToString(|allBooks|) + " books from " + Join(SucceededSources(info), " + ")
  }

  /** The handler: method and query checks, then the fan-out, the merge and the ranking. */
  method MultiSearch(req: Request, fetch: Outbound -> FetchResult) returns (resp: Response)
    ensures req.verb == "OPTIONS" ==> resp == Preflight
    ensures req.verb != "OPTIONS" && req.verb != "GET" ==> resp == Failure(405, "Method not allowed")
    ensures req.verb == "GET" && !TruthyStr(req.q) ==> resp == Failure(400, "Search query is required")
    ensures req.verb == "GET" && TruthyStr(req.q) ==>
      var limit, offset := req.limit.GetOr("20"), req.offset.GetOr("0");
      var queried := Queried(RequestedSources(req.sources.GetOr("all")));
      var settled := Settle(queried, req.q.value, limit, offset, fetch);
      && resp.Success?
      && resp.body.numFound == MaxFound(settled)
      && resp.body.start == ParseIntOrZero(offset)
      && resp.body.docs == SortByRelevance(Dedup(Candidates(settled), EntryKey))
      && resp.body.sources == StatusTable(settled)
      && resp.body.searchQuery == req.q.value
      && resp.body.message == Message(resp.body.docs, resp.body.sources)
    ensures resp.Success? ==>
      && JsArray.DistinctBy(resp.body.docs, EntryKey)
      && JsArray.Ranked(resp.body.docs, RelevanceRank)
      && resp.body.numFound >= 0
  {
    if req.verb == "OPTIONS" {
      return Preflight;
    }
    if req.verb != "GET" {
      return Failure(405, "Method not allowed");
    }
    if !TruthyStr(req.q) {
      return Failure(400, "Search query is required");
    }
    var q := req.q.value;
    var limit, offset := req.limit.GetOr("20"), req.offset.GetOr("0");
    var queried := Queried(RequestedSources(req.sources.GetOr("all")));
    var settled := Settle(queried, q, limit, offset, fetch);
    var allBooks, totalFound, info := Combine(settled);
    JsArray.StableSortDistinct(allBooks, RelevanceRank, EntryKey);
    JsArray.StableSortRanked(allBooks, RelevanceRank);
    allBooks := SortByRelevance(allBooks);
    resp := Success(Envelope(totalFound, ParseIntOrZero(offset), allBooks, info, q, Message(allBooks, info)));
  }

  /** With no query-selected sources (`sources` names neither), nothing is
      fetched: the list is empty, `num_found` is 0 and the fixed no-results message is sent. */
  lemma NoSourceNoResults(sources: string, fetch: Outbound -> FetchResult, q: string)
    requires sources != "all" && OpenLibrary !in Split(sources, ',') && Google !in Split(sources, ',')
    ensures var settled := Settle(Queried(RequestedSources(sources)), q, "20", "0", fetch);
      && settled == []
      && MaxFound(settled) == 0
      && Message(SortByRelevance(Dedup(Candidates(settled), EntryKey)), StatusTable(settled)) == NoResultsMessage
  {
  }

  // ---------------------------------------------------------------------------
  // The status object as the source writes it

  /** The key the source uses for a failed result: `searchSources[index] || 'unknown'`,
      where `index` counts issued requests, not requested names. */
  function FailureKeyAsWritten(requested: seq<string>, index: nat): string {
    if index < |requested| && requested[index] != "" then requested[index] else "unknown"
  }

  function StatusTableAsWritten(settled: seq<(string, FetchResult)>, requested: seq<string>)
    : seq<(string, Status)>
  {
    if settled == [] then []
    else
      var n := |settled| - 1;
      var key := if settled[n].1.Fetched? then settled[n].0 else FailureKeyAsWritten(requested, n);
      Put(StatusTableAsWritten(settled[..n], requested), key, StatusOf(settled[n].1))
  }

  /** Whenever the requested names line up with the issued requests, as they do
      for `sources=all`, the source's keying agrees with keying by the result's own source. */
  lemma {:induction false} AsWrittenAgreesWhenAligned(settled: seq<(string, FetchResult)>, requested: seq<string>)
    requires |settled| <= |requested|
    requires forall i :: 0 <= i < |settled| ==> requested[i] == settled[i].0 && requested[i] != ""
    ensures StatusTableAsWritten(settled, requested) == StatusTable(settled)
  {
    if settled != [] {
      AsWrittenAgreesWhenAligned(settled[..|settled| - 1], requested);
    }
  }

  /** When every requested name is issued, in the order requested (as for the
      default `sources=all`), the handler's status object is exactly the one
      the source's keying builds. */
  lemma HandlerKeyingAgreesWhenAligned(sources: string, q: string, limit: string, offset: string,
                                       fetch: Outbound -> FetchResult)
    requires sources == "all" || Queried(RequestedSources(sources)) == RequestedSources(sources)
    ensures var requested := RequestedSources(sources);
      var settled := Settle(Queried(requested), q, limit, offset, fetch);
      StatusTableAsWritten(settled, requested) == StatusTable(settled)
  {
    var requested := RequestedSources(sources);
    if sources == "all" {
      assert requested == [OpenLibrary, Google];
      assert Queried(requested) == [OpenLibrary] + [Google];
    }
    var settled := Settle(Queried(requested), q, limit, offset, fetch);
    assert |settled| <= |requested|;
    forall i | 0 <= i < |settled|
      ensures requested[i] == settled[i].0 && requested[i] != ""
    {
      assert settled[i].0 == Queried(requested)[i];
      assert Queried(requested)[i] in Queried(requested);
    }
    AsWrittenAgreesWhenAligned(settled, requested);
  }

  lemma AsWrittenPair(r1: (string, FetchResult), r2: (string, FetchResult), requested: seq<string>)
    ensures StatusTableAsWritten([r1, r2], requested)
         == Put(Put([], if r1.1.Fetched? then r1.0 else FailureKeyAsWritten(requested, 0), StatusOf(r1.1)),
                if r2.1.Fetched? then r2.0 else FailureKeyAsWritten(requested, 1), StatusOf(r2.1))
  {
    var settled := [r1, r2];
    var k1 := if r1.1.Fetched? then r1.0 else FailureKeyAsWritten(requested, 0);
    assert settled[..1] == [r1] && [r1][..0] == [];
    assert StatusTableAsWritten([r1], requested) == Put([], k1, StatusOf(r1.1));
  }

  /** `sources=google,openlibrary` names Google Books first. */
  lemma RequestedGoogleFirst()
    ensures RequestedSources("google,openlibrary") == [Google, OpenLibrary]
  {
    assert "google,openlibrary" == "google" + [','] + "openlibrary";
    SplitPair("google", "openlibrary", ',');
  }

  /** With `sources=google,openlibrary`, the catalog fulfilled and Google Books
      failing, the requests are still pushed catalog first. */
  lemma MislabelSettled(d: SourceData, reason: string)
    ensures Settle(Queried(RequestedSources("google,openlibrary")), "q", "20", "0",
                   (o: Outbound) => if o.source == OpenLibrary then Fetched(d) else FetchFailed(reason))
         == [(OpenLibrary, Fetched(d)), (Google, FetchFailed(reason))]
  {
    RequestedGoogleFirst();
    assert Queried([Google, OpenLibrary]) == [OpenLibrary, Google];
    var fetch := (o: Outbound) => if o.source == OpenLibrary then Fetched(d) else FetchFailed(reason);
    SettlePair(OpenLibrary, Google, "q", "20", "0", fetch);
    assert OpenLibrary != Google by {
      assert OpenLibrary[0] != Google[0];
    }
  }

  lemma SettlePair(a: string, b: string, q: string, limit: string, offset: string,
                   fetch: Outbound -> FetchResult)
    ensures Settle([a, b], q, limit, offset, fetch)
         == [(a, fetch(Outbound(a, q, limit, offset))), (b, fetch(Outbound(b, q, limit, offset)))]
  {
  }

  /** In that situation the source records the Google failure under
      `openlibrary`, overwriting the catalog's success, and never mentions
      `google`; keying by each result's own source reports both correctly. */
  lemma StatusAsWrittenMislabels(d: SourceData, reason: string)
    ensures var requested := RequestedSources("google,openlibrary");
      var settled := [(OpenLibrary, Fetched(d)), (Google, FetchFailed(reason))];
      && Lookup(StatusTableAsWritten(settled, requested), OpenLibrary) == Some(Errored(SearchFailed))
      && Lookup(StatusTableAsWritten(settled, requested), Google) == None
      && SucceededSources(StatusTableAsWritten(settled, requested)) == []
      && Lookup(StatusTable(settled), OpenLibrary) == Some(Succeeded(FoundCount(d)))
      && Lookup(StatusTable(settled), Google) == Some(Errored(SearchFailed))
  {
    var requested := RequestedSources("google,openlibrary");
    RequestedGoogleFirst();
    assert OpenLibrary != Google by {
      assert OpenLibrary[0] != Google[0];
    }
    var settled := [(OpenLibrary, Fetched(d)), (Google, FetchFailed(reason))];
    AsWrittenPair(settled[0], settled[1], requested);
    assert FailureKeyAsWritten(requested, 1) == OpenLibrary;
    assert StatusTableAsWritten(settled, requested) == [(OpenLibrary, Errored(SearchFailed))];
    StatusTablePair(settled[0], settled[1]);
  }

  /** Two results under distinct names give a two-key status object in push order. */
  lemma StatusTablePair(r1: (string, FetchResult), r2: (string, FetchResult))
    requires r1.0 != r2.0
    ensures StatusTable([r1, r2]) == [(r1.0, StatusOf(r1.1)), (r2.0, StatusOf(r2.1))]
  {
    var settled := [r1, r2];
    SettledStep(settled, 0);
    SettledStep(settled, 1);
    assert settled[..0] == [] && settled[..2] == settled;
  }
}
