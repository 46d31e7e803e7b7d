/** The endpoint that looks for book mentions in a short-video page: it checks
    the link, fetches the page, runs the book-mention patterns over the page's
    title and description, keeps the plausible titles once each, and answers
    with up to five of them, or with search-term suggestions when none is found.

    The page fetch (`fetch`, None when it throws), the title and description
    extraction from the page (`meta`) and the pattern matcher (`scan`, the
    captures of the five patterns over the text, pattern by pattern, each in
    match order) are parameters. */
module VideoExtract {
  import opened JsText
  import opened JsArray

  // ---------------------------------------------------------------------------
  // Data

  /** One pattern match: capture groups 1 and 2, None when a group did not take part. */
  datatype Capture = Capture(group1: Option<string>, group2: Option<string>)

  datatype Candidate = Candidate(title: string, author: Option<string>, confidence: string)

  /** The page title and meta description, None when the page has none. */
  datatype Meta = Meta(title: Option<string>, description: Option<string>)

  /** A request: the method and the `url` field of the body. */
  datatype Request = Request(verb: string, url: Option<string>)

  datatype Response =
    | Preflight
    | Failure(status: int, error: string)
    | Books(books: seq<Candidate>, url: string, message: string)
    | Suggestions(suggestions: seq<string>, message: string)

  const MaxBooks := 5
  const MaxSuggestions := 3
  const CommonTerms := ["book", "read", "author", "novel", "series", "romance", "fantasy", "mystery"]
  const FallbackTerms := ["book recommendations", "book review", "book haul"]
  const NoBooksMessage := "No specific books found, but try these search terms based on the video content!"
  const FallbackMessage :=
    "Couldn't parse the TikTok automatically. Try searching for 'book recommendations' or describe what you saw in the video!"

  // ---------------------------------------------------------------------------
  // The link check

  const Schemes := ["", "http://", "https://"]
  const Subdomains := ["", "www."]
  const Hosts := ["tiktok.com", "vm.tiktok.com"]

  /** The link pattern matches at position `i`: an optional scheme, an optional
      `www.` and one of the two host names, letters compared without case. */
  predicate LinkPatternAt(s: string, i: nat) {
    exists scheme, sub, host | scheme in Schemes && sub in Subdomains && host in Hosts ::
      OccursAt(Lower(s), scheme + sub + host, i)
  }

  /** The unanchored, case-insensitive link pattern finds a match somewhere in `s`. */
  predicate LinkPatternMatches(s: string) {
    exists i: nat | i <= |s| :: LinkPatternAt(s, i)
  }

  /** A match of a word ending in `t` holds an occurrence of `t`. */
  lemma OccursAtSuffix(l: string, w: string, t: string, i: nat)
    requires OccursAt(l, w, i) && |t| <= |w| && w[|w| - |t|..] == t
    ensures OccursAt(l, t, i + |w| - |t|)
  {
  }

  lemma HostEndsInDomain(host: string)
    requires host in Hosts
    ensures |host| >= 10 && host[|host| - 10..] == "tiktok.com"
  {
  }

  /** A match of the link pattern holds `tiktok.com`. */
  lemma LinkPatternHasDomain(s: string)
    requires LinkPatternMatches(s)
    ensures Contains(Lower(s), "tiktok.com")
  {
    var l := Lower(s);
    var i: nat :| i <= |s| && LinkPatternAt(s, i);
    var scheme, sub, host :| scheme in Schemes && sub in Subdomains && host in Hosts
      && OccursAt(l, scheme + sub + host, i);
    var w := scheme + sub + host;
    HostEndsInDomain(host);
    assert w[|w| - 10..] == host[|host| - 10..];
    OccursAtSuffix(l, w, "tiktok.com", i);
  }

  /** The link pattern matches exactly when the lower-cased link contains `tiktok.com`:
      every alternative ends in it, and the optional parts may all be empty. */
  lemma LinkPatternIsContains(s: string)
    ensures LinkPatternMatches(s) <==> Contains(Lower(s), "tiktok.com")
  {
    var l := Lower(s);
    if LinkPatternMatches(s) {
      LinkPatternHasDomain(s);
    }
    if Contains(l, "tiktok.com") {
      var i: nat :| i <= |l| && OccursAt(l, "tiktok.com", i);
      assert "" + "" + "tiktok.com" == "tiktok.com";
      assert LinkPatternAt(s, i);
    }
  }

  // ---------------------------------------------------------------------------
  // Text scanned and candidates

  /** The title and the description, the present non-empty ones, joined with a space. */
  function Content(m: Meta): string {
    var parts := (if TruthyStr(m.title) then [m.title.value] else [])
               + (if TruthyStr(m.description) then [m.description.value] else []);
    Join(parts, " ")
  }

  /** The scanned text is the title and the description separated by one space
      when both are present, the one present otherwise, and empty with neither. */
  lemma ContentCases(m: Meta)
    ensures TruthyStr(m.title) && TruthyStr(m.description) ==>
      Content(m) == m.title.value + " " + m.description.value
    ensures TruthyStr(m.title) && !TruthyStr(m.description) ==> Content(m) == m.title.value
    ensures !TruthyStr(m.title) && TruthyStr(m.description) ==> Content(m) == m.description.value
    ensures !TruthyStr(m.title) && !TruthyStr(m.description) ==> Content(m) == ""
  {
    if TruthyStr(m.title) && TruthyStr(m.description) {
      var parts := [m.title.value, m.description.value];
      assert Join(parts[1..], " ") == m.description.value;
    }
  }

  /** The candidate one match yields before duplicate removal: the trimmed title
      when it is longer than 3 and shorter than 100 code units, with the trimmed
      author when that is non-empty. */
  function Admit(c: Capture): Option<Candidate> {
    if c.group1.None? then None
    else
      var title := Trim(c.group1.value);
      if title != "" && 3 < Utf16Length(title) < 100 then
        var author := if c.group2.Some? && Trim(c.group2.value) != "" then Some(Trim(c.group2.value)) else None;
        Some(Candidate(title, author, if author.Some? then "high" else "medium"))
      else None
  }

  /** The admitted candidates, in match order. */
  function Kept(caps: seq<Capture>): seq<Candidate> {
    Collect(caps, Admit)
  }

  /** The key of the seen-set: the lower-cased title. */
  function TitleKey(c: Candidate): string {
    Lower(c.title)
  }

  /** The extracted list: the first admitted candidate of each lower-cased title. */
  function Extracted(caps: seq<Capture>): seq<Candidate> {
    Dedup(Kept(caps), TitleKey)
  }

  /** The candidate loop over all matches, with the seen-set of lower-cased titles. */
  method ExtractCandidates(caps: seq<Capture>) returns (extracted: seq<Candidate>)
    ensures extracted == Extracted(caps)
  {
    extracted := [];
    var seen: set<string> := {};
    var i := 0;
    while i < |caps|
      invariant 0 <= i <= |caps|
      invariant extracted == Dedup(Kept(caps[..i]), TitleKey)
      invariant seen == KeySet(extracted, TitleKey)
    {
      CollectStep(caps, i, Admit);
      var admitted := Admit(caps[i]);
      if admitted.Some? {
        var candidate := admitted.value;
        DedupStep(Kept(caps[..i]), candidate, TitleKey);
        var bookKey := Lower(candidate.title);
        KeySetHasKey(extracted, TitleKey, bookKey);
        if bookKey !in seen {
          KeySetAppend(extracted, candidate, TitleKey);
          seen := seen + {bookKey};
          extracted := extracted + [candidate];
        }
      } else {
        assert Kept(caps[..i]) + [] == Kept(caps[..i]);
      }
      i := i + 1;
    }
    assert caps[..|caps|] == caps;
  }

  // ---------------------------------------------------------------------------
  // Properties of the extraction

  /** A candidate as the filter admits it: a trimmed title strictly between 3
      and 100 code units long, `high` confidence exactly when there is an
      author, `medium` otherwise, and a non-empty author when there is one. */
  predicate Plausible(e: Candidate) {
    3 < Utf16Length(e.title) < 100 && Trim(e.title) == e.title
    && (e.confidence == "high" <==> e.author.Some?)
    && (e.confidence == "high" || e.confidence == "medium")
    && (e.author.Some? ==> e.author.value != "")
  }

  /** The filter admits a match exactly when its trimmed title capture has a
      UTF-16 length strictly between 3 and 100; the admitted title is that
      trimmed capture, the confidence is `high` exactly when a non-empty
      author was captured, an author kept is the trimmed capture, and every
      admitted candidate is plausible. */
  lemma AdmitPlausible(c: Capture)
    ensures Admit(c).Some? <==> c.group1.Some? && 3 < Utf16Length(Trim(c.group1.value)) < 100
    ensures Admit(c).Some? ==> Admit(c).value.title == Trim(c.group1.value)
    ensures Admit(c).Some? ==>
      (Admit(c).value.confidence == "high" <==> c.group2.Some? && Trim(c.group2.value) != "")
    ensures Admit(c).Some? && Admit(c).value.author.Some? ==>
      Admit(c).value.author == Some(Trim(c.group2.value))
    ensures Admit(c).Some? ==> Plausible(Admit(c).value)
  {
  }

  /** The extracted candidates are plausible, no two share a lower-cased title,
      and every lower-cased title some match admits is represented. */
  lemma ExtractedShape(caps: seq<Capture>)
    ensures DistinctBy(Extracted(caps), TitleKey)
    ensures forall e :: e in Extracted(caps) ==> Plausible(e)
    ensures forall e :: e in Kept(caps) ==> HasKey(Extracted(caps), TitleKey, TitleKey(e))
  {
    DedupDistinct(Kept(caps), TitleKey);
    DedupSubset(Kept(caps), TitleKey);
    CollectMembers(caps, Admit);
    forall e | e in Extracted(caps)
      ensures Plausible(e)
    {
      var k :| 0 <= k < |caps| && Admit(caps[k]) == Some(e);
      AdmitPlausible(caps[k]);
    }
    forall e | e in Kept(caps)
      ensures HasKey(Extracted(caps), TitleKey, TitleKey(e))
    {
      DedupKeys(Kept(caps), TitleKey, TitleKey(e));
    }
  }

  /** First match wins: each extracted candidate is admitted by a match before
      which the matches admit no candidate with the same lower-cased title. */
  lemma ExtractedFirstSeen(caps: seq<Capture>, e: Candidate)
    requires e in Extracted(caps)
    ensures exists k :: 0 <= k < |caps| && Admit(caps[k]) == Some(e) && !HasKey(Kept(caps[..k]), TitleKey, TitleKey(e))
  {
    DedupFirstSeen(Kept(caps), TitleKey, e);
    var i :| 0 <= i < |Kept(caps)| && Kept(caps)[i] == e && !HasKey(Kept(caps)[..i], TitleKey, TitleKey(e));
    CollectPosition(caps, Admit, i);
  }

  // ---------------------------------------------------------------------------
  // Suggestions and the reply

  /** The terms of `terms` that occur in `l`, in list order. */
  function FoundTerms(terms: seq<string>, l: string): (r: seq<string>)
    ensures |r| <= |terms|
  {
    if terms == [] then []
    else (if Contains(l, terms[0]) then [terms[0]] else []) + FoundTerms(terms[1..], l)
  }

  /** A term is found exactly when it is in the list and occurs in the text. */
  lemma {:induction false} FoundTermsMembers(terms: seq<string>, l: string)
    ensures forall t :: t in FoundTerms(terms, l) <==> t in terms && Contains(l, t)
  {
    if terms != [] {
      FoundTermsMembers(terms[1..], l);
      assert terms == [terms[0]] + terms[1..];
    }
  }

  /** The common terms found in the lower-cased text, at most three. */
  function Suggest(content: string): seq<string> {
    var found := FoundTerms(CommonTerms, Lower(content));
    if |found| <= MaxSuggestions then found else found[..MaxSuggestions]
  }

  /** Suggestions are at most three common terms, each occurring in the
      lower-cased text, the first three found in list order; with fewer than
      four found, every common term in the text is suggested. */
  lemma SuggestShape(content: string)
    ensures |Suggest(content)| <= MaxSuggestions
    ensures forall t :: t in Suggest(content) ==> t in CommonTerms && Contains(Lower(content), t)
    ensures Suggest(content) == FoundTerms(CommonTerms, Lower(content))[..|Suggest(content)|]
    ensures |FoundTerms(CommonTerms, Lower(content))| <= MaxSuggestions ==>
      forall t :: t in CommonTerms && Contains(Lower(content), t) ==> t in Suggest(content)
  {
    FoundTermsMembers(CommonTerms, Lower(content));
  }

  /** `Found N potential book(s) from this TikTok!`, with `s` unless N is 1. */
  function FoundMessage(n: nat): string {
    "Found " + NatToString(n) + " potential book" + (if n != 1 then "s" else "") + " from this TikTok!"
  }

  /** Method and link checks, then the fetch, the candidate loop and the reply. */
  method ExtractBooks(req: Request, fetch: string -> Option<string>, meta: string -> Meta,
                      scan: string -> seq<Capture>) returns (resp: Response)
    ensures req.verb == "OPTIONS" ==> resp == Preflight
    ensures req.verb != "OPTIONS" && req.verb != "POST" ==> resp == Failure(405, "Method not allowed")
    ensures req.verb == "POST" && !TruthyStr(req.url) ==> resp == Failure(400, "TikTok URL is required")
    ensures req.verb == "POST" && TruthyStr(req.url) && !Contains(Lower(req.url.value), "tiktok.com") ==>
      resp == Failure(400, "Please provide a valid TikTok URL")
    ensures req.verb == "POST" && TruthyStr(req.url) && Contains(Lower(req.url.value), "tiktok.com") ==>
      var url := req.url.value;
      resp == match fetch(url)
        case None => Suggestions(FallbackTerms, FallbackMessage)
        case Some(html) =>
          var content := Content(meta(html));
          var found := Extracted(scan(content));
          if found == [] then Suggestions(Suggest(content), NoBooksMessage)
          else Books(found[..if |found| <= MaxBooks then |found| else MaxBooks], url, FoundMessage(|found|))
  {
    if req.verb == "OPTIONS" {
      return Preflight;
    }
    if req.verb != "POST" {
      return Failure(405, "Method not allowed");
    }
    if !TruthyStr(req.url) {
      return Failure(400, "TikTok URL is required");
    }
    var url := req.url.value;
    LinkPatternIsContains(url);
    if !LinkPatternMatches(url) {
      return Failure(400, "Please provide a valid TikTok URL");
    }
    var page := fetch(url);
    if page.None? {
      return Suggestions(FallbackTerms, FallbackMessage);
    }
    var content := Content(meta(page.value));
    var extractedBooks := ExtractCandidates(scan(content));
    if |extractedBooks| == 0 {
      return Suggestions(Suggest(content), NoBooksMessage);
    }
    var shown := if |extractedBooks| <= MaxBooks then extractedBooks else extractedBooks[..MaxBooks];
    assert shown == extractedBooks[..if |extractedBooks| <= MaxBooks then |extractedBooks| else MaxBooks];
    resp := Books(shown, url, FoundMessage(|extractedBooks|));
  }
}
