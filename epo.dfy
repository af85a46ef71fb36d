/**
  The EPO Open Patent Services client's local logic: the key check, the CQL
  query, the choice of a publication's document reference, the record built
  from it, and the English title/abstract/applicant picked from the
  bibliographic details.

  Every HTTP exchange is an input: the token exchange yields the token or
  `None`, and the search and each details lookup yield an `HttpReply` whose
  body is the already-decoded JSON, navigated to the keys the client reads.
  A JSON value that may be an object or a list of objects is a `OneOrMany`.
*/
module Epo {
  import opened Wrappers
  import opened Text
  import opened QueryExpander

  // ---------------------------------------------------------------------------
  // Shared shapes

  /** A JSON value that is either one object or a list of them. */
  datatype OneOrMany<T> = One(item: T) | Many(items: seq<T>)

  /** `if isinstance(x, dict): x = [x]`, with a missing key read as []. */
  function AsList<T>(x: Option<OneOrMany<T>>): (r: seq<T>)
    ensures x.None? ==> r == []
    ensures x.Some? && x.value.One? ==> r == [x.value.item]
    ensures x.Some? && x.value.Many? ==> r == x.value.items
  {
    match x
    case None => []
    case Some(One(item)) => [item]
    case Some(Many(items)) => items
  }

  /** The first index whose element satisfies `p`. */
  function FirstWhere<T>(s: seq<T>, p: T -> bool): (r: Option<nat>)
    ensures r.Some? ==> r.value < |s| && p(s[r.value]) && forall k :: 0 <= k < r.value ==> !p(s[k])
    ensures r.None? ==> forall k :: 0 <= k < |s| ==> !p(s[k])
  {
    if |s| == 0 then None
    else if p(s[0]) then Some(0)
    else match FirstWhere(s[1..], p)
      case None => None
      case Some(k) => Some(k + 1)
  }

  // ---------------------------------------------------------------------------
  // Credentials and query

  /** `_get_access_token`'s guard: both keys set and the key not the template placeholder. */
  predicate ValidKeys(key: Option<string>, secret: Option<string>)
  {
    && key.Some? && key.value != ""
    && secret.Some? && secret.value != ""
    && !Contains(key.value, "YOUR_EPO_KEY")
  }

  /** The CQL query: a boolean query passes through, anything else is a title phrase search. */
  function CqlQuery(keyword: string): (q: string)
    ensures q == keyword || q == "ti=\"" + keyword + "\""
    ensures Contains(keyword, " AND ") || Contains(keyword, " OR ") <==> q == keyword
  {
    if Contains(keyword, " AND ") || Contains(keyword, " OR ") then keyword
    else
      var titleQuery := "ti=\"" + keyword + "\"";
      assert |titleQuery| == |keyword| + 5;
      titleQuery
  }

  /** An AND rendering of two or more quoted keywords is sent to the service unchanged. */
  lemma CqlOfRenderedAnd(ks: seq<string>)
    requires |ks| >= 2
    ensures CqlQuery(JoinQuoted(ks, " AND ")) == JoinQuoted(ks, " AND ")
  {
    var q0 := Quote(ks[0]);
    var query := q0 + " AND " + JoinQuoted(ks[1..], " AND ");
    assert query[|q0|..|q0| + 5] == " AND ";
    ContainsAt(query, " AND ", |q0|);
  }

  // ---------------------------------------------------------------------------
  // Publication references

  /**
    One `document-id` object; each field is the `$` text of the key of that
    name, `None` when the key or its `$` is absent.
  */
  datatype DocId = DocId(
    idType: Option<string>, docNumber: Option<string>, kind: Option<string>,
    country: Option<string>, date: Option<string>)

  /** A `document-id` object with none of the keys read: an empty (falsy) dict. */
  predicate EmptyRef(d: DocId)
  {
    d.idType.None? && d.docNumber.None? && d.kind.None? && d.country.None? && d.date.None?
  }

  predicate IsDocdb(d: DocId)
  {
    d.idType == Some("docdb")
  }

  /** The reference used: the first docdb entry, else a non-empty first entry, else none. */
  function ChosenReference(refs: seq<DocId>): (r: Option<DocId>)
    ensures r.Some? ==> r.value in refs && !EmptyRef(r.value)
    ensures (exists k :: 0 <= k < |refs| && IsDocdb(refs[k])) ==> r.Some? && IsDocdb(r.value)
    ensures r.None? <==> (forall k :: 0 <= k < |refs| ==> !IsDocdb(refs[k])) && (|refs| == 0 || EmptyRef(refs[0]))
  {
    match FirstWhere(refs, IsDocdb)
    case Some(i) => Some(refs[i])
    case None => if |refs| > 0 && !EmptyRef(refs[0]) then Some(refs[0]) else None
  }

  /** The search loop with `break` over the `document-id` list, and its fallback. */
  method ChooseReference(refs: seq<DocId>) returns (chosen: Option<DocId>)
    ensures chosen == ChosenReference(refs)
  {
    var docdb: Option<DocId> := None;
    var i := 0;
    while i < |refs|
      invariant 0 <= i <= |refs|
      invariant docdb.None?
      invariant forall k :: 0 <= k < i ==> !IsDocdb(refs[k])
    {
      if refs[i].idType == Some("docdb") {
        docdb := Some(refs[i]);
        break;
      }
      i := i + 1;
    }
    if docdb.None? && |refs| > 0 {
      docdb := Some(refs[0]);
    }
    if docdb.None? || EmptyRef(docdb.value) {
      return None;
    }
    chosen := docdb;
  }

  function Country(d: DocId): string { d.country.GetOr("EP") }
  function Number(d: DocId): string { d.docNumber.GetOr("Unknown") }
  function Kind(d: DocId): string { d.kind.GetOr("") }

  /** `f"{country}.{doc_number}.{kind}"`. */
  function FullId(country: string, number: string, kind: string): string
  {
    country + "." + number + "." + kind
  }

  /** The id splits back into its three parts when none of them contains a dot. */
  lemma FullIdParts(country: string, number: string, kind: string)
    requires '.' !in country && '.' !in number && '.' !in kind
    ensures Split(FullId(country, number, kind), ".") == [country, number, kind]
  {
    assert FullId(country, number, kind) == country + ['.'] + (number + ['.'] + kind);
    SplitCharHead(country, '.', number + ['.'] + kind);
    SplitCharHead(number, '.', kind);
    SplitCharAbsent(kind, '.');
  }

  /** The Espacenet page of a publication. */
  function Url(country: string, number: string, kind: string): string
  {
    "https://worldwide.espacenet.com/publicationDetails/biblio?CC=" + country + "&NR=" + number + "&KC=" + kind
  }

  // ---------------------------------------------------------------------------
  // _fetch_patent_details

  datatype TitleEntry = TitleEntry(lang: Option<string>, text: Option<string>)

  /** An `abstract` object: its language and its `p` value (one paragraph object or a list). */
  datatype AbstractEntry = AbstractEntry(lang: Option<string>, paragraphs: Option<OneOrMany<Option<string>>>)

  /** The `exchange-document` keys read: titles, abstracts and the applicants' names. */
  datatype Biblio = Biblio(
    titles: Option<OneOrMany<TitleEntry>>, abstracts: Option<OneOrMany<AbstractEntry>>,
    applicants: Option<OneOrMany<Option<string>>>)

  /** `(title, abstract, applicant)`; all three are `None` when the lookup failed. */
  datatype Details = Details(title: Option<string>, abstractText: Option<string>, applicant: Option<string>)

  predicate TitleIsEnglish(t: TitleEntry) { t.lang == Some("en") }

  predicate AbstractIsEnglish(a: AbstractEntry) { a.lang == Some("en") }

  /** The text of a `p` value: one paragraph's text, or the paragraphs' texts space-joined. */
  function ParagraphText(p: Option<OneOrMany<Option<string>>>): string
  {
    match p
    case None => ""
    case Some(One(text)) => text.GetOr("")
    case Some(Many(ps)) => Join(seq(|ps|, k requires 0 <= k < |ps| => ps[k].GetOr("")), " ")
  }

  /** The first English title's text, else "Unknown Patent". */
  function EnglishTitle(titles: seq<TitleEntry>): (r: string)
    ensures (forall k :: 0 <= k < |titles| ==> !TitleIsEnglish(titles[k])) ==> r == "Unknown Patent"
    ensures forall k ::
      (0 <= k < |titles| && TitleIsEnglish(titles[k]) && titles[k].text.Some? &&
       forall j :: 0 <= j < k ==> !TitleIsEnglish(titles[j])) ==> r == titles[k].text.value
  {
    match FirstWhere(titles, TitleIsEnglish)
    case None => "Unknown Patent"
    case Some(i) => titles[i].text.GetOr("Unknown Patent")
  }

  /** The first English abstract's text, or `None` when there is none. */
  function EnglishAbstract(abstracts: seq<AbstractEntry>): (r: Option<string>)
    ensures r.None? <==> forall k :: 0 <= k < |abstracts| ==> !AbstractIsEnglish(abstracts[k])
    ensures forall k ::
      (0 <= k < |abstracts| && AbstractIsEnglish(abstracts[k]) &&
       forall j :: 0 <= j < k ==> !AbstractIsEnglish(abstracts[j])) ==> r == Some(ParagraphText(abstracts[k].paragraphs))
  {
    match FirstWhere(abstracts, AbstractIsEnglish)
    case None => None
    case Some(i) => Some(ParagraphText(abstracts[i].paragraphs))
  }

  /** The first applicant's name, else "Unknown". */
  function FirstApplicant(names: seq<Option<string>>): (r: string)
    ensures |names| == 0 ==> r == "Unknown"
    ensures |names| > 0 && names[0].Some? ==> r == names[0].value
    ensures |names| > 0 && names[0].None? ==> r == "Unknown"
  {
    if |names| > 0 then names[0].GetOr("Unknown") else "Unknown"
  }

  /** What `_fetch_patent_details` returns for a reply. */
  function PatentDetails(reply: HttpReply<Biblio>): (d: Details)
    ensures d.title.None? <==> !(reply.Reply? && reply.status == 200)
    ensures d.title.None? ==> d == Details(None, None, None)
    ensures d.title.Some? ==> d.applicant.Some?
  {
    match reply
    case Failed => Details(None, None, None)
    case Reply(status, b) =>
      if status != 200 then Details(None, None, None)
      else Details(Some(EnglishTitle(AsList(b.titles))), EnglishAbstract(AsList(b.abstracts)),
                   Some(FirstApplicant(AsList(b.applicants))))
  }

  /** The title loop with `break`. */
  method PickTitle(titles: seq<TitleEntry>) returns (title: string)
    ensures title == EnglishTitle(titles)
  {
    title := "Unknown Patent";
    var i := 0;
    while i < |titles|
      invariant 0 <= i <= |titles|
      invariant forall k :: 0 <= k < i ==> !TitleIsEnglish(titles[k])
    {
      if titles[i].lang == Some("en") {
        title := titles[i].text.GetOr(title);
        return;
      }
      i := i + 1;
    }
  }

  /** The abstract loop with `break`. */
  method PickAbstract(abstracts: seq<AbstractEntry>) returns (abstractText: Option<string>)
    ensures abstractText == EnglishAbstract(abstracts)
  {
    abstractText := None;
    var i := 0;
    while i < |abstracts|
      invariant 0 <= i <= |abstracts|
      invariant forall k :: 0 <= k < i ==> !AbstractIsEnglish(abstracts[k])
    {
      if abstracts[i].lang == Some("en") {
        abstractText := Some(ParagraphText(abstracts[i].paragraphs));
        return;
      }
      i := i + 1;
    }
  }

  /** `_fetch_patent_details` given the reply to its lookup. */
  method FetchPatentDetails(reply: HttpReply<Biblio>) returns (d: Details)
    ensures d == PatentDetails(reply)
  {
    match reply {
      case Failed => return Details(None, None, None);
      case Reply(status, b) =>
        if status != 200 {
          return Details(None, None, None);
        }
        var title := PickTitle(AsList(b.titles));
        var abstractText := PickAbstract(AsList(b.abstracts));
        var applicant := "Unknown";
        var apps := AsList(b.applicants);
        if |apps| > 0 {
          applicant := apps[0].GetOr("Unknown");
        }
        d := Details(Some(title), abstractText, Some(applicant));
    }
  }

  // ---------------------------------------------------------------------------
  // fetch_patents

  /** One `ops:publication-reference`: its `document-id` value. */
  datatype Publication = Publication(documentIds: Option<OneOrMany<DocId>>)

  /**
    The search body: the `ops:publication-reference` value found under
    `ops:biblio-search` (`None` when that object is absent or empty), and the
    one under the `ops:standardization` fallback.
  */
  datatype SearchBody = SearchBody(
    biblioSearch: Option<Option<OneOrMany<Publication>>>,
    standardized: Option<Option<OneOrMany<Publication>>>)

  /** The record appended for one publication (the `raw` copy is not modelled). */
  datatype EpoRecord = EpoRecord(
    source: string, id: string, title: string, abstractText: string,
    publishedDate: string, url: string, authors: seq<string>)

  /** The publications of the search body, from the direct path or the fallback. */
  function Publications(body: SearchBody): seq<Publication>
  {
    if body.biblioSearch.Some? then AsList(body.biblioSearch.value)
    else AsList(body.standardized.GetOr(None))
  }

  /** The fetched title when it is non-empty, else "Patent " followed by country and number. */
  function RecordTitle(details: Details, country: string, number: string): (t: string)
    ensures t != ""
    ensures details.title.Some? && details.title.value != "" ==> t == details.title.value
    ensures details.title.None? || details.title == Some("") ==> t == "Patent " + country + number
  {
    if details.title.Some? && details.title.value != "" then details.title.value else "Patent " + country + number
  }

  /** The fetched abstract when it is non-empty, else the OPS placeholder sentence. */
  function RecordAbstract(details: Details): (a: string)
    ensures a != ""
    ensures details.abstractText.Some? && details.abstractText.value != "" ==> a == details.abstractText.value
    ensures details.abstractText.None? || details.abstractText == Some("") ==> a == "Abstract not available via OPS."
  {
    if details.abstractText.Some? && details.abstractText.value != "" then details.abstractText.value
    else "Abstract not available via OPS."
  }

  /** The record for a chosen reference and the details fetched for it. */
  function ToRecord(d: DocId, details: Details): (r: EpoRecord)
    ensures r.source == "EPO" && r.id == FullId(Country(d), Number(d), Kind(d))
    ensures r.title != "" && r.abstractText != ""
    ensures details.title.Some? && details.title.value != "" ==> r.title == details.title.value
    ensures details.title.None? ==> r.title == "Patent " + Country(d) + Number(d)
    ensures details.abstractText.Some? && details.abstractText.value != "" ==> r.abstractText == details.abstractText.value
    ensures details.abstractText.None? || details.abstractText == Some("") ==> r.abstractText == "Abstract not available via OPS."
    ensures r.authors == if details.applicant.Some? && details.applicant.value != "" then [details.applicant.value] else []
    ensures r.url == Url(Country(d), Number(d), Kind(d))
    ensures d.date.Some? ==> r.publishedDate == d.date.value
    ensures d.date.None? ==> r.publishedDate == "Unknown Date"
  {
    var country := Country(d);
    var number := Number(d);
    var kind := Kind(d);
    EpoRecord(
      "EPO", FullId(country, number, kind), RecordTitle(details, country, number), RecordAbstract(details),
      d.date.GetOr("Unknown Date"), Url(country, number, kind),
      if details.applicant.Some? && details.applicant.value != "" then [details.applicant.value] else [])
  }

  /** The details lookup of a reference, with its reply as input. */
  function Lookup(d: DocId, lookup: (string, string, string) -> HttpReply<Biblio>): Details
  {
    PatentDetails(lookup(Country(d), Number(d), Kind(d)))
  }

  /** The records for the publications, in order, skipping those without a reference. */
  function Records(pubs: seq<Publication>, lookup: (string, string, string) -> HttpReply<Biblio>): (r: seq<EpoRecord>)
    ensures |r| <= |pubs|
    ensures forall k :: 0 <= k < |r| ==> r[k].source == "EPO" && r[k].title != "" && r[k].abstractText != ""
  {
    if |pubs| == 0 then []
    else
      var before := Records(pubs[..|pubs| - 1], lookup);
      match ChosenReference(AsList(pubs[|pubs| - 1].documentIds))
      case None => before
      case Some(d) => before + [ToRecord(d, Lookup(d, lookup))]
  }

  /** One more publication adds the record of its reference, if it has one. */
  lemma RecordsSnoc(pubs: seq<Publication>, i: nat, lookup: (string, string, string) -> HttpReply<Biblio>)
    requires i < |pubs|
    ensures Records(pubs[..i + 1], lookup) ==
      match ChosenReference(AsList(pubs[i].documentIds))
      case None => Records(pubs[..i], lookup)
      case Some(d) => Records(pubs[..i], lookup) + [ToRecord(d, Lookup(d, lookup))]
  {
    var upTo := pubs[..i + 1];
    assert upTo[..i] == pubs[..i] && upTo[i] == pubs[i];
  }

  /** Every publication with a usable reference yields exactly one record. */
  lemma {:induction false} RecordsAllReferenced(pubs: seq<Publication>, lookup: (string, string, string) -> HttpReply<Biblio>)
    requires forall k :: 0 <= k < |pubs| ==> ChosenReference(AsList(pubs[k].documentIds)).Some?
    ensures |Records(pubs, lookup)| == |pubs|
    decreases |pubs|
  {
    if |pubs| > 0 {
      var init := pubs[..|pubs| - 1];
      assert forall k :: 0 <= k < |init| ==> init[k] == pubs[k];
      RecordsAllReferenced(init, lookup);
    }
  }

  /**
    `fetch_patents`: [] without valid keys or a token, on a failed search, on
    404 or any other 4xx/5xx status; otherwise one record per publication that
    has a usable reference. `search` answers the CQL query built from the
    keyword; `lookup` answers the details request of one reference.
  */
  method FetchPatents(keyword: string, key: Option<string>, secret: Option<string>, token: Option<string>,
                      search: string -> HttpReply<SearchBody>, lookup: (string, string, string) -> HttpReply<Biblio>)
    returns (results: seq<EpoRecord>)
    ensures !ValidKeys(key, secret) || token.None? || token == Some("") ==> results == []
    ensures var reply := search(CqlQuery(keyword));
      reply.Failed? || (reply.Reply? && 400 <= reply.status < 600) ==> results == []
    ensures var reply := search(CqlQuery(keyword));
      ValidKeys(key, secret) && token.Some? && token.value != "" && reply.Reply? && !(400 <= reply.status < 600) ==>
        results == Records(Publications(reply.body), lookup)
  {
    if !ValidKeys(key, secret) || token.None? || token.value == "" {
      return [];
    }
    var query := CqlQuery(keyword);
    match search(query) {
      case Failed => return [];
      case Reply(status, body) =>
        if status == 404 || 400 <= status < 600 {
          return [];
        }
        results := CollectRecords(Publications(body), lookup);
    }
  }

  /** The publication loop of `fetch_patents`: a record per publication with a usable reference, in order. */
  method CollectRecords(publications: seq<Publication>, lookup: (string, string, string) -> HttpReply<Biblio>)
    returns (results: seq<EpoRecord>)
    ensures results == Records(publications, lookup)
  {
    results := [];
    for i := 0 to |publications|
      invariant results == Records(publications[..i], lookup)
    {
      RecordsSnoc(publications, i, lookup);
      var docIdList := AsList(publications[i].documentIds);
      var docdb := ChooseReference(docIdList);
      if docdb.None? {
        continue;
      }
      var d := docdb.value;
      var country := Country(d);
      var number := Number(d);
      var kind := Kind(d);
      var details := FetchPatentDetails(lookup(country, number, kind));
      results := results + [ToRecord(d, details)];
    }
    assert publications[..|publications|] == publications;
  }
}
