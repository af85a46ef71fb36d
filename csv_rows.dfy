/**
  Normalisation of gathered records into the seven CSV columns (Source, Type,
  ID, Title, Date, Abstract, Link), in its two versions: the one that is told
  the source of a whole batch (`normalize_data_for_csv` in `test_layer1.py`)
  and the one that infers the source of each item
  (`export_data_collection_csv` in the report generator).

  A gathered item is a JSON object; it is modelled as the map from its keys to
  the text of their values, so `str(v)` of a value is its entry here. A key
  holding JSON `null` is read as absent: the `TypeError` such a value raises
  when its abstract or content is sliced is not modelled (see README).
*/
module CsvRows {
  import opened Wrappers
  import opened Text
  import Epo

  type Item = map<string, string>

  datatype CsvRow = CsvRow(
    source: string, kind: string, id: string, title: string, date: string, abstractText: string, link: string)

  /** `item.get(key, default)`. */
  function Get(item: Item, key: string, default: string): string
  {
    if key in item then item[key] else default
  }

  /** `item.get(key)` is truthy: present and non-empty. */
  predicate Truthy(item: Item, key: string)
  {
    key in item && item[key] != ""
  }

  /** The row before any source-specific field is filled in. */
  function DefaultRow(source: string): CsvRow
  {
    CsvRow(source, "Unknown", "N/A", "N/A", "N/A", "N/A", "N/A")
  }

  /** `s[:500]`, the abstract cut. */
  function Excerpt(s: string): (r: string)
    ensures |r| <= 500 && |r| <= |s| && r == s[..|r|]
    ensures |s| <= 500 ==> r == s
  {
    Take(s, 500)
  }

  function GooglePatentsLink(number: string): string
  {
    "https://patents.google.com/patent/US" + number
  }

  /** A paper row: the abstract cut to 500 characters, linked by its DOI, else by its id. */
  function OpenAlexRow(item: Item, source: string): (r: CsvRow)
    ensures r.source == source && r.kind == "Paper" && |r.abstractText| <= 500
    ensures r.id == Get(item, "id", "N/A") && r.title == Get(item, "title", "N/A")
    ensures r.date == Get(item, "publication_year", "N/A")
    ensures r.abstractText == Excerpt(Get(item, "abstract", ""))
    ensures "doi" in item ==> r.link == item["doi"]
    ensures "doi" !in item ==> r.link == Get(item, "id", "")
  {
    CsvRow(source, "Paper", Get(item, "id", "N/A"), Get(item, "title", "N/A"), Get(item, "publication_year", "N/A"),
           Excerpt(Get(item, "abstract", "")), Get(item, "doi", Get(item, "id", "")))
  }

  function EpoRow(item: Item, source: string, link: string): (r: CsvRow)
    ensures r.source == source && r.kind == "Patent" && |r.abstractText| <= 500 && r.link == link
    ensures r.id == Get(item, "id", "N/A") && r.date == Get(item, "published_date", "N/A")
    ensures r.title == Get(item, "title", "N/A")
    ensures r.abstractText == Excerpt(Get(item, "abstract", "N/A"))
  {
    CsvRow(source, "Patent", Get(item, "id", "N/A"), Get(item, "title", "N/A"), Get(item, "published_date", "N/A"),
           Excerpt(Get(item, "abstract", "N/A")), link)
  }

  function UsptoRow(item: Item, source: string): (r: CsvRow)
    ensures r.source == source && r.kind == "Patent" && |r.abstractText| <= 500
    ensures r.link == GooglePatentsLink(Get(item, "patent_number", ""))
    ensures r.id == Get(item, "patent_number", "N/A") && r.date == Get(item, "date", "N/A")
    ensures r.title == Get(item, "title", "N/A")
    ensures r.abstractText == Excerpt(Get(item, "abstract", "N/A"))
  {
    CsvRow(source, "Patent", Get(item, "patent_number", "N/A"), Get(item, "title", "N/A"), Get(item, "date", "N/A"),
           Excerpt(Get(item, "abstract", "N/A")), GooglePatentsLink(Get(item, "patent_number", "")))
  }

  function TavilyRow(item: Item, source: string): (r: CsvRow)
    ensures r.source == source && r.kind == "News" && r.id == "N/A" && |r.abstractText| <= 500
    ensures r.abstractText == Excerpt(Get(item, "content", "N/A")) && r.link == Get(item, "url", "N/A")
    ensures r.title == Get(item, "title", "N/A") && r.date == Get(item, "published_date", "N/A")
  {
    CsvRow(source, "News", "N/A", Get(item, "title", "N/A"), Get(item, "published_date", "N/A"),
           Excerpt(Get(item, "content", "N/A")), Get(item, "url", "N/A"))
  }

  /** The Espacenet link rebuilt from the first three '.'-parts of an id, if it has them. */
  function EspacenetFromId(id: string): (r: Option<string>)
    ensures r.Some? <==> |Split(id, ".")| >= 3
  {
    var parts := Split(id, ".");
    if |parts| >= 3 then Some(Epo.Url(parts[0], parts[1], parts[2])) else None
  }

  /** An id built as `country.number.kind` rebuilds the Espacenet link of those parts. */
  lemma EspacenetFromFullId(country: string, number: string, kind: string)
    requires '.' !in country && '.' !in number && '.' !in kind
    ensures EspacenetFromId(Epo.FullId(country, number, kind)) == Some(Epo.Url(country, number, kind))
  {
    Epo.FullIdParts(country, number, kind);
  }

  // ---------------------------------------------------------------------------
  // normalize_data_for_csv: the source is given for the whole batch

  /**
    The row for one item of a batch from `sourceType`; `None` where the EPO
    branch indexes past the parts of an id with fewer than three (the
    `IndexError` that aborts the whole call).
  */
  function BatchRow(item: Item, sourceType: string): (r: Option<CsvRow>)
    ensures r.Some? ==> r.value.source == sourceType && |r.value.abstractText| <= 500
    ensures r.None? <==> sourceType == "EPO" && !Truthy(item, "url") && |Split(Get(item, "id", ""), ".")| < 3
    ensures sourceType !in {"OpenAlex", "EPO", "USPTO", "Tavily"} ==> r == Some(DefaultRow(sourceType))
    ensures sourceType == "OpenAlex" ==>
      r.Some? && r.value.kind == "Paper" && r.value.id == Get(item, "id", "N/A") && r.value.title == Get(item, "title", "N/A")
      && r.value.abstractText == Excerpt(Get(item, "abstract", ""))
      && r.value.link == Get(item, "doi", Get(item, "id", "")) && r.value.date == Get(item, "publication_year", "N/A")
    ensures sourceType == "EPO" && r.Some? ==>
      r.value.kind == "Patent" && r.value.id == Get(item, "id", "N/A") && r.value.title == Get(item, "title", "N/A")
      && r.value.date == Get(item, "published_date", "N/A")
      && r.value.abstractText == Excerpt(Get(item, "abstract", "N/A"))
      && r.value.link == if Truthy(item, "url") then item["url"] else EspacenetFromId(Get(item, "id", "")).value
    ensures sourceType == "USPTO" ==>
      r.Some? && r.value.kind == "Patent" && r.value.id == Get(item, "patent_number", "N/A")
      && r.value.title == Get(item, "title", "N/A") && r.value.date == Get(item, "date", "N/A")
      && r.value.abstractText == Excerpt(Get(item, "abstract", "N/A"))
      && r.value.link == GooglePatentsLink(Get(item, "patent_number", ""))
    ensures sourceType == "Tavily" ==>
      r.Some? && r.value.kind == "News" && r.value.id == "N/A"
      && r.value.title == Get(item, "title", "N/A") && r.value.date == Get(item, "published_date", "N/A")
      && r.value.abstractText == Excerpt(Get(item, "content", "N/A")) && r.value.link == Get(item, "url", "N/A")
  {
    if sourceType == "OpenAlex" then Some(OpenAlexRow(item, sourceType))
    else if sourceType == "EPO" then
      if Truthy(item, "url") then Some(EpoRow(item, sourceType, item["url"]))
      else match EspacenetFromId(Get(item, "id", ""))
        case None => None
        case Some(link) => Some(EpoRow(item, sourceType, link))
    else if sourceType == "USPTO" then Some(UsptoRow(item, sourceType))
    else if sourceType == "Tavily" then Some(TavilyRow(item, sourceType))
    else Some(DefaultRow(sourceType))
  }

  /**
    `normalize_data_for_csv`: one row per item, in order, or `None` when an
    item makes it raise.
  */
  method NormalizeDataForCsv(data: seq<Item>, sourceType: string) returns (rows: Option<seq<CsvRow>>)
    ensures rows.None? <==> exists i :: 0 <= i < |data| && BatchRow(data[i], sourceType).None?
    ensures rows.Some? ==> |rows.value| == |data|
    ensures rows.Some? ==> forall i :: 0 <= i < |data| ==> Some(rows.value[i]) == BatchRow(data[i], sourceType)
  {
    var normalized: seq<CsvRow> := [];
    for i := 0 to |data|
      invariant |normalized| == i
      invariant forall k :: 0 <= k < i ==> Some(normalized[k]) == BatchRow(data[k], sourceType)
    {
      var row := BatchRow(data[i], sourceType);
      if row.None? {
        return None;
      }
      normalized := normalized + [row.value];
    }
    rows := Some(normalized);
  }

  /** An EPO record without a url, whose id was built from its parts, gets the Espacenet link of those parts. */
  lemma BatchEpoLink(item: Item, country: string, number: string, kind: string)
    requires '.' !in country && '.' !in number && '.' !in kind
    requires "id" in item && item["id"] == Epo.FullId(country, number, kind) && !Truthy(item, "url")
    ensures BatchRow(item, "EPO").Some? && BatchRow(item, "EPO").value.link == Epo.Url(country, number, kind)
  {
    EspacenetFromFullId(country, number, kind);
  }

  // ---------------------------------------------------------------------------
  // export_data_collection_csv: the source is inferred per item

  /** The `source` key, or when it is missing (or "Unknown") the source its keys suggest. */
  function InferredSource(item: Item): string
  {
    var source := Get(item, "source", "Unknown");
    if source != "Unknown" then source
    else if "patent_number" in item then "USPTO"
    else if "publication_number" in item then "EPO"
    else if "id" in item && Contains(item["id"], "openalex") then "OpenAlex"
    else if "url" in item then "Tavily"
    else "Unknown"
  }

  /** The EPO link: the url, else the link rebuilt from the id when it has three parts, else "N/A". */
  function ExportEpoLink(item: Item): string
  {
    if Truthy(item, "url") then item["url"]
    else if Truthy(item, "id") then EspacenetFromId(item["id"]).GetOr("N/A")
    else "N/A"
  }

  /** The row `export_data_collection_csv` writes for one item. */
  function ExportRow(item: Item): (r: CsvRow)
    ensures |r.abstractText| <= 500
    ensures r.source in {"OpenAlex", "EPO", "USPTO", "Tavily"} || r == DefaultRow(InferredSource(item))
    ensures "id" in item && Contains(item["id"], "openalex") ==> r.source == "OpenAlex" && r.kind == "Paper"
    ensures r.source == "OpenAlex" <==> InferredSource(item) == "OpenAlex" || ("id" in item && Contains(item["id"], "openalex"))
    ensures r.source == "OpenAlex" ==>
      r.kind == "Paper" && r.id == Get(item, "id", "N/A") && r.title == Get(item, "title", "N/A")
      && r.abstractText == Excerpt(Get(item, "abstract", ""))
      && r.link == Get(item, "doi", Get(item, "id", "")) && r.date == Get(item, "publication_year", "N/A")
    ensures r.source == "EPO" ==>
      r.kind == "Patent" && r.id == Get(item, "id", "N/A") && r.title == Get(item, "title", "N/A")
      && r.date == Get(item, "published_date", "N/A")
      && r.abstractText == Excerpt(Get(item, "abstract", "N/A")) && r.link == ExportEpoLink(item)
    ensures r.source == "USPTO" ==>
      r.kind == "Patent" && r.id == Get(item, "patent_number", "N/A")
      && r.title == Get(item, "title", "N/A") && r.date == Get(item, "date", "N/A")
      && r.abstractText == Excerpt(Get(item, "abstract", "N/A"))
      && r.link == GooglePatentsLink(Get(item, "patent_number", ""))
    ensures r.source == "Tavily" ==>
      r.kind == "News" && r.id == "N/A" && r.title == Get(item, "title", "N/A")
      && r.date == Get(item, "published_date", "N/A")
      && r.abstractText == Excerpt(Get(item, "content", "N/A")) && r.link == Get(item, "url", "N/A")
  {
    var source := InferredSource(item);
    if source == "OpenAlex" || (Truthy(item, "id") && Contains(item["id"], "openalex")) then
      OpenAlexRow(item, "OpenAlex")
    else if source == "EPO" || Contains(Lower(source), "epo") then
      EpoRow(item, "EPO", ExportEpoLink(item))
    else if source == "USPTO" || "patent_number" in item then
      UsptoRow(item, "USPTO")
    else if source == "Tavily" || "content" in item then
      TavilyRow(item, "Tavily")
    else
      DefaultRow(source)
  }

  /** A record tagged "EPO" whose id was built from its parts keeps the link to those parts, url or not. */
  lemma ExportEpoRecord(item: Item, country: string, number: string, kind: string)
    requires '.' !in country && '.' !in number && '.' !in kind
    requires Get(item, "source", "") == "EPO" && "id" in item && item["id"] == Epo.FullId(country, number, kind)
    requires !Contains(item["id"], "openalex")
    requires Truthy(item, "url") ==> item["url"] == Epo.Url(country, number, kind)
    ensures ExportRow(item).source == "EPO" && ExportRow(item).link == Epo.Url(country, number, kind)
  {
    assert Truthy(item, "id") by {
      assert |Epo.FullId(country, number, kind)| >= 2;
    }
    EspacenetFromFullId(country, number, kind);
  }

  /** An untagged item with a patent number (and no OpenAlex id) becomes a USPTO row linking to Google Patents. */
  lemma ExportUntaggedPatent(item: Item)
    requires "source" !in item && "patent_number" in item
    requires !("id" in item && Contains(item["id"], "openalex"))
    ensures ExportRow(item).source == "USPTO"
    ensures ExportRow(item).link == GooglePatentsLink(item["patent_number"])
  {
    assert InferredSource(item) == "USPTO";
    assert !Contains(Lower("USPTO"), "epo") by {
      assert Lower("USPTO") == "uspto";
      var u, e := "uspto", "epo";
      assert u[0] == 'u' && u[1] == 's' && u[2] == 'p' && e[0] == 'e' && |u| == 5 && |e| == 3;
      forall j
        ensures !OccursAt(u, e, j)
      {
        if 0 <= j && j + 3 <= 5 {
          assert u[j..j + 3][0] == u[j] != e[0];
        }
      }
    }
  }

  /** The normalisation loop of `export_data_collection_csv`: one row per item, in order. */
  method ExportRows(items: seq<Item>) returns (rows: seq<CsvRow>)
    ensures |rows| == |items|
    ensures forall i :: 0 <= i < |items| ==> rows[i] == ExportRow(items[i])
  {
    rows := [];
    ghost var expected := seq(|items|, k requires 0 <= k < |items| => ExportRow(items[k]));
    for i := 0 to |items|
      invariant rows == expected[..i]
    {
      PrefixSnoc(expected, i);
      rows := rows + [ExportRow(items[i])];
    }
    if |items| > 0 { PrefixSnoc(expected, 0); }
  }
}
