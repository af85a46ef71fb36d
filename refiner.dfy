/**
  The draft generator of the research-idea planner (`GeneratorAgent` in
  `Project_plan/ref_query_refiner.py`): its own variant of the quoted-phrase
  query refinement and keyword-pair selection, the OpenAlex fetch that also
  keeps up to five author names, the fallback that widens the paper pool with
  a two-keyword query and merges by lower-cased title, the top-k cut, and the
  assembly of idea drafts from the parsed model reply.

  The model's replies, the HTTP exchanges and the JSON parser are inputs: a
  reply is the text `generate` returned, a search is a function from the
  query to the reply of the request, and the parsed reply is a value.
*/
module Refiner {
  import opened Wrappers
  import opened Text
  import QueryExpander
  import OpenAlex

  // ---------------------------------------------------------------------------
  // refine_search_query

  /**
    `refine_search_query` given the model's reply: the quoted phrases of the
    stripped reply and the query rebuilt from them; with no phrase, the reply
    without code fences, stripped, and no keywords.
  */
  function RefineDraftQuery(reply: string): (r: QueryExpander.Refined)
    ensures r.keywords == QueryExpander.FindQuoted(Strip(reply))
    ensures r.keywords != [] ==>
      r.query == QueryExpander.QuotedQuery(r.keywords) && QueryExpander.FindQuoted(r.query) == r.keywords
    ensures r.keywords == [] ==> r.query == Strip(Replace(Strip(reply), "```", ""))
  {
    var rawQuery := Strip(reply);
    var keywords := QueryExpander.FindQuoted(rawQuery);
    if keywords != [] then
      QueryExpander.FindQuotedJoin(keywords, " ");
      QueryExpander.Refined(QueryExpander.QuotedQuery(keywords), keywords)
    else
      QueryExpander.Refined(Strip(Replace(rawQuery, "```", "")), [])
  }

  // ---------------------------------------------------------------------------
  // select_best_keyword_pair

  /** The phrases quoted in a reply. */
  function Picked(reply: string): seq<string>
  {
    QueryExpander.FindQuoted(Strip(reply))
  }

  /**
    `select_best_keyword_pair` given the model's reply: fewer than 3 keywords
    are all kept, quoted and space-joined, without consulting the model;
    otherwise the first two phrases of the reply, or its single phrase, or
    else the first two keywords.
  */
  function SelectKeywordPair(keywords: seq<string>, reply: string): (r: string)
    ensures |keywords| < 3 ==> r == QueryExpander.QuotedQuery(keywords)
    ensures |keywords| >= 3 && |Picked(reply)| >= 2 ==>
      r == QueryExpander.Quote(Picked(reply)[0]) + " " + QueryExpander.Quote(Picked(reply)[1])
    ensures |keywords| >= 3 && |Picked(reply)| == 1 ==> r == QueryExpander.Quote(Picked(reply)[0])
    ensures |keywords| >= 3 && Picked(reply) == [] ==>
      r == QueryExpander.Quote(keywords[0]) + " " + QueryExpander.Quote(keywords[1])
    ensures (forall k :: 0 <= k < |keywords| ==> QueryExpander.NoQuote(keywords[k])) ==>
      QueryExpander.FindQuoted(r) == QueryExpander.Selection(keywords, Some(reply))
  {
    var selected := QueryExpander.Selection(keywords, Some(reply));
    assert |selected| == 2 ==> selected == [selected[0], selected[1]];
    JoinQuotedPair(selected, " ");
    QueryExpander.SelectBestKeywordPair(keywords, Some(reply))
  }

  /** Two quoted phrases joined: the first, the separator, the second. */
  lemma JoinQuotedPair(ks: seq<string>, sep: string)
    ensures |ks| == 2 ==>
      QueryExpander.JoinQuoted(ks, sep) == QueryExpander.Quote(ks[0]) + sep + QueryExpander.Quote(ks[1])
  {
    if |ks| == 2 {
      assert ks[1..] == [ks[1]];
    }
  }

  // ---------------------------------------------------------------------------
  // _select_top_papers

  /**
    `papers[:top_k]` with Python's slicing: a non-negative `topK` keeps at
    most that many papers, a negative one drops that many from the end; an
    empty pool gives [].
  */
  function SelectTopPapers<T>(papers: seq<T>, topK: int): (r: seq<T>)
    ensures |r| <= |papers| && r == papers[..|r|]
    ensures papers == [] ==> r == []
    ensures 0 <= topK ==> |r| == if |papers| <= topK then |papers| else topK
    ensures topK < 0 ==> |r| == if |papers| + topK <= 0 then 0 else |papers| + topK
  {
    if papers == [] then []
    else if 0 <= topK then Take(papers, topK)
    else if |papers| + topK <= 0 then []
    else papers[..|papers| + topK]
  }

  // ---------------------------------------------------------------------------
  // fetch_papers_from_openalex

  /**
    One entry of a result's `authorships`: without an `author` key, with an
    `author` that is null (reading its name raises), or with an author object
    and its `display_name`.
  */
  datatype Authorship = NoAuthor | NullAuthor | AuthorObject(displayName: Option<string>)

  predicate Named(a: Authorship)
  {
    a.AuthorObject? && a.displayName.Some? && a.displayName.value != ""
  }

  /**
    The truthy display names of `ships`, in order; `None` when one of them has
    a null author (the `AttributeError` the fetch's `except` turns into []).
  */
  function AuthorNames(ships: seq<Authorship>): (r: Option<seq<string>>)
    ensures r.Some? ==> |r.value| <= |ships|
  {
    if |ships| == 0 then Some([])
    else
      var init := ships[..|ships| - 1];
      var last := ships[|ships| - 1];
      match AuthorNames(init)
      case None => None
      case Some(names) =>
        if last.NullAuthor? then None
        else if Named(last) then Some(names + [last.displayName.value])
        else Some(names)
  }

  /** The names fail exactly when some entry has a null author. */
  lemma {:induction false} AuthorNamesFail(ships: seq<Authorship>)
    ensures AuthorNames(ships).None? <==> exists i :: 0 <= i < |ships| && ships[i].NullAuthor?
    decreases |ships|
  {
    if |ships| > 0 {
      var init := ships[..|ships| - 1];
      AuthorNamesFail(init);
      if exists i :: 0 <= i < |init| && init[i].NullAuthor? {
        var i :| 0 <= i < |init| && init[i].NullAuthor?;
        assert ships[i] == init[i];
      }
      if exists i :: 0 <= i < |ships| && ships[i].NullAuthor? {
        var i :| 0 <= i < |ships| && ships[i].NullAuthor?;
        if i < |init| {
          assert init[i] == ships[i];
        }
      }
    }
  }

  /** Every name kept is non-empty and is the display name of one of the entries. */
  lemma {:induction false} AuthorNamesFrom(ships: seq<Authorship>)
    ensures AuthorNames(ships).Some? ==> forall k :: 0 <= k < |AuthorNames(ships).value| ==>
      AuthorNames(ships).value[k] != "" &&
      exists i :: 0 <= i < |ships| && ships[i] == AuthorObject(Some(AuthorNames(ships).value[k]))
    decreases |ships|
  {
    var r := AuthorNames(ships);
    if |ships| > 0 && r.Some? {
      var init, last := ships[..|ships| - 1], ships[|ships| - 1];
      assert AuthorNames(init).Some?;
      var names := AuthorNames(init).value;
      AuthorNamesFrom(init);
      forall k | 0 <= k < |r.value|
        ensures r.value[k] != "" && exists i :: 0 <= i < |ships| && ships[i] == AuthorObject(Some(r.value[k]))
      {
        if k < |names| {
          assert r.value[k] == names[k];
          var i :| 0 <= i < |init| && init[i] == AuthorObject(Some(names[k]));
          assert ships[i] == init[i];
        } else {
          assert Named(last) && r.value[k] == last.displayName.value;
          assert ships[|ships| - 1] == AuthorObject(Some(r.value[k]));
        }
      }
    }
  }

  /** When every entry carries a name, every name is kept, in order. */
  lemma {:induction false} AuthorNamesAll(ships: seq<Authorship>)
    requires forall i :: 0 <= i < |ships| ==> Named(ships[i])
    ensures AuthorNames(ships).Some? && |AuthorNames(ships).value| == |ships|
    ensures forall i :: 0 <= i < |ships| ==> ships[i] == AuthorObject(Some(AuthorNames(ships).value[i]))
    decreases |ships|
  {
    if |ships| > 0 {
      var init := ships[..|ships| - 1];
      var last := ships[|ships| - 1];
      assert forall i :: 0 <= i < |init| ==> init[i] == ships[i];
      AuthorNamesAll(init);
      var names := AuthorNames(init).value;
      assert Named(last);
      AuthorNamesSnoc(ships);
      var all := names + [last.displayName.value];
      forall i | 0 <= i < |ships| ensures ships[i] == AuthorObject(Some(all[i])) {
        if i < |init| {
          assert all[i] == names[i] && ships[i] == init[i];
        }
      }
    }
  }

  /** One more named entry appends its name. */
  lemma AuthorNamesSnoc(ships: seq<Authorship>)
    requires |ships| > 0 && AuthorNames(ships[..|ships| - 1]).Some? && Named(ships[|ships| - 1])
    ensures AuthorNames(ships) ==
      Some(AuthorNames(ships[..|ships| - 1]).value + [ships[|ships| - 1].displayName.value])
  {
  }

  /** The authors of a paper: the names among the first five authorships. */
  function FirstAuthors(ships: seq<Authorship>): (r: Option<seq<string>>)
    ensures r.Some? ==> |r.value| <= 5
  {
    AuthorNames(Take(ships, 5))
  }

  /** Only the first five entries are read: the authors fail iff one of those has a null author. */
  lemma FirstAuthorsFail(ships: seq<Authorship>)
    ensures FirstAuthors(ships).None? <==> exists i :: 0 <= i < |ships| && i < 5 && ships[i].NullAuthor?
  {
    var first := Take(ships, 5);
    AuthorNamesFail(first);
    if exists i :: 0 <= i < |first| && first[i].NullAuthor? {
      var i :| 0 <= i < |first| && first[i].NullAuthor?;
      assert ships[i] == first[i];
    }
    if exists i :: 0 <= i < |ships| && i < 5 && ships[i].NullAuthor? {
      var i :| 0 <= i < |ships| && i < 5 && ships[i].NullAuthor?;
      assert first[i] == ships[i];
    }
  }

  /** The author loop of the fetch: at most five authorships, names kept in order. */
  method CollectAuthors(ships: seq<Authorship>) returns (authors: Option<seq<string>>)
    ensures authors == FirstAuthors(ships)
  {
    var first := Take(ships, 5);
    var names: seq<string> := [];
    for i := 0 to |first|
      invariant AuthorNames(first[..i]) == Some(names)
    {
      assert first[..i + 1][..i] == first[..i];
      var authorship := first[i];
      if authorship.NullAuthor? {
        assert AuthorNames(first).None? by {
          assert first[i].NullAuthor?;
          AuthorNamesFail(first);
        }
        return None;
      }
      if authorship.AuthorObject? && authorship.displayName.Some? && authorship.displayName.value != "" {
        names := names + [authorship.displayName.value];
      }
    }
    assert first[..|first|] == first;
    authors := Some(names);
  }

  /** One element of the response's `results`; absent keys are `None`. */
  datatype RefWork = RefWork(
    id: Option<string>, title: Option<string>, invertedIndex: Option<OpenAlex.InvertedIndex>,
    publicationYear: Option<int>, citedByCount: Option<int>, authorships: seq<Authorship>)

  /** The paper record the draft generator keeps. */
  datatype DraftPaper = DraftPaper(
    title: string, abstractText: string, year: Option<int>, authors: seq<string>,
    url: Option<string>, citedByCount: int)

  /** A result is kept when its title and its reconstructed abstract are both non-empty. */
  predicate Qualifies(w: RefWork)
  {
    w.title.Some? && w.title.value != "" && OpenAlex.Abstract(w.invertedIndex) != ""
  }

  /**
    The papers of `ws`, in response order: one per qualifying result; `None`
    when a result among them has a null author in its first five entries.
  */
  function DraftPapers(ws: seq<RefWork>): (r: Option<seq<DraftPaper>>)
    ensures r.Some? ==> |r.value| <= |ws|
    ensures r.Some? ==> forall k :: 0 <= k < |r.value| ==>
      r.value[k].title != "" && r.value[k].abstractText != "" && |r.value[k].authors| <= 5
  {
    if |ws| == 0 then Some([])
    else
      var init := ws[..|ws| - 1];
      var w := ws[|ws| - 1];
      match DraftPapers(init)
      case None => None
      case Some(before) =>
        match FirstAuthors(w.authorships)
        case None => None
        case Some(authors) =>
          if Qualifies(w) then
            Some(before + [DraftPaper(w.title.value, OpenAlex.Abstract(w.invertedIndex), w.publicationYear,
                                      authors, w.id, w.citedByCount.GetOr(0))])
          else Some(before)
  }

  /** Reading the authors of a result raises. */
  predicate AuthorsFail(w: RefWork)
  {
    FirstAuthors(w.authorships).None?
  }

  /** The papers fail exactly when some result's authors cannot be read. */
  lemma {:induction false} DraftPapersFail(ws: seq<RefWork>)
    ensures DraftPapers(ws).None? <==> exists i :: 0 <= i < |ws| && AuthorsFail(ws[i])
    decreases |ws|
  {
    if |ws| > 0 {
      var init := ws[..|ws| - 1];
      DraftPapersFail(init);
      if exists i :: 0 <= i < |init| && AuthorsFail(init[i]) {
        var i :| 0 <= i < |init| && AuthorsFail(init[i]);
        assert ws[i] == init[i];
      }
      if exists i :: 0 <= i < |ws| && AuthorsFail(ws[i]) {
        var i :| 0 <= i < |ws| && AuthorsFail(ws[i]);
        if i < |init| {
          assert init[i] == ws[i];
        }
      }
    }
  }

  /** What a search reply yields: [] on failure, a 4xx/5xx status or a raised error. */
  function ReplyPapers(reply: HttpReply<Option<seq<RefWork>>>): seq<DraftPaper>
  {
    if reply.Failed? || 400 <= reply.status < 600 then []
    else DraftPapers(reply.body.GetOr([])).GetOr([])
  }

  /** `fetch_papers_from_openalex` given the reply to its search request. */
  method FetchDraftPapers(reply: HttpReply<Option<seq<RefWork>>>) returns (papers: seq<DraftPaper>)
    ensures papers == ReplyPapers(reply)
    ensures reply.Failed? || (reply.Reply? && 400 <= reply.status < 600) ==> papers == []
    ensures forall k :: 0 <= k < |papers| ==> papers[k].title != "" && papers[k].abstractText != ""
  {
    match reply {
      case Failed => return [];
      case Reply(status, body) =>
        if 400 <= status < 600 {
          return [];
        }
        var results := body.GetOr([]);
        papers := [];
        for i := 0 to |results|
          invariant DraftPapers(results[..i]) == Some(papers)
        {
          var result := results[i];
          var abstractText := OpenAlex.ReconstructAbstract(result.invertedIndex);
          var authors := CollectAuthors(result.authorships);
          assert results[..i + 1][..i] == results[..i];
          if authors.None? {
            assert results[..i + 1][i] == result;
            assert DraftPapers(results).None? by {
              assert AuthorsFail(results[i]);
              DraftPapersFail(results);
            }
            return [];
          }
          if result.title.Some? && result.title.value != "" && abstractText != "" {
            papers := papers + [DraftPaper(result.title.value, abstractText, result.publicationYear,
                                           authors.value, result.id, result.citedByCount.GetOr(0))];
          }
        }
        assert results[..|results|] == results;
    }
  }

  // ---------------------------------------------------------------------------
  // The fallback in create_drafts and the merge by title

  const MinPaperThreshold := 10

  /** The pool is widened when it has fewer than 10 papers and there are at least 3 keywords. */
  predicate FallbackTriggered(paperCount: nat, keywordCount: nat)
  {
    paperCount < MinPaperThreshold && keywordCount >= 3
  }

  /** The lower-cased titles of a pool. */
  function LowerTitles(ps: seq<DraftPaper>): set<string>
  {
    set i | 0 <= i < |ps| :: Lower(ps[i].title)
  }

  /** Appending a paper adds its lower-cased title. */
  lemma LowerTitlesAppend(ps: seq<DraftPaper>, p: DraftPaper)
    ensures LowerTitles(ps + [p]) == LowerTitles(ps) + {Lower(p.title)}
  {
    var qs := ps + [p];
    forall t | t in LowerTitles(qs) ensures t in LowerTitles(ps) + {Lower(p.title)} {
      var i :| 0 <= i < |qs| && Lower(qs[i].title) == t;
      if i < |ps| {
        assert qs[i] == ps[i];
      }
    }
    forall t | t in LowerTitles(ps) ensures t in LowerTitles(qs) {
      var i :| 0 <= i < |ps| && Lower(ps[i].title) == t;
      assert qs[i] == ps[i];
    }
    assert qs[|ps|] == p;
  }

  /**
    The pool after the merge: the original pool, then each additional paper,
    in order, whose lower-cased title is not yet in the pool (including titles
    added earlier by the same merge).
  */
  function Merged(pool: seq<DraftPaper>, extra: seq<DraftPaper>): (r: seq<DraftPaper>)
    ensures |pool| <= |r| <= |pool| + |extra|
    ensures r[..|pool|] == pool
  {
    if |extra| == 0 then pool
    else
      var m := Merged(pool, extra[..|extra| - 1]);
      var p := extra[|extra| - 1];
      if Lower(p.title) in LowerTitles(m) then m else m + [p]
  }

  /** One more additional paper: appended exactly when its title is new. */
  lemma MergedLast(pool: seq<DraftPaper>, extra: seq<DraftPaper>)
    requires |extra| > 0
    ensures var m := Merged(pool, extra[..|extra| - 1]);
      var p := extra[|extra| - 1];
      Merged(pool, extra) == if Lower(p.title) in LowerTitles(m) then m else m + [p]
  {
  }

  /** Every paper the merge adds comes from the additional papers. */
  lemma {:induction false} MergedFromExtra(pool: seq<DraftPaper>, extra: seq<DraftPaper>)
    ensures forall i :: |pool| <= i < |Merged(pool, extra)| ==> Merged(pool, extra)[i] in extra
    decreases |extra|
  {
    if |extra| > 0 {
      var init := extra[..|extra| - 1];
      MergedFromExtra(pool, init);
      MergedLast(pool, extra);
      var m := Merged(pool, init);
      forall i | |pool| <= i < |Merged(pool, extra)|
        ensures Merged(pool, extra)[i] in extra
      {
        if i < |m| {
          assert Merged(pool, extra)[i] == m[i] && m[i] in init;
        } else {
          assert Merged(pool, extra)[i] == extra[|extra| - 1];
        }
      }
    }
  }

  /** The title of an added paper differs from the title of every paper before it. */
  lemma {:induction false} MergedDistinct(pool: seq<DraftPaper>, extra: seq<DraftPaper>)
    ensures var r := Merged(pool, extra);
      forall i, j :: 0 <= j < i < |r| && |pool| <= i ==> Lower(r[j].title) != Lower(r[i].title)
    decreases |extra|
  {
    if |extra| > 0 {
      var init := extra[..|extra| - 1];
      var p := extra[|extra| - 1];
      MergedDistinct(pool, init);
      MergedLast(pool, extra);
      var m := Merged(pool, init);
      var r := Merged(pool, extra);
      if Lower(p.title) !in LowerTitles(m) {
        forall i, j | 0 <= j < i < |r| && |pool| <= i
          ensures Lower(r[j].title) != Lower(r[i].title)
        {
          if i == |m| {
            assert r[j] == m[j] && r[i] == p;
          } else {
            assert r[j] == m[j] && r[i] == m[i];
          }
        }
      }
    }
  }

  /** After the merge, every additional paper's title is in the pool. */
  lemma {:induction false} MergedCovers(pool: seq<DraftPaper>, extra: seq<DraftPaper>)
    ensures forall k :: 0 <= k < |extra| ==> Lower(extra[k].title) in LowerTitles(Merged(pool, extra))
    decreases |extra|
  {
    if |extra| > 0 {
      var init := extra[..|extra| - 1];
      var p := extra[|extra| - 1];
      MergedCovers(pool, init);
      MergedLast(pool, extra);
      var m := Merged(pool, init);
      var r := Merged(pool, extra);
      if r != m {
        LowerTitlesAppend(m, p);
      }
      assert LowerTitles(m) <= LowerTitles(r);
      forall k | 0 <= k < |extra|
        ensures Lower(extra[k].title) in LowerTitles(r)
      {
        if k < |init| {
          assert extra[k] == init[k];
        }
      }
    }
  }

  /** The merge loop: a growing pool and the set of its lower-cased titles. */
  method MergeByTitle(papers: seq<DraftPaper>, additional: seq<DraftPaper>) returns (merged: seq<DraftPaper>)
    ensures merged == Merged(papers, additional)
  {
    merged := papers;
    var existingTitles := LowerTitles(papers);
    for i := 0 to |additional|
      invariant merged == Merged(papers, additional[..i])
      invariant existingTitles == LowerTitles(merged)
    {
      var paper := additional[i];
      assert additional[..i + 1][..i] == additional[..i];
      if Lower(paper.title) !in existingTitles {
        LowerTitlesAppend(merged, paper);
        merged := merged + [paper];
        existingTitles := existingTitles + {Lower(paper.title)};
      }
    }
    assert additional[..|additional|] == additional;
  }

  /** Merging nothing leaves the pool as it is; the pool only grows with more papers. */
  lemma {:induction false} MergedGrows(pool: seq<DraftPaper>, extra: seq<DraftPaper>, more: seq<DraftPaper>)
    ensures |Merged(pool, extra)| <= |Merged(pool, extra + more)|
    ensures Merged(pool, extra + more)[..|Merged(pool, extra)|] == Merged(pool, extra)
    decreases |more|
  {
    if |more| == 0 {
      assert extra + more == extra;
    } else {
      var init := more[..|more| - 1];
      MergedGrows(pool, extra, init);
      assert (extra + more)[..|extra + more| - 1] == extra + init;
    }
  }

  /** Merging one paper whose lower-cased title is not yet in the pool appends it. */
  lemma MergedKeepsNew(pool: seq<DraftPaper>, p: DraftPaper)
    requires Lower(p.title) !in LowerTitles(pool)
    ensures Merged(pool, [p]) == pool + [p]
  {
    assert [p][..0] == [];
  }

  /**
    The paper pool of `create_drafts` and its top-k cut: the refined query is
    searched; when the fallback triggers, the two-keyword query is searched
    too and the results are merged by title.
  */
  method DraftPool(
    refineReply: string, pairReply: string, search: string -> HttpReply<Option<seq<RefWork>>>, topK: int)
    returns (pool: seq<DraftPaper>, top: seq<DraftPaper>)
    ensures var refined := RefineDraftQuery(refineReply);
      var first := ReplyPapers(search(refined.query));
      && (!FallbackTriggered(|first|, |refined.keywords|) ==> pool == first)
      && (FallbackTriggered(|first|, |refined.keywords|) ==>
            pool == Merged(first, ReplyPapers(search(SelectKeywordPair(refined.keywords, pairReply)))))
      && |first| <= |pool| && pool[..|first|] == first
    ensures top == SelectTopPapers(pool, topK)
  {
    var refined := RefineDraftQuery(refineReply);
    pool := FetchDraftPapers(search(refined.query));
    if |pool| < MinPaperThreshold && |refined.keywords| >= 3 {
      var reducedQuery := SelectKeywordPair(refined.keywords, pairReply);
      var additional := FetchDraftPapers(search(reducedQuery));
      pool := MergeByTitle(pool, additional);
    }
    top := SelectTopPapers(pool, topK);
  }

  // ---------------------------------------------------------------------------
  // Idea assembly in create_drafts

  /**
    A value of a parsed topic: a string, a list of strings, or any other JSON
    value, given by its `str()` text and its truthiness.
  */
  datatype Value = Str(s: string) | StrList(items: seq<string>) | Other(shown: string, truthy: bool)

  predicate Truthy(v: Value)
  {
    match v
    case Str(s) => s != ""
    case StrList(items) => items != []
    case Other(_, t) => t
  }

  /** The text an f-string interpolates. */
  function Show(v: Value): string
  {
    match v
    case Str(s) => s
    case StrList(items) => "[" + Join(seq(|items|, i requires 0 <= i < |items| => "'" + items[i] + "'"), ", ") + "]"
    case Other(shown, _) => shown
  }

  type Fields = map<string, Value>

  datatype TopicItem = NotDict | Dict(fields: Fields)

  /** The parsed reply: an object (with its `topics` list, if any), a list, or anything else. */
  datatype Parsed = ParsedDict(topics: Option<seq<TopicItem>>) | ParsedList(items: seq<TopicItem>) | ParsedOther

  datatype IdeaContent = IdeaContent(title: Value, methodology: Value, description: Value)
  datatype IdeaSnapshot = IdeaSnapshot(iteration: nat, role: string, content: IdeaContent)
  datatype IdeaObject = IdeaObject(evolutionHistory: seq<IdeaSnapshot>)

  function Get(f: Fields, key: string, default: Value): Value
  {
    if key in f then f[key] else default
  }

  predicate Has(f: Fields, key: string)
  {
    key in f && Truthy(f[key])
  }

  /** The topics to assemble: the object's `topics`, the list itself, or none. */
  function TopicsList(data: Parsed): seq<TopicItem>
  {
    match data
    case ParsedDict(topics) => topics.GetOr([])
    case ParsedList(items) => items
    case ParsedOther => []
  }

  const StructureHeader := "\n**Proposed Structure:**\n"

  /** The table of contents, when it is a non-empty list: its header and its lines. */
  function TocPart(f: Fields): Option<string>
  {
    if Has(f, "table_of_contents") && f["table_of_contents"].StrList? then
      Some(StructureHeader + Join(f["table_of_contents"].items, "\n"))
    else None
  }

  /**
    The methodology: the truthy `methodology` and the table of contents
    joined by a blank line, or the raw `methodology` (or "") when neither is
    there; `None` when a truthy `methodology` is not a string (the join raises).
  */
  function Methodology(f: Fields): (r: Option<Value>)
    ensures r.None? <==> Has(f, "methodology") && !f["methodology"].Str?
    ensures !Has(f, "methodology") && TocPart(f).None? ==> r == Some(Get(f, "methodology", Str("")))
    ensures Has(f, "methodology") && f["methodology"].Str? && TocPart(f).None? ==> r == Some(f["methodology"])
    ensures !Has(f, "methodology") && TocPart(f).Some? ==> r == Some(Str(TocPart(f).value))
    ensures Has(f, "methodology") && f["methodology"].Str? && TocPart(f).Some? ==>
      r == Some(Str(f["methodology"].s + "\n\n" + TocPart(f).value))
  {
    if Has(f, "methodology") && !f["methodology"].Str? then None
    else
      var parts := (if Has(f, "methodology") then [f["methodology"].s] else [])
        + (if TocPart(f).Some? then [TocPart(f).value] else []);
      if parts == [] then Some(Get(f, "methodology", Str("")))
      else
        JoinPair(parts, "\n\n");
        Some(Str(Join(parts, "\n\n")))
  }

  /** Two parts joined: the first, the separator, the second. */
  lemma JoinPair(parts: seq<string>, sep: string)
    ensures |parts| == 2 ==> Join(parts, sep) == parts[0] + sep + parts[1]
  {
    if |parts| == 2 {
      assert parts[1..] == [parts[1]];
    }
  }

  /** One labelled section of the description, when its field is truthy. */
  function Section(f: Fields, key: string, heading: string): seq<string>
  {
    if Has(f, key) then [heading + Show(f[key])] else []
  }

  function DescriptionParts(f: Fields): seq<string>
  {
    Section(f, "background", "**Background:** ")
      + Section(f, "necessity", "**Necessity:** ")
      + Section(f, "expected_effects", "**Expected Effects:** ")
  }

  /** The description: the present sections joined by a blank line, else the raw `description` (or ""). */
  function Description(f: Fields): (r: Value)
    ensures !Has(f, "background") && !Has(f, "necessity") && !Has(f, "expected_effects") ==>
      r == Get(f, "description", Str(""))
    ensures Has(f, "background") || Has(f, "necessity") || Has(f, "expected_effects") ==> r.Str?
  {
    var parts := DescriptionParts(f);
    if parts == [] then Get(f, "description", Str("")) else Str(Join(parts, "\n\n"))
  }

  /** The content of one idea, or `None` when assembling it raises. */
  function AssembleIdea(f: Fields): (r: Option<IdeaContent>)
    ensures r.None? <==> Has(f, "methodology") && !f["methodology"].Str?
    ensures r.Some? ==> r.value.title == Get(f, "title", Str("Untitled"))
    ensures r.Some? ==> Some(r.value.methodology) == Methodology(f) && r.value.description == Description(f)
  {
    match Methodology(f)
    case None => None
    case Some(methodology) => Some(IdeaContent(Get(f, "title", Str("Untitled")), methodology, Description(f)))
  }

  /** A part of a join occurs in it. */
  lemma {:induction false} JoinHasPart(parts: seq<string>, sep: string, i: nat)
    requires i < |parts|
    ensures Contains(Join(parts, sep), parts[i])
    decreases |parts|
  {
    var j := Join(parts, sep);
    if |parts| == 1 {
      assert OccursAt(j, parts[0], 0);
      ContainsAt(j, parts[0], 0);
    } else if i == 0 {
      assert j == parts[0] + (sep + Join(parts[1..], sep));
      assert j[..|parts[0]|] == parts[0];
      assert OccursAt(j, parts[0], 0);
      ContainsAt(j, parts[0], 0);
    } else {
      var tail := Join(parts[1..], sep);
      JoinHasPart(parts[1..], sep, i - 1);
      assert parts[1..][i - 1] == parts[i];
      var k := IndexOf(tail, parts[i]).value;
      var off := |parts[0]| + |sep|;
      assert j == (parts[0] + sep) + tail;
      assert |j| == off + |tail|;
      assert j[off + k..off + k + |parts[i]|] == tail[k..k + |parts[i]|];
      assert OccursAt(j, parts[i], off + k);
      ContainsAt(j, parts[i], off + k);
    }
  }

  /** Each truthy section appears, labelled, in the description. */
  lemma DescriptionHasSections(f: Fields, key: string, heading: string)
    requires (key, heading) in {("background", "**Background:** "), ("necessity", "**Necessity:** "),
                              ("expected_effects", "**Expected Effects:** ")}
    requires Has(f, key)
    ensures Description(f).Str? && Contains(Description(f).s, heading + Show(f[key]))
  {
    var parts := DescriptionParts(f);
    var a := Section(f, "background", "**Background:** ");
    var b := Section(f, "necessity", "**Necessity:** ");
    var i := if key == "background" then 0 else if key == "necessity" then |a| else |a| + |b|;
    assert parts[i] == heading + Show(f[key]);
    JoinHasPart(parts, "\n\n", i);
  }

  /** The contents of the dict items, in order; `None` as soon as one raises. */
  function Ideas(items: seq<TopicItem>): (r: Option<seq<IdeaContent>>)
    ensures r.Some? ==> |r.value| <= |items|
  {
    if |items| == 0 then Some([])
    else
      var init := items[..|items| - 1];
      var last := items[|items| - 1];
      match Ideas(init)
      case None => None
      case Some(ideas) =>
        if last.NotDict? then Some(ideas)
        else match AssembleIdea(last.fields)
          case None => None
          case Some(content) => Some(ideas + [content])
  }

  /** A dict item whose idea cannot be assembled. */
  predicate ItemFails(item: TopicItem)
  {
    item.Dict? && AssembleIdea(item.fields).None?
  }

  /** The ideas fail exactly when some dict item fails to assemble. */
  lemma {:induction false} IdeasFail(items: seq<TopicItem>)
    ensures Ideas(items).None? <==> exists i :: 0 <= i < |items| && ItemFails(items[i])
    decreases |items|
  {
    if |items| > 0 {
      var init := items[..|items| - 1];
      IdeasFail(init);
      if exists i :: 0 <= i < |init| && ItemFails(init[i]) {
        var i :| 0 <= i < |init| && ItemFails(init[i]);
        assert items[i] == init[i];
      }
      if exists i :: 0 <= i < |items| && ItemFails(items[i]) {
        var i :| 0 <= i < |items| && ItemFails(items[i]);
        if i < |init| {
          assert init[i] == items[i];
        }
      }
    }
  }

  lemma IdeasFailAt(items: seq<TopicItem>, i: nat)
    requires i < |items| && ItemFails(items[i])
    ensures Ideas(items).None?
  {
    IdeasFail(items);
  }

  /** Items that are all dicts and all assemble give one idea each, in order. */
  lemma {:induction false} IdeasAllDicts(items: seq<TopicItem>)
    requires forall i :: 0 <= i < |items| ==> items[i].Dict? && AssembleIdea(items[i].fields).Some?
    ensures Ideas(items).Some? && |Ideas(items).value| == |items|
    ensures forall i :: 0 <= i < |items| ==> Ideas(items).value[i] == AssembleIdea(items[i].fields).value
    decreases |items|
  {
    if |items| > 0 {
      var init := items[..|items| - 1];
      var last := items[|items| - 1];
      assert forall i :: 0 <= i < |init| ==> init[i] == items[i];
      IdeasAllDicts(init);
      var ideas := Ideas(init).value;
      IdeasSnoc(items);
      var all := ideas + [AssembleIdea(last.fields).value];
      forall i | 0 <= i < |items| ensures all[i] == AssembleIdea(items[i].fields).value {
        if i < |init| {
          assert all[i] == ideas[i];
        }
      }
    }
  }

  /** One more dict item that assembles appends its idea. */
  lemma IdeasSnoc(items: seq<TopicItem>)
    requires |items| > 0 && Ideas(items[..|items| - 1]).Some?
    requires items[|items| - 1].Dict? && AssembleIdea(items[|items| - 1].fields).Some?
    ensures Ideas(items) ==
      Some(Ideas(items[..|items| - 1]).value + [AssembleIdea(items[|items| - 1].fields).value])
  {
  }

  /** The ideas of one more item of a list, from the ideas of the items before it. */
  lemma IdeasStep(items: seq<TopicItem>, i: nat)
    requires i < |items|
    ensures Ideas(items[..i]).None? ==> Ideas(items[..i + 1]).None?
    ensures Ideas(items[..i]).Some? && items[i].NotDict? ==> Ideas(items[..i + 1]) == Ideas(items[..i])
    ensures Ideas(items[..i]).Some? && items[i].Dict? && AssembleIdea(items[i].fields).Some? ==>
      Ideas(items[..i + 1]) == Some(Ideas(items[..i]).value + [AssembleIdea(items[i].fields).value])
  {
    var upto := items[..i + 1];
    assert upto[..|upto| - 1] == items[..i] && upto[|upto| - 1] == items[i];
  }

  /** Non-dict items are skipped: they add no idea. */
  lemma {:induction false} IdeasSkipNotDict(items: seq<TopicItem>)
    ensures Ideas(items + [NotDict]) == Ideas(items)
  {
    assert (items + [NotDict])[..|items|] == items;
  }

  /** The first snapshot of a draft: iteration 0, role "draft". */
  function Draft(content: IdeaContent): IdeaObject
  {
    IdeaObject([IdeaSnapshot(0, "draft", content)])
  }

  /**
    The assembly loop of `create_drafts`: one idea per dict item of the
    parsed reply, each with its draft snapshot; `None` when an item raises.
  */
  method AssembleIdeas(data: Parsed) returns (ideas: Option<seq<IdeaObject>>)
    ensures ideas.None? <==> Ideas(TopicsList(data)).None?
    ensures ideas.Some? ==> |ideas.value| == |Ideas(TopicsList(data)).value|
    ensures ideas.Some? ==> forall k :: 0 <= k < |ideas.value| ==>
      ideas.value[k] == Draft(Ideas(TopicsList(data)).value[k])
  {
    var topics := TopicsList(data);
    var result: seq<IdeaObject> := [];
    ghost var contents: seq<IdeaContent> := [];
    for i := 0 to |topics|
      invariant Ideas(topics[..i]) == Some(contents)
      invariant |result| == |contents|
      invariant forall k :: 0 <= k < |result| ==> result[k] == Draft(contents[k])
    {
      var item := topics[i];
      IdeasStep(topics, i);
      if item.NotDict? {
        continue;
      }
      var content := AssembleIdea(item.fields);
      if content.None? {
        IdeasFailAt(topics, i);
        return None;
      }
      result := result + [Draft(content.value)];
      contents := contents + [content.value];
    }
    if |topics| > 0 { PrefixSnoc(topics, 0); }
    ideas := Some(result);
  }
}
