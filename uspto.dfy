/**
  The PatentsView client (`USPTOClient`): the boolean query parser that turns
  a conjunctive query such as `("a" OR "b") AND ("c")` into the API's JSON
  condition, the request built by `fetch_patents`, and the mapping of the
  response to paper records.  The HTTP exchange is an input.
*/
module Uspto {
  import opened Wrappers
  import opened Text
  import opened QueryExpander

  // ---------------------------------------------------------------------------
  // Query conditions

  datatype Field = PatentTitle | PatentAbstract

  /** The JSON condition language: `_text_phrase`, `_or` and `_and`. */
  datatype Cond =
    | TextPhrase(field: Field, text: string)
    | AnyOf(conds: seq<Cond>)
    | AllOf(conds: seq<Cond>)

  /** A phrase in the title or the abstract. */
  function TermCondition(text: string): Cond
  {
    AnyOf([TextPhrase(PatentTitle, text), TextPhrase(PatentAbstract, text)])
  }

  /** Every phrase searched for is free of double quotes and parentheses. */
  predicate Clean(text: string)
  {
    '"' !in text && '(' !in text && ')' !in text
  }

  predicate LeavesClean(c: Cond)
  {
    match c
    case TextPhrase(_, text) => Clean(text)
    case AnyOf(cs) => forall i :: 0 <= i < |cs| ==> LeavesClean(cs[i])
    case AllOf(cs) => forall i :: 0 <= i < |cs| ==> LeavesClean(cs[i])
  }

  /** `s.replace('"', '').replace('(', '').replace(')', '')`. */
  function RemoveQuotesAndParens(s: string): (r: string)
    ensures Clean(r)
  {
    RemoveChar(RemoveChar(RemoveChar(s, '"'), '('), ')')
  }

  /** A term of a group: trimmed, quotes removed. */
  function TermText(term: string): (r: string)
    ensures '"' !in r
    ensures forall c :: c in r ==> c in term
  {
    RemoveChar(Strip(term), '"')
  }

  /** A group with its parentheses removed, cut at " OR ". */
  function GroupTerms(group: string): (r: seq<string>)
    ensures |r| >= 1
    ensures forall i :: 0 <= i < |r| ==> '(' !in r[i] && ')' !in r[i]
  {
    var g := RemoveChar(RemoveChar(Strip(group), '('), ')');
    assert '(' !in g && ')' !in g;
    var terms := Split(g, " OR ");
    SplitPiecesFrom(g, " OR ");
    terms
  }

  /** Each piece of a split is made of characters of the split string. */
  lemma {:induction false} SplitPiecesFrom(s: string, sep: string)
    requires |sep| > 0
    ensures forall i, c :: 0 <= i < |Split(s, sep)| && c in Split(s, sep)[i] ==> c in s
    decreases |s|
  {
    match IndexOf(s, sep)
    case None =>
    case Some(k) =>
      var rest := s[k + |sep|..];
      SplitPiecesFrom(rest, sep);
      assert Split(s, sep) == [s[..k]] + Split(rest, sep);
      forall i, c | 0 <= i < |Split(s, sep)| && c in Split(s, sep)[i]
        ensures c in s
      {
        if i == 0 {
          assert c in s[..k];
        } else {
          assert c in Split(rest, sep)[i - 1];
          assert c in rest;
        }
      }
  }

  /** The term conditions of a group, one per term in order. */
  function TermConditions(terms: seq<string>): (r: seq<Cond>)
    ensures |r| == |terms|
    ensures forall k :: 0 <= k < |terms| ==> r[k] == TermCondition(TermText(terms[k]))
  {
    seq(|terms|, k requires 0 <= k < |terms| => TermCondition(TermText(terms[k])))
  }

  /** The condition for one AND-group: its single term, or `_or` over its terms. */
  function GroupCondition(group: string): (c: Cond)
  {
    var conds := TermConditions(GroupTerms(group));
    if |conds| == 1 then conds[0] else AnyOf(conds)
  }

  /** The group conditions, one per " AND " group in order. */
  function GroupConditions(groups: seq<string>): (r: seq<Cond>)
    ensures |r| == |groups|
    ensures forall k :: 0 <= k < |groups| ==> r[k] == GroupCondition(groups[k])
  {
    seq(|groups|, k requires 0 <= k < |groups| => GroupCondition(groups[k]))
  }

  /** The `q` object `_parse_boolean_query` returns. */
  function BooleanQuery(query: string): Cond
  {
    if !Contains(query, "AND") && !Contains(query, "OR") then
      TermCondition(RemoveQuotesAndParens(query))
    else
      var conds := GroupConditions(Split(query, " AND "));
      if |conds| == 1 then conds[0] else AllOf(conds)
  }

  /**
    A query with neither "AND" nor "OR" anywhere in it (a raw substring test)
    is one title-or-abstract phrase: the query minus its quotes and
    parentheses, and the query itself when it has none.
  */
  lemma SimpleQuery(query: string)
    requires !Contains(query, "AND") && !Contains(query, "OR")
    ensures BooleanQuery(query) == TermCondition(RemoveQuotesAndParens(query))
    ensures Clean(query) ==> BooleanQuery(query) == TermCondition(query)
  {
  }

  lemma TermConditionClean(t: string)
    requires Clean(t)
    ensures LeavesClean(TermCondition(t))
  {
    var cs := TermCondition(t).conds;
    assert forall i :: 0 <= i < |cs| ==> cs[i].text == t;
  }

  /** The phrases searched for carry no quote or parenthesis, whatever the query. */
  lemma BooleanQueryClean(query: string)
    ensures LeavesClean(BooleanQuery(query))
  {
    if Contains(query, "AND") || Contains(query, "OR") {
      var groups := Split(query, " AND ");
      forall i | 0 <= i < |groups|
        ensures LeavesClean(GroupCondition(groups[i]))
      {
        GroupConditionClean(groups[i]);
      }
    }
  }

  lemma GroupConditionClean(group: string)
    ensures LeavesClean(GroupCondition(group))
  {
    var terms := GroupTerms(group);
    var conds := TermConditions(terms);
    forall i | 0 <= i < |conds|
      ensures LeavesClean(conds[i])
    {
      var t := TermText(terms[i]);
      assert '(' !in terms[i] && ')' !in terms[i];
      assert Clean(t);
      TermConditionClean(t);
    }
    if |conds| == 1 {
      assert LeavesClean(conds[0]);
    } else {
      assert LeavesClean(AnyOf(conds));
    }
  }

  /**
    `_parse_boolean_query`: without the substrings "AND" and "OR", one phrase
    condition on the cleaned text; otherwise one conjunct per " AND " group,
    each the `_or` of its " OR " terms (a single term stands alone), and a
    single group stands alone too.
  */
  method ParseBooleanQuery(query: string) returns (q: Cond)
    ensures q == BooleanQuery(query)
  {
    if !Contains(query, "AND") && !Contains(query, "OR") {
      var cleanStr := RemoveQuotesAndParens(query);
      return TermCondition(cleanStr);
    }
    var groups := Split(query, " AND ");
    q := ParseGroups(groups);
  }

  /** The outer loop of `_parse_boolean_query`: one conjunct per group, a single one standing alone. */
  method ParseGroups(groups: seq<string>) returns (q: Cond)
    ensures var expected := GroupConditions(groups);
      q == if |expected| == 1 then expected[0] else AllOf(expected)
  {
    var andConditions: seq<Cond> := [];
    ghost var expected := GroupConditions(groups);
    for i := 0 to |groups|
      invariant andConditions == expected[..i]
    {
      var groupCondition := ParseGroup(groups[i]);
      PrefixSnoc(expected, i);
      andConditions := andConditions + [groupCondition];
    }
    assert |expected| == |groups|;
    if |groups| > 0 { PrefixSnoc(expected, 0); }
    if |andConditions| == 1 {
      q := andConditions[0];
    } else {
      q := AllOf(andConditions);
    }
  }

  /** The inner loop of `_parse_boolean_query`: the condition for one group. */
  method ParseGroup(group: string) returns (c: Cond)
    ensures c == GroupCondition(group)
  {
    var terms := GroupTerms(group);
    var orConditions: seq<Cond> := [];
    ghost var expected := TermConditions(terms);
    for j := 0 to |terms|
      invariant orConditions == expected[..j]
    {
      var term := TermText(terms[j]);
      PrefixSnoc(expected, j);
      orConditions := orConditions + [TermCondition(term)];
    }
    assert |expected| == |terms|;
    if |terms| > 0 { PrefixSnoc(expected, 0); }
    if |orConditions| == 1 {
      c := orConditions[0];
    } else {
      c := AnyOf(orConditions);
    }
  }

  // ---------------------------------------------------------------------------
  // Parsing a rendered AND query

  /** A keyword the AND rendering and the parser pass through unchanged. */
  predicate PlainKeyword(k: string)
  {
    Clean(k) && !Contains(k, " AND ") && !Contains(k, " OR ")
  }

  /** An occurrence of a quote-free separator inside a quoted keyword lies inside the keyword. */
  lemma QuotedOccurrence(k: string, sep: string, i: int)
    requires |sep| > 0 && '"' !in sep && OccursAt(Quote(k), sep, i)
    ensures OccursAt(k, sep, i - 1)
  {
    var q := Quote(k);
    assert q[i] == sep[0] && sep[0] in sep;
    assert q[i + |sep| - 1] == sep[|sep| - 1] && sep[|sep| - 1] in sep;
    assert 1 <= i && i + |sep| <= |k| + 1;
    assert q[i..i + |sep|] == k[i - 1..i - 1 + |sep|];
  }

  lemma QuotedLacks(k: string, sep: string)
    requires |sep| > 0 && '"' !in sep && !Contains(k, sep)
    ensures !Contains(Quote(k), sep)
  {
    forall i | OccursAt(Quote(k), sep, i)
      ensures OccursAt(k, sep, i - 1)
    {
      QuotedOccurrence(k, sep, i);
    }
  }

  /** In `"k"` + sep + rest, the first separator is the one right after the closing quote. */
  lemma SplitAfterQuoted(k: string, sep: string, rest: string)
    requires |sep| > 0 && '"' !in sep && !Contains(k, sep)
    ensures Split(Quote(k) + sep + rest, sep) == [Quote(k)] + Split(rest, sep)
  {
    var q := Quote(k);
    var s := q + sep + rest;
    QuotedLacks(k, sep);
    forall j | 0 <= j < |q|
      ensures !OccursAt(s, sep, j)
    {
      if j + |sep| <= |q| {
        assert s[j..j + |sep|] == q[j..j + |sep|];
        assert !OccursAt(q, sep, j);
      } else if j + |sep| <= |s| {
        assert s[j..j + |sep|][|q| - 1 - j] == '"';
        assert sep[|q| - 1 - j] in sep;
      }
    }
    assert s[|q|..|q| + |sep|] == sep;
    IndexOfIs(s, sep, |q|);
    assert s[..|q|] == q && s[|q| + |sep|..] == rest;
  }

  /** Cutting a quoted-keyword join at its separator gives back the quoted keywords. */
  lemma {:induction false} SplitJoinQuoted(ks: seq<string>, sep: string)
    requires |ks| >= 1 && |sep| > 0 && '"' !in sep
    requires forall i :: 0 <= i < |ks| ==> !Contains(ks[i], sep)
    ensures Split(JoinQuoted(ks, sep), sep) == seq(|ks|, i requires 0 <= i < |ks| => Quote(ks[i]))
    decreases |ks|
  {
    if |ks| == 1 {
      QuotedLacks(ks[0], sep);
    } else {
      SplitJoinQuoted(ks[1..], sep);
      assert JoinQuoted(ks, sep) == Quote(ks[0]) + sep + JoinQuoted(ks[1..], sep);
      SplitAfterQuoted(ks[0], sep, JoinQuoted(ks[1..], sep));
    }
  }

  /** A quoted plain keyword is a group whose single term is the keyword. */
  lemma QuotedGroup(k: string)
    requires PlainKeyword(k)
    ensures GroupCondition(Quote(k)) == TermCondition(k)
  {
    var q := Quote(k);
    QuotedIsStripped(k);
    assert '(' !in q && ')' !in q;
    QuotedLacks(k, " OR ");
    assert GroupTerms(q) == [q];
    QuotedTermText(k);
  }

  /** A quoted text begins and ends with a quote, so `strip()` leaves it alone. */
  lemma QuotedIsStripped(k: string)
    ensures Strip(Quote(k)) == Quote(k)
  {
    var q := Quote(k);
    assert q[0] == '"' && q[|q| - 1] == '"';
    assert TrimStart(q, Whitespace) == q;
    assert TrimEnd(q, Whitespace) == q;
  }

  /** The term text of a quoted quote-free keyword is the keyword. */
  lemma QuotedTermText(k: string)
    requires '"' !in k
    ensures TermText(Quote(k)) == k
  {
    var q := Quote(k);
    QuotedIsStripped(k);
    assert q == ['"'] + k + ['"'];
    RemoveCharConcat(['"'] + k, ['"'], '"');
    RemoveCharConcat(['"'], k, '"');
  }

  /**
    `c` searches for the terms of one group: the title-or-abstract phrase of
    its single term, or an `_or` with one such phrase per term, in order, each
    term trimmed and stripped of its quotes.
  */
  predicate OrOfTerms(c: Cond, terms: seq<string>)
  {
    if |terms| == 1 then c == TermCondition(TermText(terms[0]))
    else c.AnyOf? && |c.conds| == |terms| && forall k :: 0 <= k < |terms| ==> c.conds[k] == TermCondition(TermText(terms[k]))
  }

  /**
    A query with the substring "AND" or "OR" anywhere takes the group path:
    an `_and` with one conjunct per " AND " piece (a single piece stands
    alone), each conjunct searching for the " OR " terms of its piece with
    the piece's parentheses removed.
  */
  lemma CompoundQuery(query: string)
    requires Contains(query, "AND") || Contains(query, "OR")
    ensures var pieces := Split(query, " AND ");
      var q := BooleanQuery(query);
      var conjuncts := if |pieces| == 1 then [q] else q.conds;
      (|pieces| != 1 ==> q.AllOf?) && |conjuncts| == |pieces|
      && forall i :: 0 <= i < |pieces| ==> OrOfTerms(conjuncts[i], GroupTerms(pieces[i]))
  {
    var pieces := Split(query, " AND ");
    forall i | 0 <= i < |pieces|
      ensures OrOfTerms(GroupCondition(pieces[i]), GroupTerms(pieces[i]))
    {
      var terms := GroupTerms(pieces[i]);
      assert TermConditions(terms)[0] == TermCondition(TermText(terms[0]));
    }
  }

  /** The AND rendering of two or more keywords contains "AND". */
  lemma RenderedAndContainsAnd(ks: seq<string>)
    requires |ks| >= 2
    ensures Contains(JoinQuoted(ks, " AND "), "AND")
  {
    var q0, rest := Quote(ks[0]), JoinQuoted(ks[1..], " AND ");
    var query := JoinQuoted(ks, " AND ");
    assert |ks| != 0 && |ks| != 1;
    assert query == q0 + " AND " + rest;
    AndInSeparator();
    OccursInMiddle(q0, " AND ", rest, "AND", 1);
    ContainsAt(query, "AND", |q0| + 1);
  }

  lemma AndInSeparator()
    ensures OccursAt(" AND ", "AND", 1)
    ensures '"' !in " AND "
  {
    var sep := " AND ";
    assert |sep| == 5 && sep[0] == ' ' && sep[1] == 'A' && sep[2] == 'N' && sep[3] == 'D' && sep[4] == ' ';
    assert sep[1..4] == "AND";
  }

  /** The groups of the quoted plain keywords are their term conditions, in order. */
  lemma QuotedGroupConditions(ks: seq<string>)
    requires forall i :: 0 <= i < |ks| ==> PlainKeyword(ks[i])
    ensures GroupConditions(seq(|ks|, i requires 0 <= i < |ks| => Quote(ks[i]))) ==
      seq(|ks|, i requires 0 <= i < |ks| => TermCondition(ks[i]))
  {
    var groups := seq(|ks|, i requires 0 <= i < |ks| => Quote(ks[i]));
    var conds := GroupConditions(groups);
    forall i | 0 <= i < |ks|
      ensures conds[i] == TermCondition(ks[i])
    {
      QuotedGroup(ks[i]);
    }
  }

  /**
    The AND rendering of two or more plain keywords parses to one conjunct per
    keyword, in order, each the title-or-abstract phrase condition on it.
  */
  lemma ParseRenderedAnd(ks: seq<string>)
    requires |ks| >= 2
    requires forall i :: 0 <= i < |ks| ==> PlainKeyword(ks[i])
    ensures BooleanQuery(JoinQuoted(ks, " AND ")) ==
      AllOf(seq(|ks|, i requires 0 <= i < |ks| => TermCondition(ks[i])))
  {
    var query := JoinQuoted(ks, " AND ");
    var groups := seq(|ks|, i requires 0 <= i < |ks| => Quote(ks[i]));
    RenderedAndContainsAnd(ks);
    AndInSeparator();
    assert forall i :: 0 <= i < |ks| ==> !Contains(ks[i], " AND ");
    SplitJoinQuoted(ks, " AND ");
    assert Split(query, " AND ") == groups;
    QuotedGroupConditions(ks);
    var conds := GroupConditions(groups);
    assert |conds| == |ks|;
    assert BooleanQuery(query) == AllOf(conds);
  }

  // ---------------------------------------------------------------------------
  // The request

  /** What `fetch_patents` may be called with. */
  datatype KeywordsInput = QueryText(text: string) | KeywordList(items: seq<string>) | Unsupported

  /** The JSON body posted: the condition, the fixed field list and `per_page`. */
  datatype Request = Request(q: Cond, fields: seq<string>, perPage: int)

  const Fields: seq<string> := ["patent_id", "patent_title", "patent_abstract", "patent_date"]

  /** A usable key is present and is not the template placeholder. */
  predicate ValidKey(apiKey: Option<string>)
  {
    apiKey.Some? && apiKey.value != "" && !Contains(apiKey.value, "YOUR_USPTO_KEY")
  }

  /**
    The request `fetch_patents` sends, or `None` when it returns [] before
    sending: empty keywords, no usable key, or an unsupported input type.
  */
  function BuildRequest(keywords: KeywordsInput, apiKey: Option<string>, limit: int): (r: Option<Request>)
    ensures keywords == QueryText("") || keywords == KeywordList([]) ==> r.None?
    ensures !ValidKey(apiKey) ==> r.None?
    ensures r.Some? ==> r.value.fields == Fields && r.value.perPage == limit
    ensures r.Some? && keywords.QueryText? ==> r.value.q == BooleanQuery(keywords.text)
    ensures r.Some? && keywords.KeywordList? ==> r.value.q == TermCondition(RemoveChar(keywords.items[0], '"'))
    ensures ValidKey(apiKey) && ((keywords.QueryText? && keywords.text != "") || (keywords.KeywordList? && keywords.items != [])) ==> r.Some?
  {
    if keywords == QueryText("") || keywords == KeywordList([]) || keywords.Unsupported? then None
    else if !ValidKey(apiKey) then None
    else match keywords
      case QueryText(text) => Some(Request(BooleanQuery(text), Fields, limit))
      case KeywordList(items) => Some(Request(TermCondition(RemoveChar(items[0], '"')), Fields, limit))
  }

  // ---------------------------------------------------------------------------
  // The response

  /** One entry of the response's `patents` list; absent keys are `None`. */
  datatype ApiPatent = ApiPatent(
    patentId: Option<string>, title: Option<string>, abstractText: Option<string>, date: Option<string>)

  /** The record handed to the rest of the pipeline. */
  datatype PatentRecord = PatentRecord(
    id: Option<string>, title: Option<string>, abstractText: Option<string>, publicationYear: string, source: string)

  function ToRecord(p: ApiPatent): (r: PatentRecord)
    ensures r.source == "USPTO" && r.publicationYear == Take(p.date.GetOr(""), 4)
    ensures r.id == p.patentId && r.title == p.title && r.abstractText == p.abstractText
  {
    PatentRecord(p.patentId, p.title, p.abstractText, Take(p.date.GetOr(""), 4), "USPTO")
  }

  /** The result loop: one record per returned patent, in order. */
  method MapPatents(patents: seq<ApiPatent>) returns (results: seq<PatentRecord>)
    ensures |results| == |patents|
    ensures forall i :: 0 <= i < |patents| ==> results[i] == ToRecord(patents[i])
  {
    results := [];
    for i := 0 to |patents|
      invariant |results| == i
      invariant forall k :: 0 <= k < i ==> results[k] == ToRecord(patents[k])
    {
      results := results + [ToRecord(patents[i])];
    }
  }

  /**
    `fetch_patents`: `send` answers the request it builds. [] when no request
    is sent, when the exchange fails, or on a 4xx/5xx status; otherwise one
    record per returned patent (a missing list counts as empty).
  */
  method FetchPatents(keywords: KeywordsInput, apiKey: Option<string>, limit: int,
                      send: Request -> HttpReply<Option<seq<ApiPatent>>>) returns (results: seq<PatentRecord>)
    ensures BuildRequest(keywords, apiKey, limit).None? ==> results == []
    ensures var request := BuildRequest(keywords, apiKey, limit);
      request.Some? && (send(request.value).Failed? || (send(request.value).Reply? && 400 <= send(request.value).status < 600))
      ==> results == []
    ensures var request := BuildRequest(keywords, apiKey, limit);
      request.Some? && send(request.value).Reply? && !(400 <= send(request.value).status < 600) ==>
        var patents := send(request.value).body.GetOr([]);
        |results| == |patents| && forall i :: 0 <= i < |results| ==> results[i] == ToRecord(patents[i])
  {
    var request := BuildRequest(keywords, apiKey, limit);
    if request.None? {
      return [];
    }
    match send(request.value) {
      case Failed => return [];
      case Reply(status, body) =>
        if status == 403 || status == 400 {
          return [];
        }
        if 400 <= status < 600 {
          return [];
        }
        results := MapPatents(body.GetOr([]));
    }
  }
}
