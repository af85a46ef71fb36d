/**
  Post-processing of the query optimiser's output (`QueryExpander`).

  The model's reply is an input: `None` stands for a call that raised, and
  `Some(text)` for the text it returned.  What is modelled is the quoted-phrase
  extraction (the regular expression `"([^"]*)"` under `findall`), the query
  rebuilt from the phrases, and the fallbacks.
*/
module QueryExpander {
  import opened Wrappers
  import opened Text

  // ---------------------------------------------------------------------------
  // Quoted phrases

  predicate NoQuote(k: string)
  {
    '"' !in k
  }

  /**
    `re.findall(r'"([^"]*)"', s)`: from the first double quote, the text up to
    the next double quote is one phrase, and the scan resumes after that closing
    quote; an opening quote with no closing quote ends the scan.
  */
  function FindQuoted(s: string): (r: seq<string>)
    ensures forall k :: 0 <= k < |r| ==> NoQuote(r[k])
    decreases |s|, 1
  {
    match IndexOfChar(s, '"')
    case None => []
    case Some(i) => AfterOpening(s[i + 1..])
  }

  /** The phrases of `rest`, the text that follows an opening double quote. */
  function AfterOpening(rest: string): (r: seq<string>)
    ensures forall k :: 0 <= k < |r| ==> NoQuote(r[k])
    decreases |rest|, 0
  {
    match IndexOfChar(rest, '"')
    case None => []
    case Some(j) =>
      assert forall c :: c in rest[..j] ==> c != '"';
      [rest[..j]] + FindQuoted(rest[j + 1..])
  }

  /** `f'"{k}"'`. */
  function Quote(k: string): string
  {
    "\"" + k + "\""
  }

  /** Each phrase quoted, joined by `sep`. */
  function JoinQuoted(ks: seq<string>, sep: string): (r: string)
    ensures |ks| == 0 <==> r == ""
  {
    if |ks| == 0 then ""
    else if |ks| == 1 then Quote(ks[0])
    else Quote(ks[0]) + sep + JoinQuoted(ks[1..], sep)
  }

  /** `" ".join([f'"{k}"' for k in ks])`. */
  function QuotedQuery(ks: seq<string>): string
  {
    JoinQuoted(ks, " ")
  }

  /** Text without any double quote before the first phrase does not change the phrases. */
  lemma {:induction false} FindQuotedSkip(pre: string, t: string)
    requires NoQuote(pre)
    ensures FindQuoted(pre + t) == FindQuoted(t)
    decreases |pre|
  {
    if pre != [] {
      var u := pre[1..] + t;
      assert pre + t == [pre[0]] + u;
      assert pre[0] != '"' by { assert pre[0] in pre; }
      assert NoQuote(pre[1..]) by { assert forall c :: c in pre[1..] ==> c in pre; }
      FindQuotedSkip(pre[1..], t);
      FindQuotedSkipOne(pre[0], u);
    } else {
      assert pre + t == t;
    }
  }

  lemma FindQuotedSkipOne(c: char, t: string)
    requires c != '"'
    ensures FindQuoted([c] + t) == FindQuoted(t)
  {
    var s := [c] + t;
    IndexOfCharCons(c, t, '"');
    match IndexOfChar(t, '"')
    case None =>
    case Some(i) =>
      assert s[i + 2..] == t[i + 1..];
  }

  /** Searching past a first character that differs shifts the index by one. */
  lemma IndexOfCharCons(c: char, t: string, q: char)
    requires c != q
    ensures IndexOfChar([c] + t, q) == match IndexOfChar(t, q) case None => None case Some(i) => Some(i + 1)
  {
    assert ([c] + t)[1..] == t;
  }

  lemma {:induction false} IndexOfCharAt(s: string, c: char, i: nat)
    requires i < |s| && s[i] == c && forall j :: 0 <= j < i ==> s[j] != c
    ensures IndexOfChar(s, c) == Some(i)
  {
    if i > 0 {
      IndexOfCharAt(s[1..], c, i - 1);
    }
  }

  /** A quoted phrase followed by anything: the phrase comes first, then the phrases of the rest. */
  lemma FindQuotedFront(k: string, t: string)
    requires NoQuote(k)
    ensures FindQuoted(Quote(k) + t) == [k] + FindQuoted(t)
  {
    var rest := k + "\"" + t;
    var s := ['"'] + rest;
    assert Quote(k) + t == s;
    assert s[0] == '"' && s[1..] == rest;
    assert IndexOfChar(s, '"') == Some(0);
    assert FindQuoted(s) == AfterOpening(rest);
    MiddleSlice(k, "\"", t);
    assert rest[|k|] == '"';
    assert IndexOfChar(rest, '"') == Some(|k|) by {
      forall j | 0 <= j < |k| ensures rest[j] != '"' {
        assert rest[j] == k[j] && k[j] in k;
      }
    }
    assert AfterOpening(rest) == [rest[..|k|]] + FindQuoted(rest[|k| + 1..]);
  }

  /** Re-extracting from the rebuilt query gives back the phrases (round trip). */
  lemma {:induction false} FindQuotedJoin(ks: seq<string>, sep: string)
    requires forall k :: 0 <= k < |ks| ==> NoQuote(ks[k])
    requires NoQuote(sep)
    ensures FindQuoted(JoinQuoted(ks, sep)) == ks
    decreases |ks|
  {
    if |ks| == 1 {
      FindQuotedFront(ks[0], "");
      assert Quote(ks[0]) + "" == Quote(ks[0]);
    } else if |ks| > 1 {
      var tail := JoinQuoted(ks[1..], sep);
      FindQuotedJoin(ks[1..], sep);
      FindQuotedSkip(sep, tail);
      assert JoinQuoted(ks, sep) == Quote(ks[0]) + sep + tail;
      AppendAssoc(Quote(ks[0]), sep, tail);
      FindQuotedFront(ks[0], sep + tail);
      HeadTail(ks);
    }
  }

  // ---------------------------------------------------------------------------
  // refine_search_query

  datatype Refined = Refined(query: string, keywords: seq<string>)

  /**
    `refine_search_query`, given the model's reply (`None` when the call
    raised): the quoted phrases and the query rebuilt from them; with no
    phrase, the reply without code fences, trimmed, and its words; on failure,
    the user input and its words.
  */
  function RefineSearchQuery(userInput: string, reply: Option<string>): (r: Refined)
    ensures reply.None? ==> r == Refined(userInput, SplitWhitespace(userInput))
    ensures reply.Some? && FindQuoted(Strip(reply.value)) != [] ==>
      && r.keywords == FindQuoted(Strip(reply.value))
      && r.query == QuotedQuery(r.keywords)
      && FindQuoted(r.query) == r.keywords
    ensures reply.Some? && FindQuoted(Strip(reply.value)) == [] ==>
      && r.query == Strip(Replace(Strip(reply.value), "```", ""))
      && r.keywords == SplitWhitespace(r.query)
  {
    match reply
    case None => Refined(userInput, SplitWhitespace(userInput))
    case Some(raw) =>
      var rawQuery := Strip(raw);
      var keywords := FindQuoted(rawQuery);
      if keywords != [] then
        FindQuotedJoin(keywords, " ");
        Refined(QuotedQuery(keywords), keywords)
      else
        var optimized := Strip(Replace(rawQuery, "```", ""));
        Refined(optimized, SplitWhitespace(optimized))
  }

  // ---------------------------------------------------------------------------
  // select_best_keyword_pair

  /**
    The phrases `select_best_keyword_pair` keeps: all of them when there are
    fewer than 3 (the model is not consulted); otherwise the first two phrases
    of the reply, or its single phrase, or else the first two keywords.
  */
  function Selection(keywords: seq<string>, reply: Option<string>): (r: seq<string>)
    ensures |keywords| < 3 ==> r == keywords
    ensures |keywords| >= 3 ==> 1 <= |r| <= 2
    ensures |keywords| >= 3 && reply.Some? && |FindQuoted(Strip(reply.value))| >= 2 ==>
      r == FindQuoted(Strip(reply.value))[..2]
    ensures |keywords| >= 3 && reply.Some? && |FindQuoted(Strip(reply.value))| == 1 ==>
      r == FindQuoted(Strip(reply.value))
    ensures |keywords| >= 3 && (reply.None? || FindQuoted(Strip(reply.value)) == []) ==>
      r == keywords[..2]
    ensures forall k :: 0 <= k < |r| ==>
      r[k] in keywords || (reply.Some? && r[k] in FindQuoted(Strip(reply.value)))
  {
    if |keywords| < 3 then keywords
    else match reply
      case None => [keywords[0], keywords[1]]
      case Some(raw) =>
        var selected := FindQuoted(Strip(raw));
        if |selected| >= 2 then [selected[0], selected[1]]
        else if |selected| == 1 then [selected[0]]
        else [keywords[0], keywords[1]]
  }

  /** `select_best_keyword_pair`: the selection, quoted and space-joined. */
  function SelectBestKeywordPair(keywords: seq<string>, reply: Option<string>): (r: string)
    ensures r == QuotedQuery(Selection(keywords, reply))
    ensures (forall k :: 0 <= k < |keywords| ==> NoQuote(keywords[k])) ==>
      FindQuoted(r) == Selection(keywords, reply)
  {
    var selected := Selection(keywords, reply);
    var q := QuotedQuery(selected);
    assert (forall k :: 0 <= k < |keywords| ==> NoQuote(keywords[k])) ==> FindQuoted(q) == selected by {
      if forall k :: 0 <= k < |keywords| ==> NoQuote(keywords[k]) {
        FindQuotedJoin(selected, " ");
      }
    }
    q
  }
}
