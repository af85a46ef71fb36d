/**
  The OpenAlex client's local logic: rebuilding an abstract from its inverted
  index, the filter and mapping applied to the search results, and the page
  size of the request.  The HTTP exchange is an input: the decoded `results`
  list, or a failure.

  An inverted index is a JSON object from words to the positions at which each
  word occurs; it is modelled as its items in object order.
*/
module OpenAlex {
  import opened Wrappers
  import opened Text

  /** The `(word, positions)` items of an `abstract_inverted_index`. */
  type InvertedIndex = seq<(string, seq<int>)>

  /** A `(position, word)` tuple as the reconstruction collects them. */
  type Entry = (int, string)

  // ---------------------------------------------------------------------------
  // Tuple order

  /** Python's string comparison: lexicographic on code points, a prefix first. */
  predicate StrLe(s: string, t: string)
    decreases |s|
  {
    |s| == 0 || (|t| > 0 && (s[0] < t[0] || (s[0] == t[0] && StrLe(s[1..], t[1..]))))
  }

  lemma {:induction false} StrLeRefl(s: string)
    ensures StrLe(s, s)
    decreases |s|
  {
    if |s| > 0 {
      StrLeRefl(s[1..]);
    }
  }

  lemma {:induction false} StrLeTotal(s: string, t: string)
    ensures StrLe(s, t) || StrLe(t, s)
    decreases |s|
  {
    if |s| > 0 && |t| > 0 && s[0] == t[0] {
      StrLeTotal(s[1..], t[1..]);
    }
  }

  lemma {:induction false} StrLeAntisym(s: string, t: string)
    requires StrLe(s, t) && StrLe(t, s)
    ensures s == t
    decreases |s|
  {
    if |s| > 0 && |t| > 0 {
      StrLeAntisym(s[1..], t[1..]);
      assert s == [s[0]] + s[1..] && t == [t[0]] + t[1..];
    }
  }

  lemma {:induction false} StrLeTrans(a: string, b: string, c: string)
    requires StrLe(a, b) && StrLe(b, c)
    ensures StrLe(a, c)
    decreases |a|
  {
    if |a| > 0 && a[0] == b[0] && b[0] == c[0] {
      StrLeTrans(a[1..], b[1..], c[1..]);
    }
  }

  /** The order `list.sort()` puts `(position, word)` tuples in. */
  predicate EntryLe(a: Entry, b: Entry)
  {
    a.0 < b.0 || (a.0 == b.0 && StrLe(a.1, b.1))
  }

  lemma EntryLeRefl(a: Entry)
    ensures EntryLe(a, a)
  {
    StrLeRefl(a.1);
  }

  lemma EntryLeTotal(a: Entry, b: Entry)
    ensures EntryLe(a, b) || EntryLe(b, a)
  {
    StrLeTotal(a.1, b.1);
  }

  lemma EntryLeAntisym(a: Entry, b: Entry)
    requires EntryLe(a, b) && EntryLe(b, a)
    ensures a == b
  {
    StrLeAntisym(a.1, b.1);
  }

  lemma EntryLeTrans(a: Entry, b: Entry, c: Entry)
    requires EntryLe(a, b) && EntryLe(b, c)
    ensures EntryLe(a, c)
  {
    if a.0 == b.0 && b.0 == c.0 {
      StrLeTrans(a.1, b.1, c.1);
    }
  }

  predicate SortedEntries(s: seq<Entry>)
  {
    forall i, j :: 0 <= i < j < |s| ==> EntryLe(s[i], s[j])
  }

  // ---------------------------------------------------------------------------
  // Sorting

  lemma ConsSorted(y: Entry, t: seq<Entry>)
    requires SortedEntries(t)
    requires forall k :: 0 <= k < |t| ==> EntryLe(y, t[k])
    ensures SortedEntries([y] + t)
  {
  }

  /** `x` placed in front of the first entry it does not follow. */
  function Insert(x: Entry, s: seq<Entry>): (r: seq<Entry>)
    requires SortedEntries(s)
    ensures SortedEntries(r)
    ensures multiset(r) == multiset(s) + multiset{x}
  {
    if |s| == 0 then [x]
    else if EntryLe(x, s[0]) then
      assert forall k :: 0 <= k < |s| ==> EntryLe(x, s[k]) by {
        forall k | 0 <= k < |s| ensures EntryLe(x, s[k]) {
          if k > 0 {
            EntryLeTrans(x, s[0], s[k]);
          }
        }
      }
      ConsSorted(x, s);
      [x] + s
    else
      var t := Insert(x, s[1..]);
      EntryLeTotal(x, s[0]);
      assert s == [s[0]] + s[1..];
      assert forall k :: 0 <= k < |t| ==> EntryLe(s[0], t[k]) by {
        forall k | 0 <= k < |t| ensures EntryLe(s[0], t[k]) {
          assert t[k] in multiset(t);
          if t[k] != x {
            assert t[k] in multiset(s[1..]);
            var m :| 0 <= m < |s[1..]| && s[1..][m] == t[k];
            assert s[m + 1] == t[k];
          }
        }
      }
      ConsSorted(s[0], t);
      [s[0]] + t
  }

  /** The sorted permutation `list.sort()` leaves behind. */
  function SortEntries(s: seq<Entry>): (r: seq<Entry>)
    ensures SortedEntries(r)
    ensures multiset(r) == multiset(s)
  {
    if |s| == 0 then []
    else
      assert s == [s[0]] + s[1..];
      Insert(s[0], SortEntries(s[1..]))
  }

  /** Two sorted arrangements of the same entries start with the same entry. */
  lemma SortedHeads(a: seq<Entry>, b: seq<Entry>)
    requires SortedEntries(a) && SortedEntries(b)
    requires multiset(a) == multiset(b) && |a| > 0
    ensures |b| > 0 && a[0] == b[0]
  {
    assert a[0] in multiset(b);
    var j :| 0 <= j < |b| && b[j] == a[0];
    assert b[0] in multiset(a);
    var i :| 0 <= i < |a| && a[i] == b[0];
    assert EntryLe(a[0], a[i]) by {
      if i == 0 {
        EntryLeRefl(a[0]);
      }
    }
    assert EntryLe(b[0], b[j]) by {
      if j == 0 {
        EntryLeRefl(b[0]);
      }
    }
    EntryLeAntisym(a[0], b[0]);
  }

  lemma MultisetTail(a: seq<Entry>)
    requires |a| > 0
    ensures multiset(a[1..]) == multiset(a) - multiset{a[0]}
  {
    assert a == [a[0]] + a[1..];
  }

  /** A sorted arrangement of a multiset of entries is unique. */
  lemma {:induction false} SortedUnique(a: seq<Entry>, b: seq<Entry>)
    requires SortedEntries(a) && SortedEntries(b)
    requires multiset(a) == multiset(b)
    ensures a == b
    decreases |a|
  {
    assert |a| == |multiset(a)| == |multiset(b)| == |b|;
    if |a| > 0 {
      SortedHeads(a, b);
      MultisetTail(a);
      MultisetTail(b);
      SortedUnique(a[1..], b[1..]);
      assert a == [a[0]] + a[1..] && b == [b[0]] + b[1..];
    }
  }

  // ---------------------------------------------------------------------------
  // _reconstruct_abstract

  /** The tuples the inner loop appends for one item. */
  function ItemEntries(word: string, positions: seq<int>): (r: seq<Entry>)
    ensures |r| == |positions|
    ensures forall k :: 0 <= k < |positions| ==> r[k] == (positions[k], word)
  {
    seq(|positions|, k requires 0 <= k < |positions| => (positions[k], word))
  }

  /** Every `(position, word)` tuple of the index, item by item. */
  function Entries(index: InvertedIndex): seq<Entry>
  {
    if |index| == 0 then []
    else
      var last := index[|index| - 1];
      Entries(index[..|index| - 1]) + ItemEntries(last.0, last.1)
  }

  /** How many positions the index lists altogether. */
  function TotalPositions(index: InvertedIndex): nat
  {
    if |index| == 0 then 0
    else TotalPositions(index[..|index| - 1]) + |index[|index| - 1].1|
  }

  function Words(es: seq<Entry>): (r: seq<string>)
    ensures |r| == |es|
    ensures forall k :: 0 <= k < |es| ==> r[k] == es[k].1
  {
    seq(|es|, k requires 0 <= k < |es| => es[k].1)
  }

  /** The words of the abstract, in tuple order. */
  function AbstractWords(index: InvertedIndex): seq<string>
  {
    Words(SortEntries(Entries(index)))
  }

  /** The abstract: "" for a missing or empty index, else the words space-joined. */
  function Abstract(index: Option<InvertedIndex>): (r: string)
    ensures index.None? || index == Some([]) ==> r == ""
  {
    if index.None? || index.value == [] then "" else Join(AbstractWords(index.value), " ")
  }

  /** `_reconstruct_abstract`: collect the tuples item by item, sort them, join the words. */
  method ReconstructAbstract(invertedIndex: Option<InvertedIndex>) returns (r: string)
    ensures r == Abstract(invertedIndex)
  {
    if invertedIndex.None? || |invertedIndex.value| == 0 {
      return "";
    }
    var index := invertedIndex.value;
    var wordPositions: seq<Entry> := [];
    for i := 0 to |index|
      invariant wordPositions == Entries(index[..i])
    {
      var word := index[i].0;
      var positions := index[i].1;
      for k := 0 to |positions|
        invariant wordPositions == Entries(index[..i]) + ItemEntries(word, positions[..k])
      {
        wordPositions := wordPositions + [(positions[k], word)];
      }
      assert positions[..|positions|] == positions;
      assert index[..i + 1][..i] == index[..i];
    }
    assert index[..|index|] == index;
    var sorted := SortEntries(wordPositions);
    r := Join(Words(sorted), " ");
  }

  /** One word per `(word, position)` pair. */
  lemma {:induction false} AbstractWordCount(index: InvertedIndex)
    ensures |Entries(index)| == TotalPositions(index)
    ensures |AbstractWords(index)| == TotalPositions(index)
    decreases |index|
  {
    if |index| > 0 {
      AbstractWordCount(index[..|index| - 1]);
    }
    assert |SortEntries(Entries(index))| == |multiset(Entries(index))|;
  }

  /**
    The words come in ascending position order, ties broken by the word: any
    sorted arrangement of the index's tuples yields exactly these words.
  */
  lemma AbstractWordsOrdered(index: InvertedIndex, es: seq<Entry>)
    requires SortedEntries(es) && multiset(es) == multiset(Entries(index))
    ensures AbstractWords(index) == Words(es)
  {
    SortedUnique(SortEntries(Entries(index)), es);
  }

  /** The tuples of a text: each word at its own position. */
  function Enumerate(text: seq<string>): (r: seq<Entry>)
    ensures SortedEntries(r)
    ensures Words(r) == text
  {
    seq(|text|, i requires 0 <= i < |text| => (i, text[i]))
  }

  /**
    Round trip: an index in which every position 0..n-1 of a text occurs once,
    under the word at that position, gives back the text's words, space-joined.
  */
  lemma ReconstructText(index: InvertedIndex, text: seq<string>)
    requires multiset(Entries(index)) == multiset(Enumerate(text))
    ensures AbstractWords(index) == text
    ensures index != [] ==> Abstract(Some(index)) == Join(text, " ")
  {
    AbstractWordsOrdered(index, Enumerate(text));
  }

  // ---------------------------------------------------------------------------
  // fetch_papers

  /** One element of the response's `results`; absent keys are `None`. */
  datatype Work = Work(
    id: Option<string>, title: Option<string>, invertedIndex: Option<InvertedIndex>,
    publicationYear: Option<int>, citedByCount: Option<int>)

  /** The paper record `fetch_papers` returns. */
  datatype Paper = Paper(
    id: Option<string>, title: string, abstractText: string,
    publicationYear: Option<int>, citedByCount: int, url: Option<string>)

  /** `per-page`: the configured limit, capped at 200. */
  function PerPage(limit: int): (n: int)
    ensures n <= 200 && n <= limit
    ensures n == 200 || n == limit
  {
    if limit < 200 then limit else 200
  }

  /** A result is kept when its title and its reconstructed abstract are both non-empty. */
  predicate Kept(w: Work)
  {
    w.title.Some? && w.title.value != "" && Abstract(w.invertedIndex) != ""
  }

  function ToPaper(w: Work): (p: Paper)
    requires Kept(w)
  {
    Paper(w.id, w.title.value, Abstract(w.invertedIndex), w.publicationYear, w.citedByCount.GetOr(0), w.id)
  }

  /** The kept results as papers, in response order. */
  function KeptPapers(ws: seq<Work>): (r: seq<Paper>)
    ensures |r| <= |ws|
    ensures forall k :: 0 <= k < |r| ==>
      r[k].title != "" && r[k].abstractText != "" && r[k].url == r[k].id
  {
    if |ws| == 0 then []
    else
      var before := KeptPapers(ws[..|ws| - 1]);
      var w := ws[|ws| - 1];
      if Kept(w) then before + [ToPaper(w)] else before
  }

  /** Results that all qualify are all kept, one paper each, in order. */
  lemma {:induction false} KeptPapersAll(ws: seq<Work>)
    requires forall k :: 0 <= k < |ws| ==> Kept(ws[k])
    ensures |KeptPapers(ws)| == |ws|
    ensures forall k :: 0 <= k < |ws| ==> KeptPapers(ws)[k] == ToPaper(ws[k])
    decreases |ws|
  {
    if |ws| > 0 {
      var init := ws[..|ws| - 1];
      forall k | 0 <= k < |init| ensures Kept(init[k]) {
        assert init[k] == ws[k];
      }
      KeptPapersAll(init);
      KeptPapersSnoc(ws);
      AllKeptStep(ws, KeptPapers(init));
    }
  }

  /** The inductive step of KeptPapersAll: one more kept result appends its paper. */
  lemma AllKeptStep(ws: seq<Work>, prev: seq<Paper>)
    requires |ws| > 0 && forall k :: 0 <= k < |ws| ==> Kept(ws[k])
    requires |prev| == |ws| - 1 && forall k :: 0 <= k < |prev| ==> prev[k] == ToPaper(ws[k])
    ensures var all := prev + [ToPaper(ws[|ws| - 1])];
      |all| == |ws| && forall k :: 0 <= k < |ws| ==> all[k] == ToPaper(ws[k])
  {
  }

  lemma KeptPapersSnoc(ws: seq<Work>)
    requires |ws| > 0 && Kept(ws[|ws| - 1])
    ensures KeptPapers(ws) == KeptPapers(ws[..|ws| - 1]) + [ToPaper(ws[|ws| - 1])]
  {
  }

  /** A result without a title or without an abstract never yields a paper. */
  lemma {:induction false} KeptPapersNone(ws: seq<Work>)
    requires forall k :: 0 <= k < |ws| ==> !Kept(ws[k])
    ensures KeptPapers(ws) == []
    decreases |ws|
  {
    if |ws| > 0 {
      KeptPapersNone(ws[..|ws| - 1]);
    }
  }

  /** Appending results only appends papers: the earlier ones are never dropped. */
  lemma {:induction false} KeptPapersAppend(ws: seq<Work>, more: seq<Work>)
    ensures |KeptPapers(ws)| <= |KeptPapers(ws + more)|
    ensures KeptPapers(ws + more)[..|KeptPapers(ws)|] == KeptPapers(ws)
    decreases |more|
  {
    if |more| == 0 {
      assert ws + more == ws;
    } else {
      var init := more[..|more| - 1];
      KeptPapersAppend(ws, init);
      assert (ws + more)[..|ws + more| - 1] == ws + init;
    }
  }

  /**
    `fetch_papers`: `search` answers the search for `query` with `per-page`
    set from the configured `limit`; [] when the exchange fails or the status
    is 4xx/5xx, otherwise the kept results (a missing `results` list counts as
    empty).
  */
  method FetchPapers(query: string, limit: int, search: (string, int) -> HttpReply<Option<seq<Work>>>)
    returns (papers: seq<Paper>)
    ensures var reply := search(query, PerPage(limit));
      reply.Failed? || (reply.Reply? && 400 <= reply.status < 600) ==> papers == []
    ensures var reply := search(query, PerPage(limit));
      reply.Reply? && !(400 <= reply.status < 600) ==> papers == KeptPapers(reply.body.GetOr([]))
  {
    var reply := search(query, PerPage(limit));
    match reply {
      case Failed => return [];
      case Reply(status, body) =>
        if 400 <= status < 600 {
          return [];
        }
        papers := KeepResults(body.GetOr([]));
    }
  }

  /** The result loop of `fetch_papers`: the papers of the results with a title and an abstract, in order. */
  method KeepResults(results: seq<Work>) returns (papers: seq<Paper>)
    ensures papers == KeptPapers(results)
  {
    papers := [];
    for i := 0 to |results|
      invariant papers == KeptPapers(results[..i])
    {
      var result := results[i];
      var abstractText := ReconstructAbstract(result.invertedIndex);
      ghost var upTo := results[..i + 1];
      assert upTo[..i] == results[..i] && upTo[i] == result;
      if result.title.Some? && result.title.value != "" && abstractText != "" {
        papers := papers + [Paper(result.id, result.title.value, abstractText,
                                  result.publicationYear, result.citedByCount.GetOr(0), result.id)];
      }
    }
    assert results[..|results|] == results;
  }
}
