/**
  Expert partition bookkeeping (`VectorStoreManager`).

  The vector database is abstracted to the ordered sequence of stored
  records, each a chunk text with its metadata.  An "expert" is the set of
  records whose metadata `expert_id` equals a given id exactly; embedding and
  similarity search are outside the model.
*/
module ExpertStore {
  import opened Wrappers
  import opened Text

  // ---------------------------------------------------------------------------
  // Records

  /**
    Chunk metadata.  Keys that older or foreign records may lack are options;
    `year` holds the rendering of `publication_year` (or of its default 0).
  */
  datatype Meta = Meta(
    source: Option<string>,
    expertId: Option<string>,
    topic: Option<string>,
    paperId: Option<string>,
    year: string,
    citations: int)

  /** A stored chunk; `meta == None` stands for empty or missing metadata. */
  datatype Record = Record(content: string, meta: Option<Meta>)

  /** A paper as the fetchers hand it over; `year` is the rendering of `publication_year`. */
  datatype Paper = Paper(
    title: string,
    abstractText: string,
    source: Option<string>,
    id: Option<string>,
    year: Option<string>,
    citedByCount: Option<int>)

  /** The store's exact-match filter `where={"expert_id": id}`. */
  predicate Tagged(r: Record, id: string)
  {
    r.meta.Some? && r.meta.value.expertId == Some(id)
  }

  /** Number of records of partition `id`. */
  function CountTagged(rs: seq<Record>, id: string): (n: nat)
    ensures n <= |rs|
    ensures n == 0 <==> forall i :: 0 <= i < |rs| ==> !Tagged(rs[i], id)
  {
    if rs == [] then 0
    else CountTagged(rs[..|rs| - 1], id) + (if Tagged(rs[|rs| - 1], id) then 1 else 0)
  }

  lemma {:induction false} CountTaggedAppend(rs: seq<Record>, more: seq<Record>, id: string)
    ensures CountTagged(rs + more, id) == CountTagged(rs, id) + CountTagged(more, id)
    decreases |more|
  {
    if more != [] {
      assert (rs + more)[..|rs + more| - 1] == rs + more[..|more| - 1];
      assert (rs + more)[|rs + more| - 1] == more[|more| - 1];
      CountTaggedAppend(rs, more[..|more| - 1], id);
    } else {
      assert rs + more == rs;
    }
  }

  /** The chunk `add_expert_knowledge` builds for one paper. */
  function ToDocument(p: Paper, expertId: string, topic: string): (d: Record)
    ensures d.meta.Some? && Tagged(d, expertId) && d.meta.value.topic == Some(topic)
    ensures d.meta.value.source == Some(p.source.GetOr("openalex"))
    ensures d.meta.value.paperId == p.id && d.meta.value.citations == p.citedByCount.GetOr(0)
  {
    Record(
      "Title: " + p.title + "\nAbstract: " + p.abstractText + "\nYear: " + p.year.GetOr("N/A"),
      Some(Meta(Some(p.source.GetOr("openalex")), Some(expertId), Some(topic), p.id, p.year.GetOr("0"),
                p.citedByCount.GetOr(0))))
  }

  /** The documents one call adds, one per paper and in order. */
  function Documents(papers: seq<Paper>, expertId: string, topic: string): (ds: seq<Record>)
    ensures |ds| == |papers|
    ensures forall i :: 0 <= i < |ds| ==> ds[i] == ToDocument(papers[i], expertId, topic)
  {
    seq(|papers|, i requires 0 <= i < |papers| => ToDocument(papers[i], expertId, topic))
  }

  /** Every document of one call belongs to the partition it was added for. */
  lemma {:induction false} DocumentsAllTagged(papers: seq<Paper>, expertId: string, topic: string)
    ensures CountTagged(Documents(papers, expertId, topic), expertId) == |papers|
    decreases |papers|
  {
    if papers != [] {
      var init := papers[..|papers| - 1];
      assert Documents(papers, expertId, topic)[..|papers| - 1] == Documents(init, expertId, topic);
      DocumentsAllTagged(init, expertId, topic);
    }
  }

  /** Index of the first record of partition `id`. */
  function FirstTagged(rs: seq<Record>, id: string): (r: Option<nat>)
    ensures r.Some? ==> r.value < |rs| && Tagged(rs[r.value], id)
    ensures r.Some? ==> forall j :: 0 <= j < r.value ==> !Tagged(rs[j], id)
    ensures r.None? <==> forall j :: 0 <= j < |rs| ==> !Tagged(rs[j], id)
  {
    if rs == [] then None
    else if Tagged(rs[0], id) then Some(0)
    else match FirstTagged(rs[1..], id)
      case None => None
      case Some(k) => Some(k + 1)
  }

  /** The records outside partition `id`, in their original order. */
  function Without(rs: seq<Record>, id: string): (r: seq<Record>)
    ensures forall i :: 0 <= i < |r| ==> !Tagged(r[i], id)
    ensures forall x :: x in r <==> x in rs && !Tagged(x, id)
    ensures |r| == |rs| - CountTagged(rs, id)
  {
    if rs == [] then []
    else
      var init := rs[..|rs| - 1];
      var last := rs[|rs| - 1];
      assert rs == init + [last];
      Without(init, id) + (if Tagged(last, id) then [] else [last])
  }

  /** Deleting a partition nobody uses leaves the store as it was. */
  lemma {:induction false} WithoutUnused(rs: seq<Record>, id: string)
    requires CountTagged(rs, id) == 0
    ensures Without(rs, id) == rs
    decreases |rs|
  {
    if rs != [] {
      var init, last := rs[..|rs| - 1], rs[|rs| - 1];
      assert CountTagged(rs, id) == CountTagged(init, id) + (if Tagged(last, id) then 1 else 0);
      WithoutUnused(init, id);
      assert Without(rs, id) == init + [last];
      PrefixSnoc(rs, |rs| - 1);
    }
  }

  /** Deleting one partition leaves every other partition's record count unchanged. */
  lemma {:induction false} WithoutKeepsOthers(rs: seq<Record>, id: string, other: string)
    requires other != id
    ensures CountTagged(Without(rs, id), other) == CountTagged(rs, other)
    decreases |rs|
  {
    if rs != [] {
      var init := rs[..|rs| - 1];
      var last := rs[|rs| - 1];
      WithoutKeepsOthers(init, id, other);
      CountTaggedAppend(Without(init, id), if Tagged(last, id) then [] else [last], other);
      if !Tagged(last, id) {
        assert [last][..0] == [];
      }
    }
  }

  // ---------------------------------------------------------------------------
  // Listing experts

  datatype Bucket = Articles | Patents | News

  /**
    The source classification of `list_experts`, on the lower-cased source:
    "openalex", then "uspto"/"epo", then "tavily"/"news", then "patent", else articles.
  */
  function Classify(source: string): (b: Bucket)
    ensures var s := Lower(source);
      && (Contains(s, "openalex") ==> b == Articles)
      && (b == News <==> !Contains(s, "openalex") && !Contains(s, "uspto") && !Contains(s, "epo")
                         && (Contains(s, "tavily") || Contains(s, "news")))
      && (b == Patents <==> !Contains(s, "openalex")
                            && (Contains(s, "uspto") || Contains(s, "epo")
                                || (!Contains(s, "tavily") && !Contains(s, "news") && Contains(s, "patent"))))
  {
    var s := Lower(source);
    if Contains(s, "openalex") then Articles
    else if Contains(s, "uspto") || Contains(s, "epo") then Patents
    else if Contains(s, "tavily") || Contains(s, "news") then News
    else if Contains(s, "patent") then Patents
    else Articles
  }

  /** One entry of the listing. */
  datatype ExpertSummary = ExpertSummary(
    expertId: string, topic: string, docCount: nat, articles: nat, patents: nat, news: nat)

  /** The id a record is counted under: none for empty metadata or an empty or missing id. */
  function ListedId(r: Record): (e: Option<string>)
    ensures e.Some? ==> e.value != "" && Tagged(r, e.value)
  {
    if r.meta.None? then None
    else match r.meta.value.expertId
      case None => None
      case Some(e) => if e == "" then None else Some(e)
  }

  /** `expert_map` together with its key insertion order. */
  datatype Aggregation = Aggregation(ids: seq<string>, byId: map<string, ExpertSummary>)

  predicate Distinct(ids: seq<string>)
  {
    forall i, j :: 0 <= i < j < |ids| ==> ids[i] != ids[j]
  }

  /** One more document in `b`: the total and exactly one bucket go up by one. */
  function Tally(entry: ExpertSummary, b: Bucket): (r: ExpertSummary)
    ensures r.expertId == entry.expertId && r.topic == entry.topic && r.docCount == entry.docCount + 1
    ensures r.articles + r.patents + r.news == entry.articles + entry.patents + entry.news + 1
    ensures r.articles == entry.articles + (if b == Articles then 1 else 0)
    ensures r.patents == entry.patents + (if b == Patents then 1 else 0)
  {
    var bumped := entry.(docCount := entry.docCount + 1);
    match b
    case Articles => bumped.(articles := bumped.articles + 1)
    case Patents => bumped.(patents := bumped.patents + 1)
    case News => bumped.(news := bumped.news + 1)
  }

  /** The body of the listing loop for one record. */
  function Step(a: Aggregation, r: Record): Aggregation
  {
    match ListedId(r)
    case None => a
    case Some(e) =>
      var cur := if e in a.byId then a.byId[e]
                 else ExpertSummary(e, r.meta.value.topic.GetOr("Unknown"), 0, 0, 0, 0);
      Aggregation(if e in a.byId then a.ids else a.ids + [e],
                  a.byId[e := Tally(cur, Classify(r.meta.value.source.GetOr("")))])
  }

  /**
    The map after scanning `rs`: its keys in insertion order are distinct and
    are exactly the map's keys, and each entry's document count is the sum of
    its three buckets.
  */
  function Aggregate(rs: seq<Record>): (a: Aggregation)
    ensures Distinct(a.ids)
    ensures forall e :: e in a.ids <==> e in a.byId
    ensures forall e :: e in a.byId ==> a.byId[e].expertId == e
    ensures forall e :: e in a.byId ==>
      a.byId[e].docCount == a.byId[e].articles + a.byId[e].patents + a.byId[e].news
  {
    if rs == [] then Aggregation([], map[]) else Step(Aggregate(rs[..|rs| - 1]), rs[|rs| - 1])
  }

  lemma AggregateSnoc(rs: seq<Record>, i: nat)
    requires i < |rs|
    ensures Aggregate(rs[..i + 1]) == Step(Aggregate(rs[..i]), rs[i])
  {
    PrefixSnoc(rs, i);
    assert rs[..i + 1][i] == rs[i];
  }

  lemma StepListed(a: Aggregation, r: Record, e: string)
    requires ListedId(r) == Some(e)
    ensures Step(a, r) == Aggregation(
      if e in a.byId then a.ids else a.ids + [e],
      a.byId[e := Tally(if e in a.byId then a.byId[e] else ExpertSummary(e, r.meta.value.topic.GetOr("Unknown"), 0, 0, 0, 0),
                        Classify(r.meta.value.source.GetOr("")))])
  {
  }

  /** What `list_experts` returns: the map's values in insertion order. */
  function Listing(rs: seq<Record>): (r: seq<ExpertSummary>)
    ensures |r| == |Aggregate(rs).ids|
    ensures forall k :: 0 <= k < |r| ==> r[k].expertId == Aggregate(rs).ids[k]
  {
    var a := Aggregate(rs);
    seq(|a.ids|, k requires 0 <= k < |a.ids| => a.byId[a.ids[k]])
  }

  /** An id is listed iff some record is counted under it. */
  lemma {:induction false} AggregateKeys(rs: seq<Record>, e: string)
    ensures e in Aggregate(rs).byId <==> exists i :: 0 <= i < |rs| && ListedId(rs[i]) == Some(e)
    decreases |rs|
  {
    if rs != [] {
      var init := rs[..|rs| - 1];
      AggregateKeys(init, e);
      if e in Aggregate(init).byId {
        var i :| 0 <= i < |init| && ListedId(init[i]) == Some(e);
        assert rs[i] == init[i];
      }
      if exists i :: 0 <= i < |rs| && ListedId(rs[i]) == Some(e) {
        var i :| 0 <= i < |rs| && ListedId(rs[i]) == Some(e);
        if i < |init| {
          assert init[i] == rs[i];
        }
      }
    }
  }

  /** Number of records counted under `e`. */
  function CountListed(rs: seq<Record>, e: string): nat
  {
    if rs == [] then 0
    else CountListed(rs[..|rs| - 1], e) + (if ListedId(rs[|rs| - 1]) == Some(e) then 1 else 0)
  }

  /** Each listed entry counts exactly the records of its partition. */
  lemma {:induction false} AggregateCounts(rs: seq<Record>, e: string)
    requires e in Aggregate(rs).byId
    ensures Aggregate(rs).byId[e].docCount == CountListed(rs, e)
    ensures e != "" ==> CountListed(rs, e) == CountTagged(rs, e)
    decreases |rs|
  {
    var init := rs[..|rs| - 1];
    if e in Aggregate(init).byId {
      AggregateCounts(init, e);
    } else {
      AggregateKeys(init, e);
      CountListedZero(init, e);
    }
    TaggedListed(rs, e);
  }

  lemma {:induction false} CountListedZero(rs: seq<Record>, e: string)
    requires forall i :: 0 <= i < |rs| ==> ListedId(rs[i]) != Some(e)
    ensures CountListed(rs, e) == 0
    decreases |rs|
  {
    if rs != [] {
      CountListedZero(rs[..|rs| - 1], e);
    }
  }

  /** For a non-empty id, being counted under it is being tagged with it. */
  lemma {:induction false} TaggedListed(rs: seq<Record>, e: string)
    ensures e != "" ==> CountListed(rs, e) == CountTagged(rs, e)
    decreases |rs|
  {
    if rs != [] {
      TaggedListed(rs[..|rs| - 1], e);
    }
  }

  /** Each listed entry's topic is that of the first record of its partition ("Unknown" if it has none). */
  lemma {:induction false} AggregateTopic(rs: seq<Record>, e: string)
    requires e in Aggregate(rs).byId
    ensures FirstTagged(rs, e).Some?
    ensures Aggregate(rs).byId[e].topic == rs[FirstTagged(rs, e).value].meta.value.topic.GetOr("Unknown")
    decreases |rs|
  {
    var init := rs[..|rs| - 1];
    AggregateKeys(rs, e);
    if e in Aggregate(init).byId {
      AggregateTopic(init, e);
      var k := FirstTagged(init, e).value;
      FirstTaggedPrefix(rs, e, k);
      assert rs[k] == init[k];
      assert Aggregate(rs).byId[e].topic == Aggregate(init).byId[e].topic;
    } else {
      AggregateKeys(init, e);
      assert ListedId(rs[|rs| - 1]) == Some(e);
      forall j | 0 <= j < |init| ensures !Tagged(rs[j], e) {
        assert rs[j] == init[j];
        assert ListedId(init[j]) != Some(e);
      }
    }
  }

  lemma FirstTaggedPrefix(rs: seq<Record>, e: string, k: nat)
    requires k < |rs| - 1 && FirstTagged(rs[..|rs| - 1], e) == Some(k)
    ensures FirstTagged(rs, e) == Some(k)
  {
    var init := rs[..|rs| - 1];
    assert Tagged(init[k], e) && rs[k] == init[k];
    forall j | 0 <= j < k
      ensures !Tagged(rs[j], e)
    {
      assert rs[j] == init[j];
    }
    var r := FirstTagged(rs, e);
    assert r.Some? by {
      assert Tagged(rs[k], e);
    }
    assert !(r.value < k) && !(r.value > k) by {
      assert Tagged(rs[r.value], e);
    }
  }

  // ---------------------------------------------------------------------------
  // Expert numbering

  /** `N` for an id of the exact form "expert_" followed by one or more ASCII digits. */
  function ExpertNumber(eid: string): (n: Option<nat>)
    ensures n.Some? ==> |eid| > 7 && eid[..7] == "expert_" && AllDigits(eid[7..])
                        && n.value == ParseDigits(eid[7..])
  {
    if |eid| > 7 && eid[..7] == "expert_" && AllDigits(eid[7..]) then Some(ParseDigits(eid[7..])) else None
  }

  /** The largest expert number among `ids`, 0 when there is none. */
  function MaxNumber(ids: seq<string>): (m: nat)
    ensures forall k :: 0 <= k < |ids| && ExpertNumber(ids[k]).Some? ==> ExpertNumber(ids[k]).value <= m
    ensures m == 0 || exists k :: 0 <= k < |ids| && ExpertNumber(ids[k]) == Some(m)
  {
    if ids == [] then 0
    else
      var m := MaxNumber(ids[..|ids| - 1]);
      assert forall k :: 0 <= k < |ids| - 1 ==> ids[..|ids| - 1][k] == ids[k];
      match ExpertNumber(ids[|ids| - 1])
      case Some(n) => if n > m then n else m
      case None => m
  }

  lemma MaxNumberStep(ids: seq<string>, k: nat)
    requires k < |ids|
    ensures MaxNumber(ids[..k + 1]) == match ExpertNumber(ids[k])
      case Some(n) => if n > MaxNumber(ids[..k]) then n else MaxNumber(ids[..k])
      case None => MaxNumber(ids[..k])
  {
    assert ids[..k + 1][..k] == ids[..k];
  }

  /** "expert_" followed by the decimal rendering of `n`. */
  function ExpertId(n: nat): (id: string)
    ensures ExpertNumber(id) == Some(n)
  {
    var digits := NatToString(n);
    var id := "expert_" + digits;
    assert id[..7] == "expert_" && id[7..] == digits;
    ParseNatToString(n);
    id
  }

  // ---------------------------------------------------------------------------
  // The store

  class VectorStore {
    var records: seq<Record>

    constructor (initial: seq<Record>)
      ensures records == initial
    {
      records := initial;
    }

    /** `expert_exists`: some record carries `expertId`. */
    function ExpertExists(expertId: string): (b: bool)
      reads this
      ensures b <==> exists i :: 0 <= i < |records| && Tagged(records[i], expertId)
      ensures b <==> CountTagged(records, expertId) > 0
    {
      FirstTagged(records, expertId).Some?
    }

    /**
      `get_expert_topic`: the topic stored on the first record of the
      partition (the one a `limit=1` lookup returns), `None` when the
      partition is empty or that record carries no topic.
    */
    function GetExpertTopic(expertId: string): (r: Option<string>)
      reads this
      ensures !ExpertExists(expertId) ==> r.None?
      ensures r.Some? ==> exists i :: 0 <= i < |records| && Tagged(records[i], expertId)
                                       && records[i].meta.value.topic == r
      ensures ExpertExists(expertId) ==>
                exists i :: 0 <= i < |records| && Tagged(records[i], expertId)
                            && (forall j :: 0 <= j < i ==> !Tagged(records[j], expertId))
                            && r == records[i].meta.value.topic
    {
      match FirstTagged(records, expertId)
      case None => None
      case Some(i) => records[i].meta.value.topic
    }

    /**
      `add_expert_knowledge`: one document per paper, appended in order and
      tagged with the partition and the topic; nothing is deduplicated.
    */
    method AddExpertKnowledge(papers: seq<Paper>, expertId: string, topic: string)
      modifies this
      ensures records == old(records) + Documents(papers, expertId, topic)
      ensures CountTagged(records, expertId) == old(CountTagged(records, expertId)) + |papers|
    {
      var documents: seq<Record> := [];
      for i := 0 to |papers|
        invariant documents == Documents(papers[..i], expertId, topic)
      {
        documents := documents + [ToDocument(papers[i], expertId, topic)];
      }
      assert papers[..|papers|] == papers;
      if documents != [] {
        records := records + documents;
      }
      CountTaggedAppend(old(records), documents, expertId);
      DocumentsAllTagged(papers, expertId, topic);
    }

    /**
      `delete_expert`: `false` and no change when the partition is unknown;
      otherwise every record of the partition is removed, all others are kept
      in order, and `true` is returned.
    */
    method DeleteExpert(expertId: string) returns (deleted: bool)
      modifies this
      ensures deleted == old(ExpertExists(expertId))
      ensures records == Without(old(records), expertId)
      ensures !deleted ==> records == old(records)
      ensures !ExpertExists(expertId)
    {
      if !ExpertExists(expertId) {
        WithoutUnused(records, expertId);
        return false;
      }
      records := Without(records, expertId);
      return true;
    }

    /** `list_experts`: one summary per distinct non-empty id, in order of first appearance. */
    method ListExperts() returns (experts: seq<ExpertSummary>)
      ensures experts == Listing(records)
    {
      var ids: seq<string> := [];
      var expertMap: map<string, ExpertSummary> := map[];
      for i := 0 to |records|
        invariant Aggregation(ids, expertMap) == Aggregate(records[..i])
      {
        AggregateSnoc(records, i);
        var r := records[i];
        ghost var prev := Aggregation(ids, expertMap);
        if r.meta.None? {
          assert ListedId(r).None?;
          continue;
        }
        var meta := r.meta.value;
        if meta.expertId.None? || meta.expertId.value == "" {
          assert ListedId(r).None?;
          continue;
        }
        var e := meta.expertId.value;
        StepListed(prev, r, e);
        ghost var before := expertMap;
        if e !in expertMap {
          expertMap := expertMap[e := ExpertSummary(e, meta.topic.GetOr("Unknown"), 0, 0, 0, 0)];
          ids := ids + [e];
        }
        ghost var cur := expertMap[e];
        var source := meta.source.GetOr("");
        expertMap := expertMap[e := Tally(expertMap[e], Classify(source))];
        if e !in before {
          MapOverwrite(before, e, cur, Tally(cur, Classify(source)));
        }
        assert Aggregation(ids, expertMap) == Step(prev, r);
      }
      if |records| > 0 { PrefixSnoc(records, 0); }
      experts := seq(|ids|, k requires 0 <= k < |ids| => expertMap[ids[k]]);
    }

    /**
      `generate_next_expert_id`: "expert_" + (1 + the largest N over listed ids
      of the form "expert_N"), "expert_1" when there is none.
    */
    method GenerateNextExpertId() returns (id: string)
      ensures id == ExpertId(MaxNumber(Aggregate(records).ids) + 1)
    {
      var experts := ListExperts();
      var maxId := 0;
      ghost var ids := Aggregate(records).ids;
      for k := 0 to |experts|
        invariant maxId == MaxNumber(ids[..k])
      {
        MaxNumberStep(ids, k);
        var eid := experts[k].expertId;
        if |eid| > 7 && eid[..7] == "expert_" && AllDigits(eid[7..]) {
          var num := ParseDigits(eid[7..]);
          if num > maxId {
            maxId := num;
          }
        }
      }
      if |ids| > 0 { PrefixSnoc(ids, 0); }
      id := "expert_" + NatToString(maxId + 1);
    }
  }

  /** An id numbered above the largest listed number is not among the listed ids. */
  lemma AboveMaxNotListed(ids: seq<string>, m: nat)
    requires m > MaxNumber(ids)
    ensures ExpertId(m) !in ids
  {
    var next := ExpertId(m);
    forall k | 0 <= k < |ids|
      ensures ids[k] != next
    {
      if ExpertNumber(ids[k]).Some? {
        assert ExpertNumber(ids[k]).value <= MaxNumber(ids);
      }
    }
  }

  /** An id the listing does not contain is the id of no record. */
  lemma NotListedUnused(rs: seq<Record>, e: string, i: nat)
    requires i < |rs| && e !in Aggregate(rs).ids
    ensures ListedId(rs[i]) != Some(e)
  {
    AggregateKeys(rs, e);
  }

  /**
    Any id numbered above every listed number, in particular the one
    `generate_next_expert_id` returns, is not the id of any stored record.
  */
  lemma NextIdIsFresh(rs: seq<Record>, i: nat, m: nat)
    requires i < |rs| && m > MaxNumber(Aggregate(rs).ids)
    ensures ListedId(rs[i]) != Some(ExpertId(m))
  {
    AboveMaxNotListed(Aggregate(rs).ids, m);
    NotListedUnused(rs, ExpertId(m), i);
  }
}
