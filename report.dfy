/**
  The report generator (`src/report_generator.py`, and its copy with the CSV
  export in `src/layer3/report_generator.py`): the file-name-safe topic, the
  transcript handed to the reporting model, the model's HTML with its code
  fences removed, the transcript appendix with each speaker's style, and the
  raw-data CSV export.

  The reporting model is a function from the prompt's parts to its reply
  (`None` when the call raises); Markdown conversion and the HTML template of
  one appendix block are functions too.  The clock is the `timestamp`
  parameter; writing the files is not modelled, the file name and contents
  are returned instead.
*/
module Report {
  import opened Wrappers
  import opened Text
  import opened Debate
  import CsvRows

  const OutputDir: string := "results"

  // ---------------------------------------------------------------------------
  // safe_topic

  /** Every non-alphanumeric character replaced by '_'. */
  function Sanitize(topic: string): (r: string)
    ensures |r| == |topic|
    ensures forall i :: 0 <= i < |r| ==> IsAsciiAlnum(r[i]) || r[i] == '_'
    ensures forall i :: 0 <= i < |r| && IsAsciiAlnum(topic[i]) ==> r[i] == topic[i]
  {
    seq(|topic|, i requires 0 <= i < |topic| => if IsAsciiAlnum(topic[i]) then topic[i] else '_')
  }

  /** `re.sub('_+', '_', s)`: every run of underscores becomes one. */
  function CollapseUnderscores(s: string): (r: string)
    ensures |r| <= |s|
    ensures forall x :: x in r ==> x in s
    ensures |s| > 0 ==> |r| > 0 && r[0] == s[0]
    ensures forall i :: 0 <= i < |r| - 1 ==> !(r[i] == '_' && r[i + 1] == '_')
  {
    if |s| < 2 then s
    else if s[0] == '_' && s[1] == '_' then CollapseUnderscores(s[1..])
    else
      var rest := CollapseUnderscores(s[1..]);
      assert forall x :: x in [s[0]] + rest ==> x in s;
      [s[0]] + rest
  }

  /** The safe topic of a file name: sanitised, '_' stripped, runs collapsed, cut to 50. */
  function SafeTopic(topic: string): (r: string)
    ensures |r| <= 50
    ensures forall i :: 0 <= i < |r| ==> IsAsciiAlnum(r[i]) || r[i] == '_'
    ensures forall i :: 0 <= i < |r| - 1 ==> !(r[i] == '_' && r[i + 1] == '_')
    ensures |r| > 0 ==> r[0] != '_'
  {
    var sanitized := Sanitize(topic);
    var stripped := StripChars(sanitized, {'_'});
    var collapsed := CollapseUnderscores(stripped);
    assert forall x :: x in collapsed ==> IsAsciiAlnum(x) || x == '_' by {
      forall x | x in collapsed ensures IsAsciiAlnum(x) || x == '_' {
        assert x in stripped;
        assert x in sanitized;
      }
    }
    var r := Take(collapsed, 50);
    assert forall i :: 0 <= i < |r| ==> r[i] == collapsed[i];
    assert forall i :: 0 <= i < |r| ==> r[i] in collapsed;
    r
  }

  /** The alphanumeric characters of a text, in order. */
  function AlnumChars(s: string): string
  {
    if s == [] then [] else (if IsAsciiAlnum(s[0]) then [s[0]] else []) + AlnumChars(s[1..])
  }

  lemma {:induction false} SanitizeKeepsAlnums(topic: string)
    ensures RemoveChar(Sanitize(topic), '_') == AlnumChars(topic)
    decreases |topic|
  {
    if topic != [] {
      assert Sanitize(topic)[1..] == Sanitize(topic[1..]);
      SanitizeKeepsAlnums(topic[1..]);
    }
  }

  lemma {:induction false} TrimStartKeepsOthers(s: string, c: char)
    ensures RemoveChar(TrimStart(s, {c}), c) == RemoveChar(s, c)
    decreases |s|
  {
    if |s| > 0 && s[0] == c {
      assert c in {c};
      assert TrimStart(s, {c}) == TrimStart(s[1..], {c});
      assert RemoveChar(s, c) == [] + RemoveChar(s[1..], c) == RemoveChar(s[1..], c);
      TrimStartKeepsOthers(s[1..], c);
    } else {
      assert TrimStart(s, {c}) == s;
    }
  }

  lemma {:induction false} TrimEndKeepsOthers(s: string, c: char)
    ensures RemoveChar(TrimEnd(s, {c}), c) == RemoveChar(s, c)
    decreases |s|
  {
    if |s| > 0 && s[|s| - 1] == c {
      var init := s[..|s| - 1];
      TrimEndKeepsOthers(init, c);
      assert s == init + [c];
      RemoveCharConcat(init, [c], c);
    }
  }

  lemma {:induction false} CollapseKeepsOthers(s: string)
    ensures RemoveChar(CollapseUnderscores(s), '_') == RemoveChar(s, '_')
    decreases |s|
  {
    if |s| >= 2 {
      CollapseKeepsOthers(s[1..]);
      if !(s[0] == '_' && s[1] == '_') {
        var rest := CollapseUnderscores(s[1..]);
        assert ([s[0]] + rest)[1..] == rest;
      }
    }
  }

  /**
    Up to the cut at 50 characters, the safe topic keeps every alphanumeric
    character of the topic, in order: only underscores are added or dropped.
  */
  lemma SafeTopicKeepsContent(topic: string)
    requires |topic| <= 50
    ensures RemoveChar(SafeTopic(topic), '_') == AlnumChars(topic)
  {
    var sanitized := Sanitize(topic);
    SanitizeKeepsAlnums(topic);
    var trimmed := TrimStart(sanitized, {'_'});
    TrimStartKeepsOthers(sanitized, '_');
    TrimEndKeepsOthers(trimmed, '_');
    var stripped := StripChars(sanitized, {'_'});
    CollapseKeepsOthers(stripped);
  }

  lemma {:induction false} CollapseNoUnderscore(s: string)
    requires '_' !in s
    ensures CollapseUnderscores(s) == s
    decreases |s|
  {
    if |s| >= 2 {
      assert s[0] in s;
      assert forall x :: x in s[1..] ==> x in s;
      CollapseNoUnderscore(s[1..]);
    }
  }

  /** A topic of at most 50 alphanumerics is its own safe topic. */
  lemma SafeTopicOfAlnums(topic: string)
    requires |topic| <= 50 && forall i :: 0 <= i < |topic| ==> IsAsciiAlnum(topic[i])
    ensures SafeTopic(topic) == topic
  {
    var sanitized := Sanitize(topic);
    assert sanitized == topic;
    assert '_' !in topic by {
      forall i | 0 <= i < |topic| ensures topic[i] != '_' {
        assert IsAsciiAlnum(topic[i]);
      }
    }
    assert TrimStart(topic, {'_'}) == topic;
    assert TrimEnd(topic, {'_'}) == topic;
    CollapseNoUnderscore(topic);
  }

  // ---------------------------------------------------------------------------
  // The model's HTML and the appendix

  /** `.replace("```html", "").replace("```", "")`. */
  function StripFences(html: string): string
  {
    Replace(Replace(html, "```html", ""), "```", "")
  }

  lemma ReplaceAbsentChar(s: string, pat: string, with: string)
    requires |pat| > 0 && pat[0] !in s
    ensures Replace(s, pat, with) == s
  {
    forall j | 0 <= j < |s| ensures !OccursAt(s, pat, j) {
      assert s[j] in s;
      if j + |pat| <= |s| {
        assert s[j..j + |pat|][0] == s[j];
      }
    }
  }

  /** Output without a backtick passes the fence removal unchanged. */
  lemma StripFencesNoBacktick(html: string)
    requires '`' !in html
    ensures StripFences(html) == html
  {
    ReplaceAbsentChar(html, "```html", "");
    ReplaceAbsentChar(html, "```", "");
  }

  /** Text free of the pattern's first character, then the pattern: the cut is right after that text. */
  lemma ReplaceAfterFree(a: string, pat: string, b: string, with: string)
    requires |pat| > 0 && pat[0] !in a
    ensures Replace(a + pat + b, pat, with) == a + with + Replace(b, pat, with)
  {
    var s := a + pat + b;
    forall j | 0 <= j < |a| ensures !OccursAt(s, pat, j) {
      assert s[j] == a[j] && a[j] in a;
      if j + |pat| <= |s| {
        assert s[j..j + |pat|][0] == s[j];
      }
    }
    MiddleSlice(a, pat, b);
    IndexOfIs(s, pat, |a|);
  }

  /**
    The usual shape of the model's reply, an HTML body wrapped in a
    "```html" ... "```" fence, comes out as the bare body.
  */
  lemma {:induction false} StripFencesWrapped(body: string)
    requires '`' !in body
    ensures StripFences("```html" + body + "```") == body
  {
    var inner := body + "```";
    var fenced := "```html" + body + "```";
    assert fenced == "" + "```html" + inner;
    ReplaceAfterFree("", "```html", inner, "");
    forall j ensures !OccursAt(inner, "```html", j) {
      if 0 <= j < |body| && j + 7 <= |inner| {
        assert inner[j..j + 7][0] == body[j] && body[j] in body;
      }
    }
    assert Replace(inner, "```html", "") == inner;
    assert Replace(fenced, "```html", "") == inner;
    assert inner == body + "```" + "";
    ReplaceAfterFree(body, "```", "", "");
    assert Replace("", "```", "") == "";
  }

  /** The appendix before every "</body>", or at the end when there is none. */
  function InsertAppendix(html: string, appendix: string): (r: string)
    ensures !Contains(html, "</body>") ==> r == html + appendix
    ensures Contains(html, "</body>") ==> r == Join(Split(html, "</body>"), appendix + "</body>")
  {
    if Contains(html, "</body>") then
      ReplaceIsSplitJoin(html, "</body>", appendix + "</body>");
      Replace(html, "</body>", appendix + "</body>")
    else html + appendix
  }

  /** A page with one "</body>" gets the appendix right before it, nothing else changes. */
  lemma AppendixBeforeBodyEnd(html: string, appendix: string, i: nat)
    requires IndexOf(html, "</body>") == Some(i)
    requires !Contains(html[i + 7..], "</body>")
    ensures InsertAppendix(html, appendix) == html[..i] + appendix + html[i..]
  {
    var rest := html[i + 7..];
    assert Contains(html, "</body>");
    assert Split(rest, "</body>") == [rest];
    assert Split(html, "</body>") == [html[..i]] + Split(rest, "</body>");
    var front := html[..i];
    assert Join([front, rest], appendix + "</body>") == front + (appendix + "</body>") + rest;
    AppendAssoc(front, appendix, "</body>");
    AppendAssoc(front + appendix, "</body>", rest);
    assert OccursAt(html, "</body>", i);
    SliceConcat(html, i, i + 7);
  }

  // ---------------------------------------------------------------------------
  // Speakers

  /** The speaker shown: the message's name, else by message type. */
  function SpeakerName(m: Message): (r: string)
    ensures m.name.Some? && m.name.value != "" ==> r == m.name.value
    ensures (m.name.None? || m.name.value == "") && m.role == AiRole ==> r == "System / Moderator"
    ensures (m.name.None? || m.name.value == "") && m.role != AiRole ==> r == "System"
  {
    if m.name.Some? && m.name.value != "" then m.name.value
    else if m.role == AiRole then "System / Moderator" else "System"
  }

  datatype Style = OptimistStyle | SkepticStyle | CompetitorStyle | ModeratorStyle | DefaultStyle

  /** The colour of a style. */
  function Color(s: Style): string
  {
    match s
    case OptimistStyle => "#27ae60"
    case SkepticStyle => "#c0392b"
    case CompetitorStyle => "#d35400"
    case ModeratorStyle => "#8e44ad"
    case DefaultStyle => "#34495e"
  }

  /** The first match among Optimist, Skeptic, Competitor, Maestro-or-Mod; else the default. */
  function SpeakerStyle(speaker: string): (s: Style)
    ensures s == OptimistStyle <==> Contains(speaker, "Optimist")
    ensures s == SkepticStyle <==> !Contains(speaker, "Optimist") && Contains(speaker, "Skeptic")
    ensures s == CompetitorStyle <==>
      !Contains(speaker, "Optimist") && !Contains(speaker, "Skeptic") && Contains(speaker, "Competitor")
    ensures s == DefaultStyle <==>
      !Contains(speaker, "Optimist") && !Contains(speaker, "Skeptic") && !Contains(speaker, "Competitor")
      && !Contains(speaker, "Maestro") && !Contains(speaker, "Mod")
  {
    if Contains(speaker, "Optimist") then OptimistStyle
    else if Contains(speaker, "Skeptic") then SkepticStyle
    else if Contains(speaker, "Competitor") then CompetitorStyle
    else if Contains(speaker, "Maestro") || Contains(speaker, "Mod") then ModeratorStyle
    else DefaultStyle
  }

  /** A name holding "Mod" and no earlier keyword gets the moderator style. */
  lemma ModSpeakerStyle(speaker: string, i: nat)
    requires OccursAt(speaker, "Mod", i)
    requires !Contains(speaker, "Optimist") && !Contains(speaker, "Skeptic") && !Contains(speaker, "Competitor")
    ensures SpeakerStyle(speaker) == ModeratorStyle
  {
    ContainsAt(speaker, "Mod", i);
  }

  // ---------------------------------------------------------------------------
  // The transcript for the model

  /** `"[AI]: …\n\n"` for model messages, `"[User/System]: …\n\n"` for the rest. */
  function TranscriptEntry(m: Message): string
  {
    "[" + (if m.role == AiRole then "AI" else "User/System") + "]: " + m.content + "\n\n"
  }

  /** The transcript: the messages' entries, in order. */
  function Transcript(ms: seq<Message>): string
  {
    if |ms| == 0 then "" else Transcript(ms[..|ms| - 1]) + TranscriptEntry(ms[|ms| - 1])
  }

  /** The transcript of a concatenation is the concatenation of the transcripts. */
  lemma {:induction false} TranscriptAppend(a: seq<Message>, b: seq<Message>)
    ensures Transcript(a + b) == Transcript(a) + Transcript(b)
    decreases |b|
  {
    if |b| == 0 {
      assert a + b == a;
    } else {
      var init := b[..|b| - 1];
      var last := b[|b| - 1];
      TranscriptAppend(a, init);
      var ab := a + b;
      assert ab[..|ab| - 1] == a + init;
      assert ab[|ab| - 1] == last;
      assert Transcript(ab) == Transcript(a + init) + TranscriptEntry(last);
      assert Transcript(b) == Transcript(init) + TranscriptEntry(last);
      AppendAssoc(Transcript(a), Transcript(init), TranscriptEntry(last));
    }
  }

  /** The transcript loop with `+=`. */
  method BuildTranscript(messages: seq<Message>) returns (transcript: string)
    ensures transcript == Transcript(messages)
  {
    transcript := "";
    for i := 0 to |messages|
      invariant transcript == Transcript(messages[..i])
    {
      PrefixSnoc(messages, i);
      transcript := transcript + TranscriptEntry(messages[i]);
    }
    assert messages[..|messages|] == messages;
  }

  /** `transcript[:15000]`: at most 15000 characters, a prefix, the whole when short enough. */
  function PromptExcerpt(transcript: string): (r: string)
    ensures |r| <= 15000 && |r| <= |transcript| && r == transcript[..|r|]
    ensures |transcript| <= 15000 ==> r == transcript
  {
    Take(transcript, 15000)
  }

  const NoStats: string := "No data statistics provided."

  /** One `- k: v documents` line per statistic, or the default when there are none. */
  function StatsText(stats: Option<seq<(string, string)>>): (r: string)
    ensures stats.None? || stats == Some([]) <==> r == NoStats
    ensures stats.Some? && stats.value != [] ==> |r| >= 2 && r[..2] == "- "
  {
    if stats.None? || stats.value == [] then NoStats
    else
      var lines := StatLines(stats.value);
      var r := Join(lines, "\n");
      JoinStartsWithFirst(lines, "\n");
      assert lines[0][..2] == "- ";
      assert r[..2] == "- ";
      assert NoStats[0] == 'N' && r[0] == '-';
      r
  }

  /** The line of one statistic. */
  function StatLine(stat: (string, string)): string
  {
    "- " + stat.0 + ": " + stat.1 + " documents"
  }

  function StatLines(stats: seq<(string, string)>): (lines: seq<string>)
    ensures |lines| == |stats| && forall k :: 0 <= k < |stats| ==> lines[k] == StatLine(stats[k])
  {
    seq(|stats|, k requires 0 <= k < |stats| => StatLine(stats[k]))
  }

  /**
    With keys and values free of line breaks, the statistics text has exactly
    one line per statistic, in order, each `- k: v documents`.
  */
  lemma StatsLines(stats: seq<(string, string)>)
    requires stats != []
    requires forall k :: 0 <= k < |stats| ==> '\n' !in stats[k].0 && '\n' !in stats[k].1
    ensures var lines := Split(StatsText(Some(stats)), "\n");
      |lines| == |stats| && forall k :: 0 <= k < |stats| ==> lines[k] == StatLine(stats[k])
  {
    var lines := StatLines(stats);
    forall k | 0 <= k < |stats|
      ensures '\n' !in lines[k]
    {
      assert lines[k] == "- " + stats[k].0 + (": " + stats[k].1 + " documents");
      assert '\n' !in "- " && '\n' !in ": " && '\n' !in " documents";
    }
    assert StatsText(Some(stats)) == Join(lines, "\n");
    SplitJoinChar(lines, '\n');
  }

  lemma JoinStartsWithFirst(parts: seq<string>, sep: string)
    requires |parts| > 0
    ensures |Join(parts, sep)| >= |parts[0]| && Join(parts, sep)[..|parts[0]|] == parts[0]
  {
  }

  // ---------------------------------------------------------------------------
  // The appendix

  /** What one appendix block shows: its colour, the speaker and the converted content. */
  datatype Block = Block(color: string, speaker: string, contentHtml: string)

  function BlockOf(m: Message, markdown: string -> string): (b: Block)
    ensures b.speaker == SpeakerName(m) && b.color == Color(SpeakerStyle(SpeakerName(m)))
  {
    var speaker := SpeakerName(m);
    Block(Color(SpeakerStyle(speaker)), speaker, markdown(m.content))
  }

  /** The heading and frame the blocks are placed in (their markup attributes are not modelled). */
  const AppendixOpen: string := "<hr><h2>Appendix: Full Debate Transcript</h2><div>"

  /** The rendered blocks of the messages, in order. */
  function Blocks(ms: seq<Message>, markdown: string -> string, render: Block -> string): string
  {
    if |ms| == 0 then "" else Blocks(ms[..|ms| - 1], markdown, render) + render(BlockOf(ms[|ms| - 1], markdown))
  }

  /** The appendix loop: one block per message, then the closing tag. */
  method BuildAppendix(messages: seq<Message>, markdown: string -> string, render: Block -> string)
    returns (html: string)
    ensures html == AppendixOpen + Blocks(messages, markdown, render) + "</div>"
  {
    html := AppendixOpen;
    for i := 0 to |messages|
      invariant html == AppendixOpen + Blocks(messages[..i], markdown, render)
    {
      PrefixSnoc(messages, i);
      var speaker := SpeakerName(messages[i]);
      var color := Color(SpeakerStyle(speaker));
      ghost var block := render(Block(color, speaker, markdown(messages[i].content)));
      assert Blocks(messages[..i + 1], markdown, render) == Blocks(messages[..i], markdown, render) + block;
      AppendAssoc(AppendixOpen, Blocks(messages[..i], markdown, render), block);
      html := html + render(Block(color, speaker, markdown(messages[i].content)));
    }
    assert messages[..|messages|] == messages;
    html := html + "</div>";
  }

  // ---------------------------------------------------------------------------
  // generate_report

  /** What the reporting model is asked with: the topic, the statistics text and the transcript excerpt. */
  datatype Prompt = Prompt(topic: string, stats: string, transcript: string)

  datatype ReportFile = ReportFile(name: string, html: string)

  /**
    `generate_report`: `None` when the model call fails; otherwise the file
    `results/<timestamp>_<safe topic>.html` holding the model's HTML without
    fences, with the transcript appendix inserted.
  */
  method GenerateReport(topic: Option<string>, messages: seq<Message>, stats: Option<seq<(string, string)>>,
                        llm: Prompt -> Option<string>, markdown: string -> string, render: Block -> string,
                        timestamp: string)
    returns (report: Option<ReportFile>)
    ensures var t := topic.GetOr("Unknown Topic");
      var prompt := Prompt(t, StatsText(stats), PromptExcerpt(Transcript(messages)));
      && (report.None? <==> llm(prompt).None?)
      && (report.Some? ==>
          && report.value.name == OutputDir + "/" + timestamp + "_" + SafeTopic(t) + ".html"
          && report.value.html == InsertAppendix(StripFences(llm(prompt).value),
                                                 AppendixOpen + Blocks(messages, markdown, render) + "</div>"))
  {
    var t := topic.GetOr("Unknown Topic");
    var transcript := BuildTranscript(messages);
    var reply := llm(Prompt(t, StatsText(stats), PromptExcerpt(transcript)));
    if reply.None? {
      return None;
    }
    var safe := SafeTopic(t);
    var name := OutputDir + "/" + timestamp + "_" + safe + ".html";
    var html := StripFences(reply.value);
    var appendix := BuildAppendix(messages, markdown, render);
    html := InsertAppendix(html, appendix);
    report := Some(ReportFile(name, html));
  }

  // ---------------------------------------------------------------------------
  // export_data_collection_csv

  datatype CsvFile = CsvFile(name: string, rows: seq<CsvRows.CsvRow>)

  /**
    `export_data_collection_csv`: `None` for no data; otherwise the file
    `results/raw_data_<timestamp>_<safe topic>.csv` with one row per item.
  */
  method ExportDataCollectionCsv(gathered: seq<CsvRows.Item>, topic: string, timestamp: string)
    returns (file: Option<CsvFile>)
    ensures file.None? <==> gathered == []
    ensures file.Some? ==> file.value.name == OutputDir + "/raw_data_" + timestamp + "_" + SafeTopic(topic) + ".csv"
    ensures file.Some? ==> |file.value.rows| == |gathered|
    ensures file.Some? ==> forall i :: 0 <= i < |gathered| ==> file.value.rows[i] == CsvRows.ExportRow(gathered[i])
  {
    if gathered == [] {
      return None;
    }
    var rows := CsvRows.ExportRows(gathered);
    var name := OutputDir + "/raw_data_" + timestamp + "_" + SafeTopic(topic) + ".csv";
    file := Some(CsvFile(name, rows));
  }
}
