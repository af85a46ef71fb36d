# VirtualTechExperts RAG pipeline — a Dafny model of its core

The system builds "virtual experts" for a research topic. Its first layer
gathers papers, patents and news. This goes through a query optimiser, which
turns the topic into quoted key phrases, and through the OpenAlex, EPO and
USPTO (PatentsView) clients. The second layer stores the documents in a
vector store, each partition tagged with an `expert_N` id. The third layer
runs a multi-persona debate over that knowledge as a state graph in three
modes, renders an HTML report of it, and exports the raw data as CSV. A
separate planner prototype (`Project_plan/ref_query_refiner.py`) uses the
same phrase extraction and OpenAlex fetch to draft research ideas.

This project models that logic in Dafny and proves its properties. It
verifies together with every module:

| file | module | models |
|---|---|---|
| `wrappers.dfy` | `Wrappers` | `Option`; `HttpReply` (an exchange that failed, or a status and a body) |
| `text.dfy` | `Text` | the Python string operations the code relies on: `in`, `find`, `split(sep)`, `split()`, `replace`, `join`, `strip`, `lower`, slicing, `str(int)` |
| `debate.dfy` | `Debate` | `AdvancedDebateGraph`: persona turns, the routers of modes A/B/C, `run` |
| `expert_store.dfy` | `ExpertStore` | `VectorStoreManager` over a sequence of tagged records |
| `query_expander.dfy` | `QueryExpander` | quoted-phrase extraction, query rebuild, keyword-pair selection |
| `candidate_queries.dfy` | `CandidateQueries` | the N−1 keyword combinations and their `AND` rendering |
| `uspto.dfy` | `Uspto` | the boolean-query parser and `fetch_patents` of the USPTO client |
| `openalex.dfy` | `OpenAlex` | abstract reconstruction from the inverted index, `fetch_papers` |
| `epo.dfy` | `Epo` | CQL choice, document-id choice, biblio details, `fetch_patents` of the EPO client |
| `csv_rows.dfy` | `CsvRows` | the seven-column CSV normalisation, batch and per-item versions |
| `report.dfy` | `Report` | safe file names, transcript, speaker styles, appendix insertion, `generate_report`, CSV export |
| `refiner.dfy` | `Refiner` | the planner's refinement, pair selection, author-aware fetch, fallback merge, top-k cut, idea assembly |

Language-model calls, HTTP requests, the vector database, Markdown rendering,
clocks and files are not modelled as code. Each one is a parameter of the
member that uses it:
- a model reply is a string, or `None` for a call that raised;
- a search is a function from the request the client builds (the query text, the query and page size, or the JSON request) to an `HttpReply`, applied to that request;
- the retriever is a function from the query to documents;
- a timestamp is a string.

`src/layer3/report_generator.py` repeats lines 1-156 of `src/report_generator.py` line for line (only the icon glyphs are encoded differently) and adds `export_data_collection_csv`. The `Report` members therefore model both copies; each row cites one of them.

The model follows the code where the code and its design description differ:
- Mode B is the sequential chain optimist → competitor → skeptic → regulator → moderator, not a parallel fan-out.
- `check_turns` is defined but never wired into any graph.
- The three modes end the run only through the moderator, which every mode reaches.

## Model

| member | source | states |
|---|---|---|
| Debate.RetrievalQuery | src/layer3/debate_graph.py:42-46 | the retrieval query is the topic on an empty transcript, else the last message's final 200 characters (the whole message when shorter) |
| Debate.Instruction | src/layer3/debate_graph.py:88-104 | the optimist proposes/defends the topic on an empty transcript and answers the critique afterwards |
| Debate.ModelInput | src/layer3/debate_graph.py:56-66 | the model sees the system prompt, the whole transcript unchanged, then the node's instruction — two messages more than the transcript |
| Debate.GenerateResponse | src/layer3/debate_graph.py:52-85 | a turn adds exactly one AI message named with the persona's display name, sets the current speaker to the persona key and raises `turns` by one |
| Debate.TurnKeepsCount | src/layer3/debate_graph.py:13-15 | a turn applied to a state with `turns == len(messages)` keeps that equality |
| Debate.RepliesExtend | src/layer3/debate_graph.py:66-85 | the transcript stays the concatenation of each speaker's reply to the transcript before it, one per speaker in order |
| Debate.ModeOf | src/layer3/debate_graph.py:177-182 | "b" selects mode B, "c" mode C, every other string mode A |
| Debate.Router | src/layer3/debate_graph.py:155-162 | the mode-C router goes to the moderator iff `turns >= 2 * max_turns`; before that, to the skeptic exactly when the optimist spoke last |
| Debate.ExpectedOrder | src/layer3/debate_graph.py:114-167 | every mode's speaking order starts with the optimist and ends with the moderator |
| Debate.SuccessorFollowsOrder | src/layer3/debate_graph.py:114-167 | after the k-th speaker of the expected order, the graph's edge leads to the (k+1)-th, or to END after the moderator |
| Debate.InitialState | src/layer3/debate_graph.py:184-192 | the run starts with no messages, zero turns and speaker "System" |
| Debate.StepPreservesRun | src/layer3/debate_graph.py:184-194 | one node execution and its outgoing edge keep the run invariant (turn count, transcript, order prefix) |
| Debate.Invoke | src/layer3/debate_graph.py:194 | given an entry for every persona the mode reaches, the compiled graph speaks exactly the expected order, `turns == len(messages) == len(order)`, ends on the moderator, and leaves topic, expert, mode and status as given |
| Debate.ModeCShape | src/layer3/debate_graph.py:146-167 | mode C alternates optimist and skeptic for `2 * max_turns` turns, then the moderator |
| Debate.DebateGraph.constructor | src/layer3/debate_graph.py:24-40 | defaults: 3 turns per persona, 300 words per turn, 3 retrieved chunks |
| Debate.DebateGraph.Run | src/layer3/debate_graph.py:169-195 | a positive `turns` overrides `max_turns`; the final state holds one reply per speaker of the mode's order, with `turns == len(messages)`, the moderator as last speaker, and status "start" |
| ExpertStore.CountTagged | src/layer2/vector_store.py:74-84 | the number of records tagged with an id is zero iff none is tagged |
| ExpertStore.CountTaggedAppend | src/layer2/vector_store.py:59-60 | the tag count of appended records adds up |
| ExpertStore.ToDocument | src/layer2/vector_store.py:45-54 | each document is tagged with the expert and topic, source defaulting to "openalex", citations to 0 |
| ExpertStore.Documents | src/layer2/vector_store.py:42-56 | one document per paper, in order |
| ExpertStore.DocumentsAllTagged | src/layer2/vector_store.py:42-56 | all the added documents carry the expert's tag |
| ExpertStore.FirstTagged | src/layer2/vector_store.py:140-142 | the first record with the tag, none iff no record has it |
| ExpertStore.Without | src/layer2/vector_store.py:155 | deletion keeps exactly the records without the tag |
| ExpertStore.WithoutUnused | src/layer2/vector_store.py:155 | deleting an unused id changes nothing |
| ExpertStore.WithoutKeepsOthers | src/layer2/vector_store.py:155 | deleting one expert leaves every other expert's record count unchanged |
| ExpertStore.Classify | src/layer2/vector_store.py:117-129 | the lower-cased source picks articles, patents or news in the code's order of tests |
| ExpertStore.ListedId | src/layer2/vector_store.py:101-104 | only records with a non-empty expert id are listed |
| ExpertStore.Tally | src/layer2/vector_store.py:115-129 | counting a record raises `doc_count` and exactly one bucket by one |
| ExpertStore.Aggregate | src/layer2/vector_store.py:99-131 | ids are distinct, in first-seen order, each mapped to its own summary |
| ExpertStore.Listing | src/layer2/vector_store.py:131 | one summary per distinct id, in first-seen order |
| ExpertStore.AggregateKeys | src/layer2/vector_store.py:101-114 | an expert is listed iff some record carries its id |
| ExpertStore.AggregateCounts | src/layer2/vector_store.py:115 | an expert's `doc_count` is the number of its records |
| ExpertStore.AggregateTopic | src/layer2/vector_store.py:106-109 | an expert's topic is the topic of its first record ("Unknown" when missing) |
| ExpertStore.ExpertNumber | src/layer2/vector_store.py:173-175 | a number is read only from ids of the form `expert_` followed by digits |
| ExpertStore.MaxNumber | src/layer2/vector_store.py:169-177 | the largest numbered id, 0 when none |
| ExpertStore.ExpertId | src/layer2/vector_store.py:181 | the id built for n reads back as n |
| ExpertStore.VectorStore.constructor | src/layer2/vector_store.py:14-32 | the store starts with the given records |
| ExpertStore.VectorStore.ExpertExists | src/layer2/vector_store.py:74-84 | an expert exists iff some record carries its id |
| ExpertStore.VectorStore.GetExpertTopic | src/layer2/vector_store.py:136-143 | no topic for an unknown expert; otherwise exactly the topic (possibly none) stored on the first record tagged with the expert |
| ExpertStore.VectorStore.AddExpertKnowledge | src/layer2/vector_store.py:34-61 | the store gains one tagged document per paper, appended in order |
| ExpertStore.VectorStore.DeleteExpert | src/layer2/vector_store.py:145-160 | returns whether the expert existed, removes all its records and nothing else, and afterwards the expert does not exist |
| ExpertStore.VectorStore.ListExperts | src/layer2/vector_store.py:86-134 | the listing is the aggregation of the stored records |
| ExpertStore.VectorStore.GenerateNextExpertId | src/layer2/vector_store.py:162-181 | the id is `expert_{max+1}` over the listed ids |
| ExpertStore.AboveMaxNotListed | src/layer2/vector_store.py:162-181 | an id numbered above the maximum is not among the listed ids |
| ExpertStore.NextIdIsFresh | src/layer2/vector_store.py:162-181 | the next expert id is carried by no record of the store |
| QueryExpander.FindQuoted | src/layer1/query_expander.py:61 | the extracted phrases contain no double quote |
| QueryExpander.JoinQuoted | src/layer1/query_expander.py:65 | the rebuilt query is empty iff there are no phrases |
| QueryExpander.FindQuotedJoin | src/layer1/query_expander.py:61-65 | re-extracting the phrases of the rebuilt query gives back the phrases |
| QueryExpander.RefineSearchQuery | src/layer1/query_expander.py:57-77 | phrases found: the query is rebuilt from them and round-trips; none: the fence-free reply and its words; a raised call: the input and its words |
| QueryExpander.Selection | src/layer1/query_expander.py:84-119 | fewer than 3 keywords are kept; otherwise one or two phrases: the reply's first two, its single one, or the first two keywords |
| QueryExpander.SelectBestKeywordPair | src/layer1/query_expander.py:84-119 | the result is the selection quoted, and its phrases read back as the selection |
| CandidateQueries.Combinations | test_query_expander.py:55 | every combination has the requested size; none when it exceeds the keywords |
| CandidateQueries.CombinationsAll | test_query_expander.py:55 | the only full-size combination is the keyword list itself |
| CandidateQueries.DropOneCombinations | test_query_expander.py:55 | the N−1 combinations are the N lists with one keyword dropped, the last keyword dropped first |
| CandidateQueries.ShortTopicWantsSynonyms | test_query_expander.py:37 | a topic of fewer than 10 characters has fewer than 10 words, so synonyms are always requested for it |
| CandidateQueries.FallbackCandidates | test_query_expander.py:50-55 | no candidates for fewer than 3 keywords; otherwise one per dropped keyword |
| CandidateQueries.RenderAnd | test_query_expander.py:62 | the keywords, each quoted and joined by " AND ", read back as the keywords |
| CandidateQueries.RenderRanked | test_query_expander.py:58-62 | one query per ranked candidate, in order, each reading back as its candidate's keywords |
| Uspto.SimpleQuery | src/layer1/uspto_client.py:134-143 | a query without the substrings "AND" and "OR" becomes one title-or-abstract phrase with its quotes and parentheses removed, and unchanged when it has none |
| Uspto.RemoveQuotesAndParens | src/layer1/uspto_client.py:135 | the cleaned text has no quotes or parentheses |
| Uspto.TermText | src/layer1/uspto_client.py:160 | a term loses its quotes and gains no character |
| Uspto.GroupTerms | src/layer1/uspto_client.py:153-156 | a group splits into at least one term, none with parentheses |
| Uspto.TermConditions | src/layer1/uspto_client.py:159-172 | one title-or-abstract phrase condition per term, in order |
| Uspto.GroupConditions | src/layer1/uspto_client.py:151-177 | one condition per `AND` group, in order |
| Uspto.BooleanQueryClean | src/layer1/uspto_client.py:122-182 | no phrase in the parsed query contains a quote or a parenthesis |
| Uspto.ParseBooleanQuery | src/layer1/uspto_client.py:147-182 | the loop builds the query's condition: a single group alone, several under `_and` |
| Uspto.ParseGroups | src/layer1/uspto_client.py:151-177 | the group loop yields the groups' conditions in order |
| Uspto.ParseGroup | src/layer1/uspto_client.py:153-177 | one term gives its own condition, several an `_or` of them |
| Uspto.CompoundQuery | src/layer1/uspto_client.py:134-182 | a query containing "AND" or "OR" becomes an `_and` with one conjunct per " AND " piece (a single piece stands alone); each conjunct is the title-or-abstract phrase of each " OR " term of its piece, unquoted, under `_or` when there are several |
| Uspto.ParseRenderedAnd | src/layer1/uspto_client.py:147-182 | a rendered `"a" AND "b" AND …` query parses to the conjunction of one phrase condition per keyword |
| Uspto.BuildRequest | src/layer1/uspto_client.py:43-80 | empty input or a missing/placeholder key gives no request; a string goes through the parser, a list searches its first item without quotes; fields and page size are fixed |
| Uspto.ToRecord | src/layer1/uspto_client.py:107-113 | a record carries the patent's id, title and abstract, source "USPTO", and the first four characters of the date as its year |
| Uspto.MapPatents | src/layer1/uspto_client.py:104-113 | one record per patent, in order |
| Uspto.FetchPatents | src/layer1/uspto_client.py:33-120 | the request built from the keywords, key and limit is the one sent; [] without a request or on a failed/4xx/5xx reply to it, else one record per returned patent, in order |
| OpenAlex.SortEntries | src/layer1/openalex_client.py:78 | the sorted tuples are ordered by position then word and are a permutation of the input |
| OpenAlex.SortedUnique | src/layer1/openalex_client.py:78 | two sorted permutations of the same tuples are equal |
| OpenAlex.Abstract | src/layer1/openalex_client.py:70-71 | a missing or empty index gives "" |
| OpenAlex.ReconstructAbstract | src/layer1/openalex_client.py:68-81 | the loop collects every (position, word) pair, sorts them and space-joins the words |
| OpenAlex.AbstractWordCount | src/layer1/openalex_client.py:74-81 | the abstract has exactly one word per listed position |
| OpenAlex.AbstractWordsOrdered | src/layer1/openalex_client.py:78-79 | the words come in ascending position order (ties by word), whatever the order of the index |
| OpenAlex.ReconstructText | src/layer1/openalex_client.py:68-81 | an index listing each position of a text once gives back the text |
| OpenAlex.PerPage | src/layer1/openalex_client.py:26 | the page size is the limit capped at 200 |
| OpenAlex.KeptPapers | src/layer1/openalex_client.py:40-59 | at most one paper per result, each with a title, an abstract, and `url == id` |
| OpenAlex.KeptPapersAll | src/layer1/openalex_client.py:48-57 | when every result has a title and an abstract, all are kept in order |
| OpenAlex.KeptPapersNone | src/layer1/openalex_client.py:48 | results without title or abstract yield no paper |
| OpenAlex.KeptPapersAppend | src/layer1/openalex_client.py:41-57 | more results only append papers |
| OpenAlex.FetchPapers | src/layer1/openalex_client.py:18-66 | the search sent is the query with `per-page` capped at 200; [] on a failed or 4xx/5xx reply to it, else the kept results |
| OpenAlex.KeepResults | src/layer1/openalex_client.py:40-56 | the result loop yields exactly the kept papers |
| Epo.AsList | src/layer1/epo_client.py:122-123 | a single object counts as a one-element list, a missing one as empty |
| Epo.FirstWhere | src/layer1/epo_client.py:126-129 | the first index satisfying the test, none iff no element does |
| Epo.CqlQuery | src/layer1/epo_client.py:71-74 | the keyword is used as is iff it holds " AND " or " OR ", else searched in titles |
| Epo.CqlOfRenderedAnd | src/layer1/epo_client.py:71-72 | a rendered `AND` query of two or more keywords is sent unchanged |
| Epo.ChosenReference | src/layer1/epo_client.py:125-136 | the first docdb id when one exists, else the first id unless it is empty; none exactly then |
| Epo.ChooseReference | src/layer1/epo_client.py:125-136 | the loop with `break` chooses that reference |
| Epo.FullIdParts | src/layer1/epo_client.py:143 | the full id splits on "." back into country, number and kind |
| Epo.EnglishTitle | src/layer1/epo_client.py:184-190 | "Unknown Patent" without an English title, else the first English one's text |
| Epo.EnglishAbstract | src/layer1/epo_client.py:193-203 | no abstract iff no English abstract entry; otherwise the paragraph text of the first English entry |
| Epo.FirstApplicant | src/layer1/epo_client.py:206-210 | the first applicant's name; "Unknown" without applicants or when that name is missing |
| Epo.PatentDetails | src/layer1/epo_client.py:170-215 | all three details are missing iff the reply is not a 200; with a title there is always an applicant |
| Epo.PickTitle | src/layer1/epo_client.py:184-190 | the title loop picks that title |
| Epo.PickAbstract | src/layer1/epo_client.py:193-203 | the abstract loop picks that abstract |
| Epo.FetchPatentDetails | src/layer1/epo_client.py:170-215 | the details are those of the reply |
| Epo.RecordTitle | src/layer1/epo_client.py:153 | the fetched title when non-empty, else "Patent " with country and number |
| Epo.RecordAbstract | src/layer1/epo_client.py:154 | the fetched abstract when non-empty, else "Abstract not available via OPS." |
| Epo.ToRecord | src/layer1/epo_client.py:138-159 | source "EPO", id `country.number.kind`, title and abstract with their fallbacks, the reference date or "Unknown Date", the Espacenet url of the parts, applicant as sole author |
| Epo.Records | src/layer1/epo_client.py:118-163 | at most one record per publication, each from EPO with a title and an abstract |
| Epo.RecordsAllReferenced | src/layer1/epo_client.py:118-163 | every publication with a usable reference yields a record |
| Epo.FetchPatents | src/layer1/epo_client.py:52-168 | the search sent is the CQL query of the keyword; [] without keys or token, on a failed, 404 or other 4xx/5xx reply to it; else one record per referenced publication |
| Epo.CollectRecords | src/layer1/epo_client.py:118-163 | the publication loop yields exactly the records of the referenced publications, in order |
| CsvRows.Excerpt | src/layer3/report_generator.py:199 | the abstract cut is a prefix of at most 500 characters, the whole text when shorter |
| CsvRows.OpenAlexRow | test_layer1.py:43-53 | a "Paper" row: id, title and publication year with their defaults, the abstract cut to 500, linked by the DOI when present, else by the id |
| CsvRows.EpoRow | test_layer1.py:56-66 | a "Patent" row with the given link, id and published date with their defaults, the abstract (default "N/A") cut to 500 |
| CsvRows.UsptoRow | test_layer1.py:70-76 | a "Patent" row identified by its patent number (default "N/A"), the abstract cut to 500, linking to Google Patents |
| CsvRows.TavilyRow | test_layer1.py:79-85 | a "News" row without an id, the content cut to 500 as abstract, linked by its url |
| CsvRows.EspacenetFromId | src/layer3/report_generator.py:213-216 | a link is rebuilt iff the id has at least three "."-parts |
| CsvRows.EspacenetFromFullId | src/layer1/epo_client.py:143-156 | the link rebuilt from a full EPO id is the record's own link |
| CsvRows.BatchRow | test_layer1.py:30-87 | the row has the batch's source; among items whose fields all hold text, it fails exactly for an EPO item without url whose id has fewer than three parts; an unknown source gives the default row; per source, the id, title, date, abstract excerpt and link the branch reads |
| CsvRows.NormalizeDataForCsv | test_layer1.py:25-88 | one row per item in order, or failure iff some item fails |
| CsvRows.BatchEpoLink | test_layer1.py:63-66 | an EPO item without url gets the Espacenet link of its id's parts |
| CsvRows.ExportRow | src/layer3/report_generator.py:170-239 | abstracts are cut to 500; the source is one of the four or the row stays the default for the inferred source; the row is OpenAlex iff inferred so or its id mentions openalex; per source, the id, title, date, abstract excerpt and link the branch reads |
| CsvRows.ExportEpoRecord | src/layer3/report_generator.py:203-217 | an EPO-tagged record keeps its Espacenet link, with or without a url |
| CsvRows.ExportUntaggedPatent | src/layer3/report_generator.py:175-227 | an untagged item with a patent number becomes a USPTO row linking to Google Patents |
| CsvRows.ExportRows | src/layer3/report_generator.py:169-239 | one row per item, in order |
| Report.Sanitize | src/layer3/report_generator.py:82 | each non-alphanumeric character becomes '_', alphanumerics stay |
| Report.CollapseUnderscores | src/layer3/report_generator.py:85 | no two adjacent underscores remain, and no new character appears |
| Report.SafeTopic | src/report_generator.py:82-85 | at most 50 characters, only alphanumerics and '_', no "__", no leading '_' |
| Report.SafeTopicKeepsContent | src/layer3/report_generator.py:82-85 | for topics of at most 50 characters, the safe name holds exactly the topic's alphanumerics in order |
| Report.SafeTopicOfAlnums | src/layer3/report_generator.py:82-85 | an alphanumeric topic of at most 50 characters is its own safe name |
| Report.StripFencesNoBacktick | src/report_generator.py:92 | HTML without backticks is left unchanged |
| Report.StripFencesWrapped | src/report_generator.py:90-92 | a reply wrapped in a "```html" … "```" fence comes out as the bare HTML inside it |
| Report.InsertAppendix | src/report_generator.py:143-146 | without "</body>" the appendix is appended; otherwise it is put before every "</body>" |
| Report.AppendixBeforeBodyEnd | src/layer3/report_generator.py:143-144 | with a single "</body>" the appendix lands right before it |
| Report.SpeakerName | src/report_generator.py:105-108 | the message's name when set, else "System / Moderator" for AI messages and "System" otherwise |
| Report.SpeakerStyle | src/report_generator.py:111-124 | Optimist, then Skeptic, then Competitor, then Maestro/Mod take precedence, each iff its name occurs and no earlier one does |
| Report.ModSpeakerStyle | src/layer3/report_generator.py:122-124 | a "Mod…" speaker that matches no earlier persona gets the moderator style |
| Report.TranscriptAppend | src/layer3/report_generator.py:40-43 | the transcript of concatenated messages is the concatenation of transcripts |
| Report.BuildTranscript | src/report_generator.py:40-43 | the loop builds the transcript of the messages |
| Report.PromptExcerpt | src/report_generator.py:58 | the prompt holds a prefix of at most 15000 characters of the transcript |
| Report.StatsText | src/layer3/report_generator.py:45-47 | the placeholder iff no statistics, else text starting "- " |
| Report.StatsLines | src/layer3/report_generator.py:45-47 | with keys and values free of line breaks, the text has one `- k: v documents` line per statistic, in order |
| Report.BlockOf | src/layer3/report_generator.py:103-138 | each appendix block names the speaker and takes its style's colour |
| Report.BuildAppendix | src/layer3/report_generator.py:97-140 | the appendix is the header, one block per message, and the closing tag |
| Report.GenerateReport | src/report_generator.py:30-156 | no file iff the model call fails; else `results/<timestamp>_<safe topic>.html` holding the fence-free reply with the appendix inserted |
| Report.ExportDataCollectionCsv | src/layer3/report_generator.py:158-257 | no file iff there is no data; else `results/raw_data_<timestamp>_<safe topic>.csv` with one normalised row per item |
| Refiner.RefineDraftQuery | Project_plan/ref_query_refiner.py:76-87 | phrases found: the query is rebuilt from them and round-trips; none: the fence-free reply and no keywords |
| Refiner.SelectKeywordPair | Project_plan/ref_query_refiner.py:94-122 | fewer than 3 keywords are all quoted without the model; otherwise the reply's first two phrases, its single one, or the first two keywords |
| Refiner.SelectTopPapers | Project_plan/ref_query_refiner.py:195-198 | a prefix of the pool: `top_k` papers at most (Python slicing for a negative value), [] for an empty pool |
| Refiner.AuthorNames | Project_plan/ref_query_refiner.py:155-159 | the truthy display names in order, each from one of the entries; failure iff an entry has a null author |
| Refiner.AuthorNamesAll | Project_plan/ref_query_refiner.py:155-159 | entries that all carry a name keep every name in order |
| Refiner.FirstAuthors | Project_plan/ref_query_refiner.py:153-159 | at most 5 authors, read from the first five entries only |
| Refiner.CollectAuthors | Project_plan/ref_query_refiner.py:153-159 | the author loop yields those authors |
| Refiner.DraftPapers | Project_plan/ref_query_refiner.py:147-169 | at most one paper per result, each with a title, an abstract and at most 5 authors; failure iff some result raises while reading its authors |
| Refiner.FetchDraftPapers | Project_plan/ref_query_refiner.py:124-176 | [] on a failed, 4xx/5xx or raising fetch, else those papers |
| Refiner.Merged | Project_plan/ref_query_refiner.py:247-251 | the original pool is kept unchanged and first; the merge adds at most the additional papers |
| Refiner.MergedFromExtra | Project_plan/ref_query_refiner.py:248-250 | every added paper is one of the additional papers |
| Refiner.MergedDistinct | Project_plan/ref_query_refiner.py:247-251 | an added paper's lower-cased title differs from every title before it, including those added by the same merge |
| Refiner.MergedCovers | Project_plan/ref_query_refiner.py:247-251 | after the merge, every additional paper's lower-cased title is in the pool |
| Refiner.MergedGrows | Project_plan/ref_query_refiner.py:248-251 | the pool only grows: more additional papers only append |
| Refiner.MergedKeepsNew | Project_plan/ref_query_refiner.py:249-251 | a paper with a new title is appended |
| Refiner.MergeByTitle | Project_plan/ref_query_refiner.py:247-251 | the loop over the pool and its title set yields that merge |
| Refiner.DraftPool | Project_plan/ref_query_refiner.py:231-256 | the fallback merge runs exactly when fewer than 10 papers and at least 3 keywords; the first search's papers always lead the pool; the top papers are its prefix |
| Refiner.Methodology | Project_plan/ref_query_refiner.py:331-341 | methodology and table of contents are joined by a blank line; the raw field when neither is truthy; failure iff a truthy methodology is not a string |
| Refiner.Description | Project_plan/ref_query_refiner.py:344-352 | the raw `description` when no section is truthy, else text |
| Refiner.DescriptionHasSections | Project_plan/ref_query_refiner.py:345-352 | each truthy background, necessity and expected-effects section appears labelled in the description |
| Refiner.AssembleIdea | Project_plan/ref_query_refiner.py:330-359 | the title defaults to "Untitled"; the idea fails iff its methodology fails |
| Refiner.Ideas | Project_plan/ref_query_refiner.py:326-369 | non-dict items are skipped; failure iff some dict item fails |
| Refiner.IdeasAllDicts | Project_plan/ref_query_refiner.py:326-369 | items that are all dicts give one idea each, in order |
| Refiner.IdeasSkipNotDict | Project_plan/ref_query_refiner.py:327-328 | a non-dict item adds no idea |
| Refiner.AssembleIdeas | Project_plan/ref_query_refiner.py:315-369 | one draft per assembled idea, each with a single iteration-0 "draft" snapshot |

## Left out

- Language-model calls (`ChatOllama`, `chain.invoke`, `generate`) are parameters. The streamed reply of a turn is the whole reply, and the prompt texts given to the model are not modelled.
- HTTP requests, the EPO token exchange, `.env`/YAML loading and timeouts are left out; each reply or token is an input.
- Chroma and embeddings are left out. The store is a sequence of records, and `get(where=…, limit=1)` reads as the first tagged record. Similarity retrieval is a function parameter of the debate configuration.
- Timestamps, file writes, the Markdown renderer and the appendix block HTML are inputs (`markdown`, `render`, `timestamp`). The appendix header is a constant, not the exact markup.
- `isalnum`, `isdigit`, `lower`, `split()` and `strip()` are modelled on ASCII (for `split()` and `strip()`: space, `\t`, `\n`, `\r`, `\x0b`, `\x0c` and `\x1c`–`\x1f`); Unicode categories are not.
- JSON objects are datatypes with `Option` fields, or `map<string,string>` for CSV items; a JSON `null` and a missing key are both `None`. `str(v)` of a value is taken as its stored text.
- `check_turns` is not modelled, since no graph uses it. The streamlit front end, `main.py`, `main_reuse.py` and `src/layer1/market_client.py` are not part of this model.
- `adaptive_fetch`, `generate_search_queries`, `_extract_keywords`, `_generate_synonyms` and `_rank_combinations` are called but not defined in the repository. Only the gating and enumeration around them are modelled; ranking keeps the candidates as enumerated.
- Debate.Invoke: a persona the mode reaches without a configuration entry raises `KeyError` in the source; the model requires every reached persona to have an entry and does not model the error.
- Debate.DebateGraph.Run: LangGraph stops a run after 25 steps (its default `recursion_limit`) with `GraphRecursionError`. Mode C takes `2*max_turns + 1` steps, so it fails for `max_turns` of 13 or more; the model has no step limit and lets such runs finish.
- Debate.DebateGraph.Run: an exception from the model stream (or the retriever) inside a node aborts the whole run in the source; the model's language model and retriever are total functions, so every run finishes.
- Uspto.FetchPatents: a JSON `null` and a missing key are both `None`. A `null` `patent_date` makes the source raise `TypeError` on the slice, so the real call returns []; the model treats it like a missing date and yields a record with an empty year.
- CsvRows.BatchRow: an item field is its text; a field present with a JSON `null` value is not distinguished from a missing one. In the source a `null` abstract (EPO, USPTO) or content (Tavily) makes the `[:500]` slice raise `TypeError` and aborts the whole batch, and a `null` title becomes an empty cell; the model yields a row ("N/A" for the title) in both cases. An OpenAlex `null` abstract is written as "None" by the source and as "" by the model.
- CsvRows.ExportRow: the same `null` fields make the source raise `TypeError` in the EPO, USPTO and Tavily branches; the model's row is total.
- Report.ExportDataCollectionCsv: because of that uncaught `TypeError` the source writes no file (the call raises) when some item has a `null` abstract or content; the model promises a file for any non-empty data.
- ExpertStore.VectorStore.GenerateNextExpertId: the `uuid` fallback after an exception is not modelled.
- OpenAlex.SortEntries: Python's `sort` is modelled as insertion sort on values. Only its result matters, and that result is unique.
- Epo.FetchPatents: the `raw` field of a record is omitted. A publication whose parsing raises is treated like one without a usable reference, and the EPO "empty dict" reference is the `EmptyRef` predicate.
- Refiner.AssembleIdeas: `raw_content = str(item)` is omitted. A `table_of_contents` list is a list of strings; a list holding other values, where the join raises, is not modelled.
- Refiner.AssembleIdeas: the `<think>` block removal and `extract_json` parsing before assembly are not modelled. The parsed reply is an input.
- Refiner: `_format_papers_for_prompt` and the latest-titles list only build prompt text and are not modelled.
- Report.GenerateReport: any exception after the model call (for example, while writing the file) is not modelled; only a failing model call gives `None`.
