# Levitt lab feedback forms — a Dafny model of the data pipeline's core

The repository collects feedback on Seminars and Wonder Sessions from Google
Forms and Google Sheets, cleans the responses with pandas, maps free-text
session topics onto a curated list of reference topics with a language model,
builds few-shot prompts for summarizing the written feedback and saves tables
as spreadsheets with fitted column widths. This project models the parts of
that pipeline that decide what the data becomes:

- `topic_categorizer.dfy` (module `TopicCategorization`) models the topic
  categorizer. It covers the cache key, the numbered prompt, how the model's
  reply is read into a match and a confidence tier, the cache as object state
  and the table-level pass over the distinct topics. It also covers the
  categorization summary and the filtering of the reference-topic sheet. The
  language model is an oracle parameter: a function from the prompt to a reply
  or a failed call.
- `read_responses.dfy` (module `ResponseCleaning`) models `clean_responses`.
  The caller's data frame is a class whose timestamp columns and rescaled
  answers are changed in place. The later steps yield a new table: blank cells
  become missing, empty columns are dropped, the quantitative answers are cast
  and the `Guide` column is derived.
- `forms_client.dfy` (module `FormsFlattening`) models the flattening of Forms
  API responses into one record per response.
- `summarizer.dfy` (module `Summarization`) models the few-shot prompt of the
  text summarizer, built by repeated appends and proved equal to a
  declarative description of its layout.
- `few_shot_examples.dfy` (module `FewShot`) models the preparation of
  few-shot examples from a table.
- `excel_utils.dfy` (module `ExcelLayout`) models the column widths set when
  a table is saved with auto-fitted widths.
- `frames.dfy`, `strings.dfy` and `wrappers.dfy` hold the shared values: the
  data frame as columns and rows of cells, the exception kinds, the pieces of
  Python's `str` the code relies on, `Option` and `Result`.

Where the modelled code raises on an input the model can represent, the model
returns `Failure` with the exception kind, and the contracts state those error
cases. The raises that the value types cannot represent are listed under
"## Left out".

## Model

| member | source | states |
|---|---|---|
| TopicCategorization.CacheKeyPermutation | topic_categorizer.py:46-50 | Any reordering of the reference list gives the same cache key, because the key sorts the list. |
| TopicCategorization.CacheKeyTopicInjective | topic_categorizer.py:46-50 | For one reference list, different topics (case included) get different keys. |
| TopicCategorization.CacheKeyCollisions | topic_categorizer.py:46-50 | The key is not injective in (topic, list): a topic containing ":::" or a reference containing "\|" can produce another request's key. |
| TopicCategorization.CacheKey | topic_categorizer.py:46-50 | The key begins with the topic and ":::". The lemmas above state what the sorted list adds. |
| TopicCategorization.CreateCategorizationPrompt | topic_categorizer.py:52-71 | The prompt built by appending is the intro, the quoted topic, one line "k. topic" per reference topic in the given order, numbered from 1, and the fixed instructions. |
| TopicCategorization.PromptNumbering | topic_categorizer.py:62-63 | Line k of the prompt names exactly the reference topic that a reply of k selects. |
| TopicCategorization.Classify | topic_categorizer.py:95-125 | A topic is matched only with confidence high or medium, and only from the reference list. High holds exactly when the list has at most 10 topics. ApiError holds exactly when the call failed. |
| TopicCategorization.ClassifyParsed | topic_categorizer.py:97-116 | For a reply that arrived, the tier is ParseError exactly when `int()` rejects the stripped text. It is never ApiError. Matched topics come from the list. |
| TopicCategorization.ReadReply | topic_categorizer.py:95-125 | The branches that turn the reply or the exception into a pair compute `Classify`. |
| TopicCategorization.Find | topic_categorizer.py:73-130 | The model is asked only for a non-empty topic and list, and then the result is its reply classified. With caching off the cache is unchanged. `FindCacheUpdate` states the rest. |
| TopicCategorization.ClassifyReadAsInteger | topic_categorizer.py:95-107 | Any reply whose stripped text `int()` reads as k gives no_match for 0. For 1 <= k <= n it gives the k-th topic, with high confidence when there are at most 10 topics and medium otherwise. Any other integer, negatives included, is invalid_response. |
| TopicCategorization.ClassifyInteger | topic_categorizer.py:97-107 | The same holds for the canonical reply `str(k)`. |
| TopicCategorization.PaddedReplyPicks | topic_categorizer.py:97-105 | The zero-padded reply "07" picks the seventh topic. |
| TopicCategorization.ClassifyPick | topic_categorizer.py:101-105 | The reply "k" for 1 <= k <= n picks the k-th reference topic. |
| TopicCategorization.ClassifyNonInteger | topic_categorizer.py:115-116 | A reply whose stripped text holds an ASCII character that is not a digit, an underscore or a leading sign is a parse_error. |
| TopicCategorization.FindCacheUpdate | topic_categorizer.py:73-130 | An empty topic or list returns (None, None) and touches nothing. A cache hit returns the cached pair without asking the model. A miss asks the model once and, with caching on, writes exactly the returned pair under the key. |
| TopicCategorization.WarmCacheAnswersAgain | topic_categorizer.py:78-83 | With caching on, asking again for the same topic, with the list in any order, returns the first answer and asks nothing. |
| TopicCategorization.FirstLookupPicks | topic_categorizer.py:101-113 | On an empty cache, a reply of "1" against a one-topic list returns that topic and caches it as the only entry. |
| TopicCategorization.CollidingKeyServesForeignTopic | topic_categorizer.py:78-83 | Through a key collision, a cache hit can return a topic that is not in the current reference list. |
| TopicCategorization.CategorizeAll | topic_categorizer.py:148-153 | The fold of `Find` over the distinct topics. With caching off the cache is unchanged. The three lemmas below state the rest. |
| TopicCategorization.CategorizeAllNext | topic_categorizer.py:148-153 | One more topic extends the fold by one `Find` on the cache so far. A prompt is added exactly when that `Find` asks the model; when it does not, the cache is unchanged. |
| TopicCategorization.CategorizeAllCovers | topic_categorizer.py:148-153 | The mapping has an entry for exactly the topics looked up, and the model is asked at most once per topic. |
| TopicCategorization.CategorizeAllCached | topic_categorizer.py:148-153 | With caching on, after the pass every non-empty topic's key holds exactly the pair the topic was mapped to. |
| TopicCategorization.CategorizeAllWarm | topic_categorizer.py:148-153 | When every topic's key is already cached, the pass sends no prompt and leaves the cache unchanged. |
| TopicCategorization.Cleared | topic_categorizer.py:138-140 | The copy gains `matched_topic` and `match_confidence` set to missing in every row. Every other column keeps its value. |
| TopicCategorization.DistinctTopics | topic_categorizer.py:142 | The topics looked up are distinct and are exactly the non-missing values of the topic column. |
| TopicCategorization.Broadcast | topic_categorizer.py:155-158 | The pairs are written into the copy, which keeps its columns and its number of rows. `BroadcastRows` states each row. |
| TopicCategorization.BroadcastRows | topic_categorizer.py:155-158 | Rows with equal topics get equal matches and confidences. A row without a topic gets none. A mapped topic gets its pair. No other column changes. |
| TopicCategorization.TopicCategorizer.constructor | topic_categorizer.py:12-19 | The cache is what was loaded when caching is on, and empty otherwise. Nothing has been saved or asked yet. |
| TopicCategorization.NewTopicCategorizer | topic_categorizer.py:12-19 | Construction fails with the missing-API-key error exactly when no key is given. Otherwise the new object holds the loaded or empty cache. |
| TopicCategorization.TopicCategorizer.SaveCache | topic_categorizer.py:34-44 | With caching off nothing is written. With caching on the saved file is the current cache. |
| TopicCategorization.TopicCategorizer.Remember | topic_categorizer.py:109-113 | With caching on, the pair is stored under the cache key and saved. With caching off the cache and the file are unchanged. |
| TopicCategorization.TopicCategorizer.FindClosestTopic | topic_categorizer.py:73-130 | Returns the result of `Find` and leaves the cache as `Find` does. It appends the prompt to the prompts sent exactly when the model was asked, and saves the cache exactly on a miss with caching on. |
| TopicCategorization.TopicCategorizer.LookUpNext | topic_categorizer.py:150-153 | One iteration looks the topic up with one `Find` on the current cache and records its match. The loop state then matches the fold extended by that topic: mapping, cache, prompts sent, and the cache file written iff the model was asked. |
| TopicCategorization.TopicCategorizer.LookUpAll | topic_categorizer.py:148-153 | The loop's mapping, cache and prompts are those of the fold `CategorizeAll` over the distinct topics in order. The saved cache file is the final cache when caching is on and the model was asked at least once, and is unchanged otherwise. |
| TopicCategorization.TopicCategorizer.CategorizeDataframeTopics | topic_categorizer.py:132-160 | A missing topic column raises the ValueError and changes no state. Otherwise the result is the cleared copy with each row's pair broadcast from the fold over the distinct topics, and the cache is left as the fold leaves it. The saved cache file is the final cache when caching is on and the model was asked, and is unchanged otherwise. |
| TopicCategorization.UnmatchedTopicCells | topic_categorizer.py:175-181 | The cells collected are exactly the topics of rows that have a topic but no match. The list is empty iff no such row exists. |
| TopicCategorization.UnmatchedRowsStep | topic_categorizer.py:175-176 | Adding a row adds one unmatched row exactly when that row has a topic and no match. |
| TopicCategorization.UnmatchedCount | topic_categorizer.py:173-181 | One topic cell is collected per row with a topic and no match, repeats included, so their number is the number of such rows. |
| TopicCategorization.Summarize | topic_categorizer.py:172-208 | `total_unique_topics` and `total_unique_matched_topics` are the numbers of distinct non-missing values of the topic and match columns, and `unmatched_entries` is the number of rows with a topic and no match. The unmatched topics are listed without repeats, and every count is bounded by the number of rows. The mapping details count one pair per row, and none when both names are the same column, because the `groupby` at :184-186 then fails inside its `try`. |
| TopicCategorization.GetCategorizationSummary | topic_categorizer.py:162-208 | Fails with the ValueError of the first missing column, topic column first. Otherwise it fails with TypeError exactly when the distinct unmatched topics cannot all be compared by `sorted()` at :194. In every other case it returns `Summarize` of the two columns. |
| TopicCategorization.UnsortableUnmatched | topic_categorizer.py:178-195 | Sorting the unmatched topics raises exactly when two rows with a topic and no match hold topics of kinds Python cannot compare. |
| TopicCategorization.MixedUnmatchedRaises | topic_categorizer.py:178-195 | An unmatched int topic next to an unmatched string topic makes the summary raise TypeError. |
| Frames.OrderableMembers | topic_categorizer.py:194 | Whether `sorted()` raises depends only on which values occur: it raises iff two of them are of kinds that cannot be compared. |
| TopicCategorization.SummaryMeaning | topic_categorizer.py:172-181 | In the summary of two columns, the unmatched topics reported are exactly the topics of rows with a topic and no match. They are reported iff unmatched entries are counted. Every row's topic is among the distinct topics counted. |
| TopicCategorization.UnmatchedMeaning | topic_categorizer.py:175-181 | The distinct unmatched topics are exactly those of unmatched rows. The list is empty iff the count is zero. |
| TopicCategorization.FullyMatchedSummary | topic_categorizer.py:175-181 | If every row with a topic has a match, the summary reports no unmatched entries and no unmatched topics. |
| TopicCategorization.WithWeekStart | topic_categorizer.py:212-213 | `df["week_start"]` is added or overwritten with the parsed "Week Start" of each row, a failed parse giving a missing value. Every other column is unchanged. |
| TopicCategorization.CurrentTopics | topic_categorizer.py:214-215 | The cells kept are exactly the non-missing cells of the column in rows whose `week_start` is a date not after today. |
| TopicCategorization.CurrentTopicsInOrder | topic_categorizer.py:214-215 | The date filter keeps the surviving topics in sheet order. |
| TopicCategorization.DropExcluded | topic_categorizer.py:216-217 | A topic is kept iff its upper-cased text contains neither "NO WONDER SESSION" nor "NO SEMINAR". |
| TopicCategorization.DropExcludedInOrder | topic_categorizer.py:216-217 | Dropping the "no session" markers keeps the remaining topics in order. |
| TopicCategorization.FilterReferenceTopics | topic_categorizer.py:210-218 | A missing "Week Start" raises KeyError. The topic column is looked up after `week_start` is added, so any other missing column raises KeyError. A current non-missing cell of it that is not a string raises AttributeError, and nothing else fails. |
| TopicCategorization.ReferenceTopicsMeaning | topic_categorizer.py:212-217 | When the column's cells, after `week_start` is added, are strings or missing, a topic is returned iff some current row holds it and it is not a "no session" marker. |
| TopicCategorization.WeekStartColumnTopics | topic_categorizer.py:212-216 | Asking for the `week_start` column itself reads the parsed dates: it raises AttributeError iff some row's date parses and is not after today, and otherwise returns no topics. |
| Strings.Strip | topic_categorizer.py:95 | The result neither begins nor ends with whitespace. Text without surrounding whitespace is unchanged. |
| Strings.StripRemovesOnlySpace | topic_categorizer.py:95 | `strip()` removes whitespace only: the result is the slice of the input that starts after its leading whitespace, and only whitespace follows it. |
| Strings.LeadingSpace | topic_categorizer.py:95 | The count of leading whitespace: everything before it is whitespace, and the character at it, if any, is not. |
| Strings.StripShowInt | topic_categorizer.py:95 | `str(k).strip()` is `str(k)`. |
| Strings.ParseInt | topic_categorizer.py:98 | `int()` accepts only an optional leading sign followed by ASCII digits and underscores. |
| Strings.ParseShowInt | topic_categorizer.py:98 | `int(str(k)) == k` for every integer k. |
| Strings.ShowNat | topic_categorizer.py:63 | The decimal form of a number is a non-empty string of digits. |
| Strings.Sort | topic_categorizer.py:49 | `sorted` returns a permutation of its input. |
| Strings.SortSorted | topic_categorizer.py:49 | `sorted` returns its input in lexicographic order. |
| Strings.SortPermutation | topic_categorizer.py:49 | Two lists holding the same strings sort to the same list. |
| Frames.Unique | topic_categorizer.py:142 | `dropna().unique()` holds each non-missing value exactly once, so its length is the number of distinct non-missing values (`nunique()`). |
| Frames.WithColumn | read_responses.py:31-33 | Assigning a column leaves the column list as it was when the name exists and appends the name at the end otherwise. The names stay distinct. |
| Frames.WithCells | read_responses.py:31-33 | After `df[name] = cells` every row holds its cell under `name`, and every other column is unchanged. |
| ResponseCleaning.DataFrame.SetColumn | read_responses.py:31-33 | The caller's frame becomes `WithCells` of its old value. |
| ResponseCleaning.StampCells | read_responses.py:31 | Every parsed stamp is a timestamp or missing (`errors='coerce'`). |
| ResponseCleaning.ParseTimestamps | read_responses.py:31-33 | The three assignments keep the table well formed with the same rows. |
| ResponseCleaning.ParseTimestampsRows | read_responses.py:31-33 | Each row's `Timestamp` is its parsed stamp. `week` and `year-week` are derived from the stamp, or missing when it did not parse. Other columns are unchanged. |
| ResponseCleaning.Present | read_responses.py:40 | The columns kept are exactly those of the list the table has, and the first of the list is kept first when present. |
| ResponseCleaning.PresentInOrder | read_responses.py:40 | The filter keeps the list's order: filtering two runs of names one after the other gives the filtered runs one after the other, and a single name is kept iff the table has it. |
| ResponseCleaning.Rescale | read_responses.py:36-42 | Rescaling keeps the columns and the number of rows. |
| ResponseCleaning.DataFrame.RescaleEarlyRows | read_responses.py:41-42 | The caller's frame becomes `Rescale` of its old value. |
| ResponseCleaning.RescaleMeaning | read_responses.py:36-42 | A scale column is doubled exactly in rows stamped before 13 August 2025. Other rows, unparsed stamps and other columns are unchanged. |
| ResponseCleaning.Blank | read_responses.py:45 | Exactly the whitespace-only strings become missing: a string with any other character, and every non-string cell, is kept as it is. |
| ResponseCleaning.BlankToMissing | read_responses.py:45 | Every cell is replaced by its blanked form, and the shape is unchanged. |
| ResponseCleaning.DropEmptyColumns | read_responses.py:46 | A column is kept iff some row holds a value there. Kept cells are unchanged. |
| ResponseCleaning.DroppedColumns | read_responses.py:45-46 | A column is dropped exactly when every row is missing or blank there. |
| ResponseCleaning.CastQuant | read_responses.py:49-58 | The cast succeeds iff every quantitative column present holds only integers or missing values, and then changes nothing. Otherwise it fails naming such a column that holds something else. |
| ResponseCleaning.Tidy | read_responses.py:44-65 | The steps after the rescale, as one definition: on success the table is well formed, keeps every row and has a `Guide` column. The lemmas below state what it does to each cell. |
| ResponseCleaning.Finish | read_responses.py:49-65 | Fails with NothingToDescribe exactly when the cast succeeds and no quantitative column is present. On success the rows are kept and the columns are those before, with `Guide` added when new. |
| ResponseCleaning.NothingToDescribeMeaning | read_responses.py:45-59 | `describe()` of the quantitative columns raises exactly when every quantitative column the table has is missing or blank in every row. |
| ResponseCleaning.NoQuantLeft | read_responses.py:56-59 | `describe()` raises exactly when no quantitative column survives the drop of empty columns. |
| ResponseCleaning.NoRowsNothingToDescribe | read_responses.py:45-59 | A frame without rows loses every column, so cleaning it raises the `describe()` error. |
| ResponseCleaning.AttributeGuide | read_responses.py:62-65 | Fails with IndexError iff neither guide column is present. Otherwise `Guide` copies the Seminar guide column when present, else the Wonder Session one, and every other column is kept. |
| ResponseCleaning.CleanResponses | read_responses.py:29-67 | A missing `Timestamp` raises KeyError and leaves the frame unchanged. Otherwise the caller's frame ends parsed and rescaled, and the result is the tidied copy of it, including the cast's error and the `describe()` ValueError (NothingToDescribe) when no quantitative column is left. |
| ResponseCleaning.AttributeTopics | read_responses.py:25-26 | The frame is returned as it came. |
| ResponseCleaning.TidyKeepsRows | read_responses.py:44-67 | Cleaning drops columns, never rows. |
| ResponseCleaning.TidyLeavesNoBlank | read_responses.py:45-65 | After cleaning no cell, `Guide` included, is a whitespace-only string. |
| ResponseCleaning.FinishKeeps | read_responses.py:49-65 | The cast and the `Guide` column leave every other column as it was. |
| ResponseCleaning.TidyKeepsValue | read_responses.py:44-65 | A value outside `Guide` that is neither missing nor blank survives cleaning unchanged. |
| ResponseCleaning.ScaleColumnsAreAnswers | read_responses.py:36-39 | No scale question is one of the columns the cleaning derives. |
| ResponseCleaning.OldScaleDoubled | read_responses.py:29-67 | End to end: an integer scale answer v in a response stamped before the cutover comes out as 2v whenever cleaning succeeds. |
| FormsFlattening.QuestionMap | forms_client.py:88-92 | Fails with KeyError('title') iff some question item has no title. Otherwise an id is mapped iff some item is that question, to the title of the last such item. |
| FormsFlattening.BuildQuestionMap | forms_client.py:88-92 | The loop over the items computes `QuestionMap`, including its early failure. |
| FormsFlattening.QuestionMapFailed | forms_client.py:89-92 | A failure on a prefix of the items is the failure of the whole map. |
| FormsFlattening.Values | forms_client.py:109-110 | Each text answer contributes its value, or "" when it has none. |
| FormsFlattening.AnswerText | forms_client.py:108-115 | Text answers are joined with "; " and take precedence over file uploads, which read "File uploaded". Any other kind is its printed form. |
| FormsFlattening.QuestionTitle | forms_client.py:104-105 | A known question id gives its title; an unknown one gives `Question_<id>`. |
| FormsFlattening.BaseRecord | forms_client.py:97-100 | A record starts with exactly `response_id` and `timestamp`, each "" when absent. |
| FormsFlattening.Fill | forms_client.py:103-115 | Filling in answers keeps every column of the base record. `FillMeaning` states the values. |
| FormsFlattening.FillMeaning | forms_client.py:103-115 | After the answers are filled in, a column exists iff it was in the base record or some answer is filed under it. It holds the text of the last answer filed under it, else its base value. |
| FormsFlattening.FlattenResponse | forms_client.py:96-117 | The loop over one response's answers computes its flattened record. |
| FormsFlattening.ProcessResponses | forms_client.py:82-119 | The method computes `Process`: no responses give no records, else one flattened record per response or the question map's failure. |
| FormsFlattening.Process | forms_client.py:82-119 | No responses give no records. A failure is always the KeyError for a title. Success gives one record per response. |
| FormsFlattening.ProcessMeaning | forms_client.py:82-119 | Fails iff a question item lacks a title. Otherwise there is one record per response, in order, and record i is the flattening of response i. Each record holds `response_id` and `timestamp`, with the response's values unless an answer's title overwrites them. |
| FormsFlattening.NoResponsesNoRecords | forms_client.py:84-85 | No responses give no records, even when the form's items would fail. |
| FormsFlattening.UnknownQuestionColumn | forms_client.py:104-105 | An answer to a question the form does not list gets the column `Question_<id>`. |
| FormsFlattening.LastAnswerWins | forms_client.py:103-115 | Every answer gets a column. Among answers whose titles coincide, the column holds the last one's text. |
| FormsFlattening.SingleTextAnswer | forms_client.py:103-111 | In any response, an answer holding one text value is recorded under its title as that value alone, without separators, whatever its other fields hold, when no later answer has the same title. |
| Summarization.TextsKey | summarizer.py:37-41 | Positive feedback reads `positive_texts` and constructive feedback reads `constructive_texts`, each iff. |
| Summarization.Blocks | summarizer.py:42-47 | The example blocks exist iff every example has the requested list and a summary. Otherwise the failure is the KeyError of one of the two. |
| Summarization.BulletsPrefix | summarizer.py:51-52 | The bullet lines of the first k texts, then text k's line, begin the lines of all texts. |
| Summarization.SimpleTextSummarizer.constructor | summarizer.py:12-20 | A new summarizer has no expert examples. |
| Summarization.NewSummarizer | summarizer.py:12-20 | Construction fails with the missing-API-key error exactly when no key is given. |
| Summarization.SimpleTextSummarizer.AddExpertExamples | summarizer.py:22-27 | The given examples replace the old ones. |
| Summarization.SimpleTextSummarizer.CreatePrompt | summarizer.py:29-55 | The string built by `+=` is `PromptFor`: preamble, the example blocks, the "Now summarize these texts" header, one bullet per text and the closing line. A missing key is the KeyError of the first failing example. |
| Summarization.PromptFor | summarizer.py:29-55 | The prompt fails exactly when the example blocks fail, and with their error. `NoExamplesPrompt`, `TaskLines` and `ExampleNumbering` state its layout. |
| Summarization.AppendBlocks | summarizer.py:42-47 | The loop over the examples appends exactly their blocks, or stops with the first KeyError. |
| Summarization.AppendLines | summarizer.py:51-52 | The loop appends one bullet line per text, in order. |
| Summarization.BlocksFailed | summarizer.py:42-47 | A failure among the first examples is the failure of the whole prompt. |
| Summarization.NoExamplesPrompt | summarizer.py:29-55 | Without examples, the prompt is the preamble, the "Now summarize these texts" header, the bullets and the closing line, for either kind of feedback. |
| Summarization.TaskLines | summarizer.py:50-54 | Every text to summarize appears as its own bullet line after the header and the texts before it. |
| Summarization.ExampleNumbering | summarizer.py:42-47 | Example k+1 starts, with its header "Example k+1:", right after the blocks of the k examples before it. |
| Summarization.TextsKeyNeverRead | summarizer.py:22-27 | An example holding only the documented `texts` key makes the prompt fail: only the requested list is read. |
| FewShot.PrepareFewShotExamples | few_shot_examples.py:12-21 | One example per row in order, holding that row's text and an empty summary. The KeyError for a missing column is raised iff the table has rows. |
| ExcelLayout.MaxLen | excel_utils.py:22 | The longest length is an upper bound attained by some cell. There is none iff the column is empty. |
| ExcelLayout.Width | excel_utils.py:22-25 | The width is at least the header and every cell plus 2, and equals one of them plus 2. There is none iff the column has no cells. |
| ExcelLayout.Offset | excel_utils.py:12 | The offset is 1 iff the index is written. |
| ExcelLayout.Position | excel_utils.py:26-27 | Data column idx lands at 1-based position idx + 1 + offset. |
| ExcelLayout.ColumnWidths | excel_utils.py:20-27 | The widths cover exactly the positions of the data columns. |
| ExcelLayout.ColumnWidthAt | excel_utils.py:20-27 | Each data column's position gets the width of its own header and cells. |
| ExcelLayout.Layout | excel_utils.py:5-27 | The positions set are exactly column A when the index is written, plus the position of every data column. |
| ExcelLayout.LayoutKeepsEveryWidth | excel_utils.py:15-27 | No width is overwritten by a later one: in the final layout every data column has the width of its own header and cells, with or without the index. |
| ExcelLayout.Worksheet.constructor | excel_utils.py:9 | A fresh sheet has no widths set. |
| ExcelLayout.Worksheet.SetWidth | excel_utils.py:26-27 | Setting a width changes that position only. |
| ExcelLayout.Autofit | excel_utils.py:5-27 | The sheet ends with the old widths overridden by `Layout`: the index width at column A when the index is written, then every data column's width. |
| ExcelLayout.IndexColumn | excel_utils.py:15-18 | With the index written, column A holds the index width. Without it, column A is the first data column's. |

## Left out

- The language model is an oracle parameter from prompt to reply, and the
  same prompt always gets the same reply. The model name, token limit and
  temperature, and `summarize_texts` and `process_dataframe` (which call
  `create_prompt` without its second argument), are not part of this model.
- Reading and writing `topic_cache.json` is not modelled. `_load_cache`'s
  result is a constructor parameter, and `_save_cache` records the map it
  would write in the `savedCache` field. JSON round-tripping of the pairs is
  not modelled.
- `pd.read_csv` of the reference sheet is not modelled: the sheet arrives as
  a table. Parsing "Week Start" is a parameter, and today's date is a
  parameter.
- In `clean_responses`, `pd.to_datetime`, `isocalendar().week` and
  `strftime('%Y-%W')` are parameters.
- `get_responses`, the Forms, Sheets and Drive API calls, authentication,
  `analyze_responses.py`, `main.py`, `config.py` and `read_few_shot_examples`
  are not part of this model. `openpyxl`'s workbook and `get_column_letter`
  are replaced by a map from 1-based position to width.
- Strings.ParseInt: accepts ASCII digits only. Python's `int()` also accepts
  every other Unicode decimal digit (Arabic-Indic, full-width and so on) and
  surrounding whitespace, so a reply written in such digits is a parse error
  here and a number in the code.
- TopicCategorization.ClassifyNonInteger: is stated for ASCII characters
  only, for the same reason.
- Strings.Upper: upper-cases ASCII letters only; Python's full Unicode case
  mapping is not modelled.
- TopicCategorization.GetCategorizationSummary: the mapping details are a
  multiset of (topic, match) pairs. The order and grouping of pandas'
  `groupby(...).size()` records are not modelled, and neither are the
  printed messages. The only `groupby` failure modelled is grouping a column
  with itself. Any other exception caught by the `try` at :184-189 would
  leave the details empty, and the model reports the pairs instead.
- TopicCategorization.TopicCategorizer.CategorizeDataframeTopics: requires
  the topic cells to be strings or missing. Topics of other types, which
  pandas would pass to the model as they are, are not modelled.
- ResponseCleaning.CastQuant: `astype('Int64')` is modelled as accepting
  integers and missing values and rejecting everything else. pandas'
  conversion of numeric strings and floats is not modelled. Integers are
  unbounded: the 64-bit range of `Int64` and the overflow error of values
  outside it are not modelled.
- ResponseCleaning.Rescale: `value * 2` doubles integers and repeats strings.
  The doubled integers are unbounded, so the 64-bit wrap-around of a numeric
  pandas column is not modelled.
  On other cells (timestamps) the model leaves the value unchanged instead of
  raising.
- ResponseCleaning.AttributeGuide: follows the code, which copies the first
  guide column present whether or not its cells are empty. A design that
  takes the first non-empty guide name per row would differ.
- FormsFlattening.QuestionMap: an item is a title and an optional question
  id, so a `questionItem` without `question` or `questionId` cannot be
  written down. The KeyError that forms_client.py:91 raises for such an item
  is not modelled; the Forms API always sends both.
- FormsFlattening.Values: text answer values are strings or absent. The
  TypeError that `'; '.join` raises at forms_client.py:110 on a value of
  another type is not modelled.
- FormsFlattening.ProcessResponses: returns the records. Building the pandas
  frame from them (the union of keys as columns, missing cells for absent
  keys) is not modelled. `str(answer_data)` for answer kinds other than text
  and file upload is the `repr` field of the answer.
- Summarization.SimpleTextSummarizer.CreatePrompt: texts and example lists are
  strings. Python's f-string rendering of other values is not modelled.
- ExcelLayout.Autofit: the cells arrive already converted to text
  (`astype(str)`). pandas' text forms of numbers, missing values and dates
  are not modelled, nor are duplicate column names.
- TopicCategorization.CollidingKeyServesForeignTopic: key collisions are
  stated as the behaviour of the code as written. Whether the authors meant
  the key to be collision-free cannot be told from the code, so the model
  keeps the code's key.
