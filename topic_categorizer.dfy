/**
 * The topic categorizer: it maps free-text session topics onto a curated list
 * of reference topics by asking a language model for the number of the
 * closest one, and memoizes every answer in a cache keyed by the topic and
 * the sorted reference list.
 *
 * The language model is an oracle: a function from the prompt to a reply,
 * which is either the reply's text or a failure (the call raised).
 */
module TopicCategorization {
  import opened Wrappers
  import opened Strings
  import opened Frames

  datatype Confidence = High | Medium | NoMatch | InvalidResponse | ParseError | ApiError

  /** The label each tier is stored and reported under. */
  function ConfidenceName(c: Confidence): string {
    match c
    case High => "high"
    case Medium => "medium"
    case NoMatch => "no_match"
    case InvalidResponse => "invalid_response"
    case ParseError => "parse_error"
    case ApiError => "api_error"
  }

  /** The pair `(matched_topic, confidence)` that `find_closest_topic` returns. */
  datatype Match = Match(topic: Option<string>, confidence: Option<Confidence>)

  const NoResult := Match(None, None)

  datatype OracleReply = Reply(content: string) | CallFailed

  // ---------------------------------------------------------------------------
  // Cache key

  /** `_get_cache_key`: the topic, then ":::", then the sorted reference topics joined by "|". */
  function CacheKey(topic: string, refs: seq<string>): (k: string)
    ensures topic + ":::" <= k
  {
    topic + ":::" + Join("|", Sort(refs))
  }

  /** Any reordering of the reference list gives the same key. */
  lemma CacheKeyPermutation(topic: string, refs1: seq<string>, refs2: seq<string>)
    requires multiset(refs1) == multiset(refs2)
    ensures CacheKey(topic, refs1) == CacheKey(topic, refs2)
  {
    SortPermutation(refs1, refs2);
  }

  /** For one reference list, different topics (including ones differing only in case) get different keys. */
  lemma CacheKeyTopicInjective(topic1: string, topic2: string, refs: seq<string>)
    requires CacheKey(topic1, refs) == CacheKey(topic2, refs)
    ensures topic1 == topic2
  {
    var tail := ":::" + Join("|", Sort(refs));
    assert CacheKey(topic1, refs) == topic1 + tail && CacheKey(topic2, refs) == topic2 + tail;
    assert |topic1| == |topic2|;
    assert topic1 == CacheKey(topic1, refs)[..|topic1|];
  }

  /**
   * The key is not injective in the pair (topic, reference list): the
   * separators may occur inside topics, so two different requests can share
   * one cache entry.
   */
  lemma CacheKeyCollisions(topic: string, a: string, b: string)
    ensures CacheKey(topic + ":::" + a, [b]) == CacheKey(topic, [a + ":::" + b])
    ensures LexLe(a, b) ==> CacheKey(topic, [a + "|" + b]) == CacheKey(topic, [a, b])
  {
    SeparatorInTopic(topic, a, b);
    if LexLe(a, b) {
      SeparatorInReference(topic, a, b);
    }
  }

  lemma SeparatorInTopic(topic: string, a: string, b: string)
    ensures CacheKey(topic + ":::" + a, [b]) == CacheKey(topic, [a + ":::" + b])
  {
    SingletonKey(topic + ":::" + a, b);
    SingletonKey(topic, a + ":::" + b);
    var sep := ":::";
    assert (topic + sep + a) + sep + b == topic + sep + (a + sep + b);
  }

  lemma SeparatorInReference(topic: string, a: string, b: string)
    requires LexLe(a, b)
    ensures CacheKey(topic, [a + "|" + b]) == CacheKey(topic, [a, b])
  {
    SingletonKey(topic, a + "|" + b);
    PairKey(topic, a, b);
  }

  lemma PairKey(topic: string, a: string, b: string)
    requires LexLe(a, b)
    ensures CacheKey(topic, [a, b]) == topic + ":::" + (a + "|" + b)
  {
    assert [a, b][1..] == [b];
    assert Sort([b]) == [b] by { assert [b][1..] == []; }
    assert Sort([a, b]) == [a, b];
    assert Join("|", [a, b]) == a + "|" + b;
  }

  lemma SingletonKey(topic: string, x: string)
    ensures CacheKey(topic, [x]) == topic + ":::" + x
  {
    assert [x][1..] == [];
    assert Sort([x]) == Insert(x, []) == [x];
  }

  // ---------------------------------------------------------------------------
  // Prompt

  const PromptIntro: string :=
    "You are an expert at categorizing and matching topics. "
    + "Given a topic and a list of reference topics, find the closest semantic match. "
    + "Consider synonyms, related concepts, and broader/narrower topic relationships.\n\n"

  function PromptHead(topic: string): string {
    PromptIntro + "Topic to categorize: '" + topic + "'\n\n" + "Reference topics to match against:\n"
  }

  const PromptTail: string :=
    "\nPlease respond with only the number (1, 2, 3, etc.) of the closest matching reference topic. "
    + "If no reasonable match exists, respond with '0'.\n\n"
    + "Number:"

  function NumberedLine(k: nat, ref: string): string {
    ShowNat(k) + ". " + ref + "\n"
  }

  /** One line per reference topic, numbered from 1, in the given (unsorted) order. */
  function Numbered(refs: seq<string>): string {
    if refs == [] then ""
    else Numbered(refs[..|refs| - 1]) + NumberedLine(|refs|, refs[|refs| - 1])
  }

  function Prompt(topic: string, refs: seq<string>): string {
    PromptHead(topic) + Numbered(refs) + PromptTail
  }

  /** The lines for the first k reference topics begin the lines for all of them. */
  lemma {:induction false} NumberedPrefix(refs: seq<string>, k: nat)
    requires k <= |refs|
    ensures Numbered(refs[..k]) <= Numbered(refs)
  {
    if k < |refs| {
      var init := refs[..|refs| - 1];
      NumberedPrefix(init, k);
      assert init[..k] == refs[..k];
    } else {
      assert refs[..k] == refs;
    }
  }

  /** `create_categorization_prompt`. */
  method CreateCategorizationPrompt(topic: string, refs: seq<string>) returns (prompt: string)
    ensures prompt == Prompt(topic, refs)
  {
    prompt := PromptHead(topic);
    for i := 0 to |refs|
      invariant prompt == PromptHead(topic) + Numbered(refs[..i])
    {
      assert refs[..i + 1][..i] == refs[..i];
      prompt := prompt + NumberedLine(i + 1, refs[i]);
    }
    assert refs[..|refs|] == refs;
    prompt := prompt + PromptTail;
  }

  // ---------------------------------------------------------------------------
  // Reading the reply

  /** The outcome `find_closest_topic` derives from the oracle's reply. */
  function Classify(reply: OracleReply, refs: seq<string>): (m: Match)
    ensures m.confidence.Some?
    ensures m.topic.Some? <==> m.confidence == Some(High) || m.confidence == Some(Medium)
    ensures m.topic.Some? ==> m.topic.value in refs
    ensures m.topic.Some? ==> (m.confidence == Some(High) <==> |refs| <= 10)
    ensures reply.CallFailed? <==> m.confidence == Some(ApiError)
  {
    match reply
    case CallFailed => Match(None, Some(ApiError))
    case Reply(content) => ClassifyParsed(ParseInt(Strip(content)), refs)
  }

  /** The outcome for a reply that arrived, given what `int()` made of its stripped text. */
  function ClassifyParsed(parsed: Option<int>, refs: seq<string>): (m: Match)
    ensures m.confidence.Some? && m.confidence != Some(ApiError)
    ensures m.topic.Some? <==> m.confidence == Some(High) || m.confidence == Some(Medium)
    ensures m.topic.Some? ==> m.topic.value in refs
    ensures m.topic.Some? ==> (m.confidence == Some(High) <==> |refs| <= 10)
    ensures parsed.None? <==> m.confidence == Some(ParseError)
  {
    match parsed
    case None => Match(None, Some(ParseError))
    case Some(k) =>
      if k == 0 then Match(None, Some(NoMatch))
      else if 1 <= k <= |refs| then
        Match(Some(refs[k - 1]), Some(if |refs| <= 10 then High else Medium))
      else Match(None, Some(InvalidResponse))
  }

  /** The branches of `find_closest_topic` that turn the reply (or the exception) into a pair. */
  method ReadReply(reply: OracleReply, refs: seq<string>) returns (r: Match)
    ensures r == Classify(reply, refs)
  {
    match reply {
      case CallFailed =>
        r := Match(None, Some(ApiError));
      case Reply(content) =>
        var parsed := ParseInt(Strip(content));
        match parsed {
          case None =>
            r := Match(None, Some(ParseError));
          case Some(k) =>
            if k == 0 {
              r := Match(None, Some(NoMatch));
            } else if 1 <= k <= |refs| {
              var confidence := if |refs| <= 10 then High else Medium;
              r := Match(Some(refs[k - 1]), Some(confidence));
            } else {
              r := Match(None, Some(InvalidResponse));
            }
        }
    }
  }

  /**
   * Any reply that `int()` reads as k, whatever its spelling ("07", "+3",
   * "1_0", surrounding whitespace): 0 is no match, 1..n picks the k-th
   * topic, anything else (negatives too) is invalid.
   */
  lemma ClassifyReadAsInteger(content: string, k: int, refs: seq<string>)
    requires ParseInt(Strip(content)) == Some(k)
    ensures Classify(Reply(content), refs) ==
      if k == 0 then Match(None, Some(NoMatch))
      else if 1 <= k <= |refs| then Match(Some(refs[k - 1]), Some(if |refs| <= 10 then High else Medium))
      else Match(None, Some(InvalidResponse))
  {
    var parsed := ParseInt(Strip(content));
    assert Classify(Reply(content), refs) == ClassifyParsed(parsed, refs);
  }

  /** The canonical reply `str(k)` is read as k. */
  lemma ClassifyInteger(k: int, refs: seq<string>)
    ensures Classify(Reply(ShowInt(k)), refs) ==
      if k == 0 then Match(None, Some(NoMatch))
      else if 1 <= k <= |refs| then Match(Some(refs[k - 1]), Some(if |refs| <= 10 then High else Medium))
      else Match(None, Some(InvalidResponse))
  {
    StripShowInt(k);
    ParseShowInt(k);
    ClassifyReadAsInteger(ShowInt(k), k, refs);
  }

  /** A zero-padded reply, "07", picks the seventh topic, as `int("07") == 7`. */
  lemma PaddedReplyPicks(refs: seq<string>)
    requires 7 <= |refs|
    ensures Classify(Reply("07"), refs).topic == Some(refs[6])
  {
    assert Strip("07") == "07";
    assert DigitGroups("07");
    assert "07"[..1] == "0" && "0"[..0] == [];
    assert DigitsValue("07") == 7;
    ClassifyReadAsInteger("07", 7, refs);
  }

  /** The reply `str(k)` for 1 <= k <= n picks the k-th reference topic. */
  lemma ClassifyPick(k: nat, refs: seq<string>)
    requires 1 <= k <= |refs|
    ensures Classify(Reply(ShowNat(k)), refs).topic == Some(refs[k - 1])
  {
    assert ShowInt(k) == ShowNat(k);
    ClassifyInteger(k, refs);
  }

  /**
   * A reply whose stripped text holds an ASCII character other than a digit,
   * an underscore or a leading sign is a parse error.
   */
  lemma ClassifyNonInteger(content: string, refs: seq<string>, i: nat)
    requires i < |Strip(content)|
    requires Strip(content)[i] < '\U{0080}' && !DigitOrUnderscore(Strip(content)[i])
    requires i > 0 || (Strip(content)[i] != '+' && Strip(content)[i] != '-')
    ensures Classify(Reply(content), refs) == Match(None, Some(ParseError))
  {
  }

  /** The prompt's line k names exactly the topic a reply of k selects. */
  lemma PromptNumbering(topic: string, refs: seq<string>, k: nat)
    requires 1 <= k <= |refs|
    ensures PromptHead(topic) + Numbered(refs[..k - 1]) + NumberedLine(k, refs[k - 1]) <= Prompt(topic, refs)
    ensures Classify(Reply(ShowNat(k)), refs).topic == Some(refs[k - 1])
  {
    PromptLine(topic, refs, k);
    ClassifyPick(k, refs);
  }

  /** Line k of the prompt, after the lines before it, is a prefix of the prompt. */
  lemma PromptLine(topic: string, refs: seq<string>, k: nat)
    requires 1 <= k <= |refs|
    ensures PromptHead(topic) + Numbered(refs[..k - 1]) + NumberedLine(k, refs[k - 1]) <= Prompt(topic, refs)
  {
    assert refs[..k][..k - 1] == refs[..k - 1];
    NumberedPrefix(refs, k);
    PrefixExtend(PromptHead(topic), Numbered(refs[..k - 1]), NumberedLine(k, refs[k - 1]), Numbered(refs), PromptTail);
  }

  // ---------------------------------------------------------------------------
  // One lookup, as a state transition

  /** The result of one `find_closest_topic` call, the cache after it, and whether the oracle was asked. */
  datatype Step = Step(result: Match, cache: map<string, Match>, called: bool)

  function Find(useCache: bool, cache: map<string, Match>, topic: string, refs: seq<string>,
                oracle: string -> OracleReply): (s: Step)
    ensures s.called ==> topic != [] && refs != [] && s.result == Classify(oracle(Prompt(topic, refs)), refs)
    ensures !useCache ==> s.cache == cache
  {
    if topic == [] || refs == [] then Step(NoResult, cache, false)
    else
      var key := CacheKey(topic, refs);
      if useCache && key in cache then Step(cache[key], cache, false)
      else
        var m := Classify(oracle(Prompt(topic, refs)), refs);
        Step(m, if useCache then cache[key := m] else cache, true)
  }

  /**
   * With the cache on, asking again for the same topic, with the reference
   * list in any order, returns the first answer without asking the oracle.
   */
  lemma WarmCacheAnswersAgain(cache: map<string, Match>, topic: string, refs1: seq<string>, refs2: seq<string>,
                              oracle1: string -> OracleReply, oracle2: string -> OracleReply)
    requires multiset(refs1) == multiset(refs2)
    ensures var s1 := Find(true, cache, topic, refs1, oracle1);
            var s2 := Find(true, s1.cache, topic, refs2, oracle2);
            s2 == Step(s1.result, s1.cache, false)
  {
    CacheKeyPermutation(topic, refs1, refs2);
    assert |refs1| == |multiset(refs1)| == |refs2|;
  }

  /** A miss writes exactly the returned pair under the key and changes no other entry; a hit or short-circuit writes nothing. */
  lemma FindCacheUpdate(useCache: bool, cache: map<string, Match>, topic: string, refs: seq<string>,
                        oracle: string -> OracleReply)
    ensures var s := Find(useCache, cache, topic, refs, oracle);
            && (s.called && useCache ==> s.cache == cache[CacheKey(topic, refs) := s.result])
            && (!s.called || !useCache ==> s.cache == cache)
            && (s.called ==> topic != [] && refs != [] && s.result == Classify(oracle(Prompt(topic, refs)), refs))
            && (!s.called && topic != [] && refs != [] ==> useCache && s.result == cache[CacheKey(topic, refs)])
            && (topic == [] || refs == [] ==> s == Step(NoResult, cache, false))
            && (s.called <==> topic != [] && refs != [] && !(useCache && CacheKey(topic, refs) in cache))
  {
  }

  /**
   * Because of key collisions, a cache hit can serve a topic that is not in
   * the current reference list: after looking up topic `t:::a` against `[b]`,
   * looking up `t` against `[a:::b]` is a hit that returns the first answer,
   * which (when the model replied "1") is `b`.
   */
  lemma CollidingKeyServesForeignTopic(t: string, a: string, b: string, oracle: string -> OracleReply)
    requires t != [] && oracle(Prompt(t + ":::" + a, [b])) == Reply(ShowNat(1))
    ensures var s1 := Find(true, map[], t + ":::" + a, [b], oracle);
            var s2 := Find(true, s1.cache, t, [a + ":::" + b], oracle);
            && s2.result.topic == Some(b) && b !in [a + ":::" + b] && !s2.called
  {
    var s1 := Find(true, map[], t + ":::" + a, [b], oracle);
    FirstLookupPicks(t + ":::" + a, b, oracle);
    CacheKeyCollisions(t, a, b);
    FindCacheUpdate(true, s1.cache, t, [a + ":::" + b], oracle);
    assert |a + ":::" + b| > |b|;
  }

  /** On an empty cache, a reply of "1" against a one-topic list caches and returns that topic. */
  lemma FirstLookupPicks(topic: string, b: string, oracle: string -> OracleReply)
    requires topic != [] && oracle(Prompt(topic, [b])) == Reply(ShowNat(1))
    ensures var s := Find(true, map[], topic, [b], oracle);
            && s.result.topic == Some(b) && s.cache == map[CacheKey(topic, [b]) := s.result]
  {
    FindCacheUpdate(true, map[], topic, [b], oracle);
    ClassifyPick(1, [b]);
  }

  // ---------------------------------------------------------------------------
  // The table-level pass, as a fold of lookups

  /** The topic mapping, the cache and the prompts sent after looking up `topics` in order. */
  datatype Pass = Pass(mapping: map<string, Match>, cache: map<string, Match>, calls: seq<string>)

  function CategorizeAll(useCache: bool, cache: map<string, Match>, topics: seq<string>, refs: seq<string>,
                         oracle: string -> OracleReply): (p: Pass)
    ensures !useCache ==> p.cache == cache
  {
    if topics == [] then Pass(map[], cache, [])
    else
      var p := CategorizeAll(useCache, cache, topics[..|topics| - 1], refs, oracle);
      var t := topics[|topics| - 1];
      var s := Find(useCache, p.cache, t, refs, oracle);
      Pass(p.mapping[t := s.result], s.cache, p.calls + (if s.called then [Prompt(t, refs)] else []))
  }

  /** Extending the looked-up prefix by one topic adds that topic's lookup. */
  lemma CategorizeAllStep(useCache: bool, cache: map<string, Match>, topics: seq<string>, i: nat,
                          refs: seq<string>, oracle: string -> OracleReply)
    requires i < |topics|
    ensures var p := CategorizeAll(useCache, cache, topics[..i], refs, oracle);
            var s := Find(useCache, p.cache, topics[i], refs, oracle);
            CategorizeAll(useCache, cache, topics[..i + 1], refs, oracle)
              == Pass(p.mapping[topics[i] := s.result], s.cache, p.calls + (if s.called then [Prompt(topics[i], refs)] else []))
  {
    assert topics[..i + 1][..i] == topics[..i];
  }

  /**
   * One more topic in the fold: its entry, the cache and the prompts are
   * those of one `Find` on the cache so far, and a prompt is added exactly
   * when that `Find` asks the model, which leaves the cache alone otherwise.
   */
  lemma CategorizeAllNext(useCache: bool, cache: map<string, Match>, topics: seq<string>, i: nat,
                          refs: seq<string>, oracle: string -> OracleReply)
    requires i < |topics|
    ensures var p := CategorizeAll(useCache, cache, topics[..i], refs, oracle);
            var s := Find(useCache, p.cache, topics[i], refs, oracle);
            var q := CategorizeAll(useCache, cache, topics[..i + 1], refs, oracle);
            && q.mapping == p.mapping[topics[i] := s.result]
            && q.cache == s.cache
            && q.calls == p.calls + (if s.called then [Prompt(topics[i], refs)] else [])
            && (q.calls != [] <==> p.calls != [] || s.called)
            && (!s.called ==> s.cache == p.cache)
  {
    var p := CategorizeAll(useCache, cache, topics[..i], refs, oracle);
    CategorizeAllStep(useCache, cache, topics, i, refs, oracle);
    FindCacheUpdate(useCache, p.cache, topics[i], refs, oracle);
  }

  /** Every topic gets an entry, and the oracle is asked at most once per topic. */
  lemma {:induction false} CategorizeAllCovers(useCache: bool, cache: map<string, Match>, topics: seq<string>,
                                               refs: seq<string>, oracle: string -> OracleReply)
    ensures var p := CategorizeAll(useCache, cache, topics, refs, oracle);
            && (forall t :: t in p.mapping <==> t in topics)
            && |p.calls| <= |topics|
  {
    if topics != [] {
      var init := topics[..|topics| - 1];
      CategorizeAllCovers(useCache, cache, init, refs, oracle);
      assert topics == init + [topics[|topics| - 1]];
    }
  }

  /**
   * With the cache on, after the pass every non-empty topic's key holds
   * exactly the pair the pass mapped that topic to.
   */
  lemma {:induction false} CategorizeAllCached(cache: map<string, Match>, topics: seq<string>,
                                               refs: seq<string>, oracle: string -> OracleReply)
    requires refs != []
    ensures var p := CategorizeAll(true, cache, topics, refs, oracle);
            forall t :: t in topics && t != [] ==>
              t in p.mapping && CacheKey(t, refs) in p.cache && p.cache[CacheKey(t, refs)] == p.mapping[t]
  {
    if topics != [] {
      var init := topics[..|topics| - 1];
      var last := topics[|topics| - 1];
      assert topics == init + [last];
      CategorizeAllCached(cache, init, refs, oracle);
      CategorizeAllCovers(true, cache, init, refs, oracle);
      var p := CategorizeAll(true, cache, init, refs, oracle);
      var s := Find(true, p.cache, last, refs, oracle);
      FindCacheUpdate(true, p.cache, last, refs, oracle);
      var q := CategorizeAll(true, cache, topics, refs, oracle);
      assert q.mapping == p.mapping[last := s.result] && q.cache == s.cache;
      forall t | t in topics && t != []
        ensures t in q.mapping && CacheKey(t, refs) in q.cache && q.cache[CacheKey(t, refs)] == q.mapping[t]
      {
        if t != last {
          assert t in init;
          if CacheKey(t, refs) == CacheKey(last, refs) {
            CacheKeyTopicInjective(t, last, refs);
          }
        }
      }
    }
  }

  /** With every key already cached, the pass asks the oracle nothing. */
  lemma {:induction false} CategorizeAllWarm(cache: map<string, Match>, topics: seq<string>,
                                             refs: seq<string>, oracle: string -> OracleReply)
    requires forall t :: t in topics ==> CacheKey(t, refs) in cache
    ensures var p := CategorizeAll(true, cache, topics, refs, oracle);
            p.calls == [] && p.cache == cache
  {
    if topics != [] {
      var init := topics[..|topics| - 1];
      var last := topics[|topics| - 1];
      assert topics == init + [last];
      CategorizeAllWarm(cache, init, refs, oracle);
      FindCacheUpdate(true, cache, last, refs, oracle);
    }
  }

  function MatchedCell(m: Match): Cell {
    if m.topic.Some? then Text(m.topic.value) else Missing
  }

  function ConfidenceCell(m: Match): Cell {
    if m.confidence.Some? then Text(ConfidenceName(m.confidence.value)) else Missing
  }

  /** The working copy with `matched_topic` and `match_confidence` set to None. */
  function Cleared(df: Table): (r: Table)
    requires WellFormed(df)
    ensures WellFormed(r) && |r.rows| == |df.rows|
    ensures forall c :: c in r.columns <==> c in df.columns || c == "matched_topic" || c == "match_confidence"
    ensures forall i :: 0 <= i < |r.rows| ==>
              && r.rows[i]["matched_topic"] == Missing && r.rows[i]["match_confidence"] == Missing
              && forall c :: c in df.columns && c != "matched_topic" && c != "match_confidence" ==>
                   r.rows[i][c] == df.rows[i][c]
  {
    var columns := WithColumn(WithColumn(df.columns, "matched_topic"), "match_confidence");
    Table(columns, seq(|df.rows|, i requires 0 <= i < |df.rows| =>
      df.rows[i]["matched_topic" := Missing]["match_confidence" := Missing]))
  }

  /** Copy each row's topic mapping onto it (`Series.map`): missing topics map to nothing. */
  function Broadcast(copy: Table, topicColumn: string, mapping: map<string, Match>): (r: Table)
    requires WellFormed(copy) && topicColumn in copy.columns
    requires "matched_topic" in copy.columns && "match_confidence" in copy.columns
    ensures WellFormed(r) && r.columns == copy.columns && |r.rows| == |copy.rows|
  {
    Table(copy.columns, seq(|copy.rows|, i requires 0 <= i < |copy.rows| =>
      var topic := copy.rows[i][topicColumn];
      var m := if topic.Text? && topic.s in mapping then mapping[topic.s] else NoResult;
      copy.rows[i]["matched_topic" := MatchedCell(m)]["match_confidence" := ConfidenceCell(m)]))
  }

  /** The distinct topics as strings. */
  function TopicStrings(cells: seq<Cell>): (r: seq<string>)
    requires forall i :: 0 <= i < |cells| ==> cells[i].Text?
    ensures |r| == |cells| && forall i :: 0 <= i < |r| ==> cells[i] == Text(r[i])
    ensures forall t :: t in r <==> Text(t) in cells
    ensures Distinct(cells) ==> Distinct(r)
  {
    var r := seq(|cells|, i requires 0 <= i < |cells| => cells[i].s);
    assert forall t :: Text(t) in cells ==> t in r by {
      forall t | Text(t) in cells ensures t in r {
        var k :| 0 <= k < |cells| && cells[k] == Text(t);
        assert r[k] == t;
      }
    }
    r
  }

  /** Topic cells are strings or missing. */
  predicate TextTopics(df: Table, topicColumn: string)
    requires WellFormed(df)
  {
    topicColumn in df.columns ==>
      forall i :: 0 <= i < |df.rows| ==> df.rows[i][topicColumn].Missing? || df.rows[i][topicColumn].Text?
  }

  /** The distinct non-missing topics of the working copy, in order of first appearance. */
  function DistinctTopics(df: Table, topicColumn: string): (r: seq<string>)
    requires WellFormed(df) && topicColumn in df.columns && TextTopics(df, topicColumn)
    ensures Distinct(r)
    ensures forall t :: t in r <==> Text(t) in Column(Cleared(df), topicColumn)
  {
    var column := Column(Cleared(df), topicColumn);
    var cells := Unique(column);
    assert forall i :: 0 <= i < |cells| ==> cells[i].Text? by {
      forall i | 0 <= i < |cells| ensures cells[i].Text? {
        assert cells[i] in column;
      }
    }
    TopicStrings(cells)
  }

  /** Rows sharing a topic value share the match; rows without a topic get none; nothing else changes. */
  lemma BroadcastRows(copy: Table, topicColumn: string, mapping: map<string, Match>, i: nat, j: nat)
    requires WellFormed(copy) && topicColumn in copy.columns
    requires "matched_topic" in copy.columns && "match_confidence" in copy.columns
    requires topicColumn != "matched_topic" && topicColumn != "match_confidence"
    requires i < |copy.rows| && j < |copy.rows|
    ensures var r := Broadcast(copy, topicColumn, mapping);
            && |r.rows| == |copy.rows|
            && (copy.rows[i][topicColumn] == copy.rows[j][topicColumn] ==>
                  r.rows[i]["matched_topic"] == r.rows[j]["matched_topic"]
                  && r.rows[i]["match_confidence"] == r.rows[j]["match_confidence"])
            && (copy.rows[i][topicColumn].Missing? ==>
                  r.rows[i]["matched_topic"] == Missing && r.rows[i]["match_confidence"] == Missing)
            && (copy.rows[i][topicColumn].Text? && copy.rows[i][topicColumn].s in mapping ==>
                  var m := mapping[copy.rows[i][topicColumn].s];
                  r.rows[i]["matched_topic"] == MatchedCell(m) && r.rows[i]["match_confidence"] == ConfidenceCell(m))
            && (forall c :: c in copy.columns && c != "matched_topic" && c != "match_confidence" ==>
                  r.rows[i][c] == copy.rows[i][c])
  {
  }

  // ---------------------------------------------------------------------------
  // The categorizer object

  class TopicCategorizer {
    const useCache: bool
    /** `topic_cache`: cache key to `(matched_topic, confidence)`. */
    var topicCache: map<string, Match>
    /** What this object last wrote to the cache file, if anything. */
    var savedCache: Option<map<string, Match>>
    /** The prompts sent to the oracle, in order. */
    ghost var prompts: seq<string>
    /** The topics `FindClosestTopic` was called with, in order. */
    ghost var lookups: seq<string>

    /** With caching off nothing is cached and nothing is written. */
    ghost predicate CacheOff()
      reads this
    {
      !useCache ==> topicCache == map[] && savedCache == None
    }

    /** Besides, whatever was last written to the cache file is the current cache. */
    ghost predicate Valid()
      reads this
    {
      CacheOff() && (savedCache.Some? ==> savedCache.value == topicCache)
    }

    /** `__init__` once the API key is known; `cacheFile` is what `_load_cache` read, None if nothing. */
    constructor (useCache: bool, cacheFile: Option<map<string, Match>>)
      ensures Valid() && this.useCache == useCache
      ensures topicCache == (if useCache then cacheFile.GetOr(map[]) else map[])
      ensures savedCache == None && prompts == [] && lookups == []
    {
      this.useCache := useCache;
      topicCache := if useCache then cacheFile.GetOr(map[]) else map[];
      savedCache := None;
      prompts := [];
      lookups := [];
    }

    /** `_save_cache`: a no-op with caching off. */
    method SaveCache()
      requires CacheOff()
      modifies this
      ensures Valid()
      ensures savedCache == (if useCache then Some(topicCache) else old(savedCache))
      ensures topicCache == old(topicCache) && prompts == old(prompts) && lookups == old(lookups)
    {
      if !useCache {
        return;
      }
      savedCache := Some(topicCache);
    }

    method Remember(topic: string, refs: seq<string>, m: Match)
      requires Valid()
      modifies this
      ensures Valid()
      ensures topicCache == (if useCache then old(topicCache)[CacheKey(topic, refs) := m] else old(topicCache))
      ensures savedCache == (if useCache then Some(topicCache) else old(savedCache))
      ensures prompts == old(prompts) && lookups == old(lookups)
    {
      if useCache {
        var key := CacheKey(topic, refs);
        topicCache := topicCache[key := m];
        SaveCache();
      }
    }

    /** `find_closest_topic`. */
    method FindClosestTopic(topic: string, refs: seq<string>, oracle: string -> OracleReply) returns (r: Match)
      requires Valid()
      modifies this
      ensures Valid()
      ensures var s := Find(useCache, old(topicCache), topic, refs, oracle);
              && r == s.result && topicCache == s.cache
              && prompts == old(prompts) + (if s.called then [Prompt(topic, refs)] else [])
              && savedCache == (if s.called && useCache then Some(topicCache) else old(savedCache))
      ensures lookups == old(lookups) + [topic]
    {
      ghost var s := Find(useCache, topicCache, topic, refs, oracle);
      FindCacheUpdate(useCache, topicCache, topic, refs, oracle);
      lookups := lookups + [topic];
      if topic == [] || refs == [] {
        assert s.result == NoResult;
        return NoResult;
      }
      if useCache {
        var key := CacheKey(topic, refs);
        if key in topicCache {
          assert s.result == topicCache[key];
          return topicCache[key];
        }
      }
      assert s.called;
      var prompt := CreateCategorizationPrompt(topic, refs);
      var reply := oracle(prompt);
      prompts := prompts + [prompt];
      r := ReadReply(reply, refs);
      Remember(topic, refs, r);
    }

    /** `categorize_dataframe_topics`: one lookup per distinct topic, broadcast to every row of a copy. */
    method CategorizeDataframeTopics(df: Table, refs: seq<string>, topicColumn: string,
                                     oracle: string -> OracleReply) returns (r: Result<Table, Error>)
      requires Valid() && WellFormed(df) && TextTopics(df, topicColumn)
      modifies this
      ensures Valid()
      ensures topicColumn !in df.columns ==>
                && r == Failure(MissingColumn(topicColumn))
                && topicCache == old(topicCache) && savedCache == old(savedCache)
                && prompts == old(prompts) && lookups == old(lookups)
      ensures topicColumn in df.columns ==>
                var topics := DistinctTopics(df, topicColumn);
                var p := CategorizeAll(useCache, old(topicCache), topics, refs, oracle);
                && r == Success(Broadcast(Cleared(df), topicColumn, p.mapping))
                && topicCache == p.cache
                && prompts == old(prompts) + p.calls
                && lookups == old(lookups) + topics
                && savedCache == (if useCache && p.calls != [] then Some(topicCache) else old(savedCache))
    {
      if topicColumn !in df.columns {
        return Failure(MissingColumn(topicColumn));
      }
      var copy := Cleared(df);
      var uniqueTopics := DistinctTopics(df, topicColumn);
      var topicMapping := LookUpAll(uniqueTopics, refs, oracle);
      r := Success(Broadcast(copy, topicColumn, topicMapping));
    }

    /** The loop of `categorize_dataframe_topics`: one `find_closest_topic` per distinct topic. */
    /**
     * The state after looking up a prefix whose fold is `p`, starting from
     * `prompts0` and `saved0`: the loop's mapping and the cache are the fold's,
     * its prompts were sent, and the cache file was written if one was.
     */
    ghost predicate LookedUp(p: Pass, mapping: map<string, Match>, prompts0: seq<string>, saved0: Option<map<string, Match>>)
      reads this
    {
      Valid() && mapping == p.mapping && topicCache == p.cache && prompts == prompts0 + p.calls
      && savedCache == (if useCache && p.calls != [] then Some(topicCache) else saved0)
    }

    /**
     * One iteration of the `categorize_dataframe_topics` loop: after the
     * topics `done`, look `topic` up and record it.
     */
    method LookUpNext(topic: string, ghost done: seq<string>, refs: seq<string>, oracle: string -> OracleReply,
                      mapping: map<string, Match>, ghost cache0: map<string, Match>,
                      ghost prompts0: seq<string>, ghost saved0: Option<map<string, Match>>)
      returns (mapping': map<string, Match>)
      requires LookedUp(CategorizeAll(useCache, cache0, done, refs, oracle), mapping, prompts0, saved0)
      modifies this
      ensures LookedUp(CategorizeAll(useCache, cache0, done + [topic], refs, oracle), mapping', prompts0, saved0)
      ensures lookups == old(lookups) + [topic]
    {
      ghost var p := CategorizeAll(useCache, cache0, done, refs, oracle);
      assert (done + [topic])[..|done|] == done;
      ghost var s := Find(useCache, topicCache, topic, refs, oracle);
      ghost var asked: seq<string> := if s.called then [Prompt(topic, refs)] else [];
      FindCacheUpdate(useCache, topicCache, topic, refs, oracle);
      var m := FindClosestTopic(topic, refs, oracle);
      mapping' := mapping[topic := m];
      ConcatAssociative(prompts0, p.calls, asked);
      assert p.calls + asked != [] <==> p.calls != [] || s.called;
    }

    method LookUpAll(topics: seq<string>, refs: seq<string>, oracle: string -> OracleReply)
      returns (topicMapping: map<string, Match>)
      requires Valid()
      modifies this
      ensures Valid()
      ensures var p := CategorizeAll(useCache, old(topicCache), topics, refs, oracle);
              && topicMapping == p.mapping && topicCache == p.cache
              && prompts == old(prompts) + p.calls
              && savedCache == (if useCache && p.calls != [] then Some(topicCache) else old(savedCache))
      ensures lookups == old(lookups) + topics
    {
      topicMapping := map[];
      ghost var cache0, prompts0, lookups0, saved0 := topicCache, prompts, lookups, savedCache;
      for i := 0 to |topics|
        invariant LookedUp(CategorizeAll(useCache, cache0, topics[..i], refs, oracle), topicMapping, prompts0, saved0)
        invariant lookups == lookups0 + topics[..i]
      {
        assert topics[..i + 1] == topics[..i] + [topics[i]];
        topicMapping := LookUpNext(topics[i], topics[..i], refs, oracle, topicMapping, cache0, prompts0, saved0);
      }
      assert topics[..|topics|] == topics;
    }
  }

  lemma ConcatAssociative<T>(a: seq<T>, b: seq<T>, c: seq<T>)
    ensures a + b + c == a + (b + c)
  {
  }

  /** `__init__`: raises when no API key is given. */
  method NewTopicCategorizer(apiKey: Option<string>, useCache: bool, cacheFile: Option<map<string, Match>>)
    returns (r: Result<TopicCategorizer, Error>)
    ensures apiKey.None? <==> r.Failure?
    ensures r.Failure? ==> r.error == MissingApiKey
    ensures r.Success? ==>
              fresh(r.value) && r.value.Valid() && r.value.useCache == useCache
              && r.value.topicCache == (if useCache then cacheFile.GetOr(map[]) else map[])
  {
    if apiKey.None? {
      return Failure(MissingApiKey);
    }
    var c := new TopicCategorizer(useCache, cacheFile);
    r := Success(c);
  }

  // ---------------------------------------------------------------------------
  // Summary of a categorized table

  /** `get_categorization_summary`'s dictionary; `mappingDetails` counts each (topic, match) pair. */
  datatype Summary = Summary(totalUniqueTopics: nat, totalUniqueMatchedTopics: nat, unmatchedEntries: nat,
                             unmatchedTopics: seq<Cell>, mappingDetails: multiset<(Cell, Cell)>)

  /** The topic cell of every row that has a topic but no match, in row order. */
  function UnmatchedTopicCells(topics: seq<Cell>, matched: seq<Cell>): (r: seq<Cell>)
    requires |topics| == |matched|
    ensures |r| <= |topics|
    ensures forall c :: c in r ==> c != Missing && exists i :: 0 <= i < |topics| && topics[i] == c && matched[i] == Missing
    ensures forall i :: 0 <= i < |topics| && topics[i] != Missing && matched[i] == Missing ==> topics[i] in r
    ensures r == [] <==> forall i :: 0 <= i < |topics| ==> topics[i] == Missing || matched[i] != Missing
  {
    if topics == [] then []
    else
      var n := |topics| - 1;
      var r := UnmatchedTopicCells(topics[..n], matched[..n]);
      if matched[n] == Missing && topics[n] != Missing then r + [topics[n]] else r
  }

  /** The rows without a match, one row at a time: the last row adds itself or nothing. */
  lemma UnmatchedRowsStep(topics: seq<Cell>, matched: seq<Cell>)
    requires |topics| == |matched| && topics != []
    ensures var n := |topics| - 1;
            |UnmatchedRows(topics, matched)|
              == |UnmatchedRows(topics[..n], matched[..n])| + (if matched[n] == Missing && topics[n] != Missing then 1 else 0)
  {
    var n := |topics| - 1;
    var before := UnmatchedRows(topics[..n], matched[..n]);
    var after := UnmatchedRows(topics, matched);
    var last: set<nat> := if matched[n] == Missing && topics[n] != Missing then {n} else {};
    forall i: nat
      ensures i in after <==> i in before + last
    {
      if i < n {
        assert topics[..n][i] == topics[i] && matched[..n][i] == matched[i];
      }
    }
    assert after == before + last;
    assert before * last == {};
  }

  /** One cell is collected per row with a topic and no match: repeated topics are counted again. */
  lemma {:induction false} UnmatchedCount(topics: seq<Cell>, matched: seq<Cell>)
    requires |topics| == |matched|
    ensures |UnmatchedTopicCells(topics, matched)| == |UnmatchedRows(topics, matched)|
  {
    if topics != [] {
      var n := |topics| - 1;
      UnmatchedCount(topics[..n], matched[..n]);
      UnmatchedRowsStep(topics, matched);
    }
  }

  /** The rows that have a topic but no match. */
  function UnmatchedRows(topics: seq<Cell>, matched: seq<Cell>): set<nat>
    requires |topics| == |matched|
  {
    set i: nat | i < |topics| && topics[i] != Missing && matched[i] == Missing
  }

  function Pairs(topics: seq<Cell>, matched: seq<Cell>): seq<(Cell, Cell)>
    requires |topics| == |matched|
  {
    seq(|topics|, i requires 0 <= i < |topics| => (topics[i], matched[i]))
  }

  /**
   * The dictionary `get_categorization_summary` returns for the topic and
   * match columns. The mapping details come from a `groupby` inside a `try`:
   * grouping a column with itself cannot be reset to columns, so they are
   * then empty.
   */
  function Summarize(topics: seq<Cell>, matched: seq<Cell>, sameColumn: bool): (s: Summary)
    requires |topics| == |matched|
    ensures s.totalUniqueTopics == |set c | c in topics && c != Missing| <= |topics|
    ensures s.totalUniqueMatchedTopics == |set c | c in matched && c != Missing| <= |topics|
    ensures s.unmatchedEntries == |UnmatchedRows(topics, matched)| <= |topics|
    ensures Distinct(s.unmatchedTopics)
    ensures |s.mappingDetails| == if sameColumn then 0 else |topics|
  {
    var unmatched := UnmatchedTopicCells(topics, matched);
    UnmatchedCount(topics, matched);
    var details := if sameColumn then multiset{} else multiset(Pairs(topics, matched));
    Summary(|Unique(topics)|, |Unique(matched)|, |unmatched|, Unique(unmatched), details)
  }

  /**
   * `get_categorization_summary`: both columns are checked before anything is
   * counted. Listing the unmatched topics sorts them, which raises when two of
   * them cannot be compared.
   */
  function GetCategorizationSummary(df: Table, topicColumn: string, matchedColumn: string): (r: Result<Summary, Error>)
    requires WellFormed(df)
    ensures topicColumn !in df.columns || matchedColumn !in df.columns ==>
              r == Failure(MissingColumn(if topicColumn !in df.columns then topicColumn else matchedColumn))
    ensures topicColumn in df.columns && matchedColumn in df.columns ==>
              var topics := Column(df, topicColumn);
              var matched := Column(df, matchedColumn);
              && (r.Failure? <==> !Orderable(Unique(UnmatchedTopicCells(topics, matched))))
              && (r.Failure? ==> r.error == TypeError)
              && (r.Success? ==> r.value == Summarize(topics, matched, topicColumn == matchedColumn))
  {
    if topicColumn !in df.columns then Failure(MissingColumn(topicColumn))
    else if matchedColumn !in df.columns then Failure(MissingColumn(matchedColumn))
    else
      var topics := Column(df, topicColumn);
      var matched := Column(df, matchedColumn);
      if !Orderable(Unique(UnmatchedTopicCells(topics, matched))) then Failure(TypeError)
      else Success(Summarize(topics, matched, topicColumn == matchedColumn))
  }

  /** Rows i and j both have a topic and no match, and `sorted()` cannot compare their topics. */
  predicate ClashingUnmatched(topics: seq<Cell>, matched: seq<Cell>, i: int, j: int)
    requires |topics| == |matched|
  {
    && 0 <= i < |topics| && topics[i] != Missing && matched[i] == Missing
    && 0 <= j < |topics| && topics[j] != Missing && matched[j] == Missing
    && !Comparable(topics[i], topics[j])
  }

  /**
   * Sorting the unmatched topics raises TypeError exactly when two rows with
   * a topic and no match hold topics of kinds Python cannot compare, such as
   * an int and a string.
   */
  lemma UnsortableUnmatched(topics: seq<Cell>, matched: seq<Cell>)
    requires |topics| == |matched|
    ensures !Orderable(Unique(UnmatchedTopicCells(topics, matched))) <==>
              exists i, j :: ClashingUnmatched(topics, matched, i, j)
  {
    var w := Unique(UnmatchedTopicCells(topics, matched));
    UnmatchedMeaning(topics, matched);
    OrderableMembers(w);
    if !Orderable(w) {
      var a, b :| a in w && b in w && !Comparable(a, b);
      var i :| 0 <= i < |topics| && topics[i] == a && matched[i] == Missing;
      var j :| 0 <= j < |topics| && topics[j] == b && matched[j] == Missing;
      assert ClashingUnmatched(topics, matched, i, j);
    }
    if exists i, j :: ClashingUnmatched(topics, matched, i, j) {
      var i, j :| ClashingUnmatched(topics, matched, i, j);
      assert topics[i] in w && topics[j] in w;
    }
  }

  /** An int topic and a string topic, both unmatched, make the summary raise. */
  lemma MixedUnmatchedRaises(df: Table, topicColumn: string, matchedColumn: string)
    requires WellFormed(df) && topicColumn in df.columns && matchedColumn in df.columns
    requires Column(df, topicColumn) == [Int(2024), Text("Space")]
    requires Column(df, matchedColumn) == [Missing, Missing]
    ensures GetCategorizationSummary(df, topicColumn, matchedColumn) == Failure(TypeError)
  {
    var topics, matched := [Int(2024), Text("Space")], [Missing, Missing];
    assert ClashingUnmatched(topics, matched, 0, 1);
    UnsortableUnmatched(topics, matched);
  }

  /** What the summary reports, in terms of the rows of the two columns. */
  lemma SummaryMeaning(topics: seq<Cell>, matched: seq<Cell>, sameColumn: bool)
    requires |topics| == |matched|
    ensures var s := Summarize(topics, matched, sameColumn);
            && (forall c :: c in s.unmatchedTopics <==>
                  c != Missing && exists i :: 0 <= i < |topics| && topics[i] == c && matched[i] == Missing)
            && (s.unmatchedEntries == 0 <==> s.unmatchedTopics == [])
            && (forall i :: 0 <= i < |topics| && topics[i] != Missing ==> topics[i] in Unique(topics))
  {
    var u := UnmatchedTopicCells(topics, matched);
    var s := Summarize(topics, matched, sameColumn);
    assert s.unmatchedTopics == Unique(u) && s.unmatchedEntries == |u|;
    UnmatchedMeaning(topics, matched);
  }

  /** The unmatched topics reported are exactly the topics of rows without a match, and they are reported iff counted. */
  lemma UnmatchedMeaning(topics: seq<Cell>, matched: seq<Cell>)
    requires |topics| == |matched|
    ensures var u := UnmatchedTopicCells(topics, matched);
            && (forall c :: c in Unique(u) <==>
                  c != Missing && exists i :: 0 <= i < |topics| && topics[i] == c && matched[i] == Missing)
            && (|u| == 0 <==> Unique(u) == [])
  {
    var u := UnmatchedTopicCells(topics, matched);
    if u != [] {
      assert u[0] in u;
      assert u[0] in Unique(u);
    }
  }

  /** A table where every row with a topic has a match reports no unmatched entries. */
  lemma FullyMatchedSummary(df: Table, topicColumn: string, matchedColumn: string)
    requires WellFormed(df) && topicColumn in df.columns && matchedColumn in df.columns
    requires forall i :: 0 <= i < |df.rows| && df.rows[i][topicColumn] != Missing ==> df.rows[i][matchedColumn] != Missing
    ensures var r := GetCategorizationSummary(df, topicColumn, matchedColumn);
            r.Success? && r.value.unmatchedEntries == 0 && r.value.unmatchedTopics == []
  {
    var topics := Column(df, topicColumn);
    var matched := Column(df, matchedColumn);
    var unmatched := UnmatchedTopicCells(topics, matched);
  }

  // ---------------------------------------------------------------------------
  // Reference topics

  /** The "no session this week" rows. */
  predicate Excluded(topic: string) {
    Contains(Upper(topic), "NO WONDER SESSION") || Contains(Upper(topic), "NO SEMINAR")
  }

  /**
   * `df["week_start"] = pd.to_datetime(df["Week Start"], format=..., errors='coerce')`:
   * the sheet gains (or has overwritten) a `week_start` column holding each
   * row's parsed date, missing where the date does not parse.
   */
  function WithWeekStart(sheet: Table, parseWeekStart: Cell -> Option<Instant>): (r: Table)
    requires WellFormed(sheet) && "Week Start" in sheet.columns
    ensures WellFormed(r) && |r.rows| == |sheet.rows| && r.columns == WithColumn(sheet.columns, "week_start")
    ensures forall i :: 0 <= i < |r.rows| ==> r.rows[i]["week_start"] == StampCell(parseWeekStart(sheet.rows[i]["Week Start"]))
    ensures forall i, c :: 0 <= i < |r.rows| && c in sheet.columns && c != "week_start" ==> r.rows[i][c] == sheet.rows[i][c]
  {
    WithCells(sheet, "week_start",
              seq(|sheet.rows|, i requires 0 <= i < |sheet.rows| => StampCell(parseWeekStart(sheet.rows[i]["Week Start"]))))
  }

  /** `df["week_start"] <= pd.Timestamp.today()` for one row: a missing date (NaT) compares false. */
  predicate Current(row: Row, today: Instant)
    requires "week_start" in row
  {
    row["week_start"].Stamp? && !Before(today, row["week_start"].t)
  }

  /** `df[column].dropna().tolist()` over the current rows. */
  function CurrentTopics(rows: seq<Row>, column: string, today: Instant): (r: seq<Cell>)
    requires forall i :: 0 <= i < |rows| ==> "week_start" in rows[i] && column in rows[i]
    ensures forall c :: c in r <==> exists i :: 0 <= i < |rows| && Current(rows[i], today) && rows[i][column] == c && c != Missing
  {
    if rows == [] then []
    else
      var n := |rows| - 1;
      var r := CurrentTopics(rows[..n], column, today);
      assert forall i :: 0 <= i < n ==> rows[..n][i] == rows[i];
      if Current(rows[n], today) && rows[n][column] != Missing then r + [rows[n][column]] else r
  }

  function DropExcluded(cells: seq<Cell>): (r: seq<string>)
    requires forall i :: 0 <= i < |cells| ==> cells[i].Text?
    ensures forall t :: t in r <==> Text(t) in cells && !Excluded(t)
  {
    if cells == [] then []
    else
      var n := |cells| - 1;
      var r := DropExcluded(cells[..n]);
      assert cells == cells[..n] + [cells[n]];
      if Excluded(cells[n].s) then r else r + [cells[n].s]
  }

  /**
   * The filtering half of `get_reference_topics`, given the sheet, the parser
   * for its dates and today's instant. The topic column is looked up after
   * `week_start` is added, so `column` may name that column too.
   */
  function FilterReferenceTopics(sheet: Table, column: string, parseWeekStart: Cell -> Option<Instant>,
                                 today: Instant): (r: Result<seq<string>, Error>)
    requires WellFormed(sheet)
    ensures "Week Start" !in sheet.columns ==> r == Failure(KeyError("Week Start"))
    ensures "Week Start" in sheet.columns && column !in sheet.columns && column != "week_start" ==>
              r == Failure(KeyError(column))
    ensures "Week Start" in sheet.columns && (column in sheet.columns || column == "week_start") ==>
              var d := WithWeekStart(sheet, parseWeekStart);
              && (r.Failure? <==> exists i :: 0 <= i < |d.rows| && Current(d.rows[i], today)
                                              && d.rows[i][column] != Missing && !d.rows[i][column].Text?)
              && (r.Failure? ==> r.error == AttributeError(column))
    ensures r.Failure? ==> r.error == KeyError("Week Start") || r.error == KeyError(column) || r.error == AttributeError(column)
  {
    if "Week Start" !in sheet.columns then Failure(KeyError("Week Start"))
    else
      var d := WithWeekStart(sheet, parseWeekStart);
      if column !in d.columns then Failure(KeyError(column))
      else
        var current := CurrentTopics(d.rows, column, today);
        if exists i :: 0 <= i < |current| && !current[i].Text? then
          var i :| 0 <= i < |current| && !current[i].Text?;
          assert current[i] in current;
          Failure(AttributeError(column))
        else
          assert forall c :: c in current ==> c.Text?;
          Success(DropExcluded(current))
  }

  /**
   * A topic is kept exactly when some current row holds it and it is not a
   * "no session" marker. The cells read are those of the sheet with
   * `week_start` added, which are the sheet's own for every other column.
   */
  lemma ReferenceTopicsMeaning(sheet: Table, column: string, parseWeekStart: Cell -> Option<Instant>, today: Instant)
    requires WellFormed(sheet) && "Week Start" in sheet.columns && (column in sheet.columns || column == "week_start")
    requires var d := WithWeekStart(sheet, parseWeekStart);
             forall i :: 0 <= i < |d.rows| ==> d.rows[i][column].Missing? || d.rows[i][column].Text?
    ensures var r := FilterReferenceTopics(sheet, column, parseWeekStart, today);
            var d := WithWeekStart(sheet, parseWeekStart);
            && r.Success?
            && forall t :: t in r.value <==>
                 !Excluded(t) && exists i :: 0 <= i < |d.rows| && Current(d.rows[i], today) && d.rows[i][column] == Text(t)
  {
    var d := WithWeekStart(sheet, parseWeekStart);
    var current := CurrentTopics(d.rows, column, today);
    forall i | 0 <= i < |current| ensures current[i].Text? {
      assert current[i] in current;
    }
  }

  /**
   * Asking for the `week_start` column itself reads the parsed dates, which
   * are not strings: `topic.upper()` raises AttributeError as soon as one
   * row is current, and otherwise no topic is returned.
   */
  lemma WeekStartColumnTopics(sheet: Table, parseWeekStart: Cell -> Option<Instant>, today: Instant)
    requires WellFormed(sheet) && "Week Start" in sheet.columns
    ensures var r := FilterReferenceTopics(sheet, "week_start", parseWeekStart, today);
            && (r.Failure? <==> exists i :: 0 <= i < |sheet.rows| && parseWeekStart(sheet.rows[i]["Week Start"]).Some?
                                             && !Before(today, parseWeekStart(sheet.rows[i]["Week Start"]).value))
            && (r.Failure? ==> r.error == AttributeError("week_start"))
            && (r.Success? ==> r.value == [])
  {
    var d := WithWeekStart(sheet, parseWeekStart);
    var current := CurrentTopics(d.rows, "week_start", today);
    if current != [] {
      assert current[0] in current;
    }
  }

  /**
   * The filter keeps the survivors in sheet order: filtering two runs of
   * rows one after the other gives the survivors of the first run followed
   * by those of the second.
   */
  lemma {:induction false} CurrentTopicsInOrder(a: seq<Row>, b: seq<Row>, column: string, today: Instant)
    requires forall i :: 0 <= i < |a| ==> "week_start" in a[i] && column in a[i]
    requires forall i :: 0 <= i < |b| ==> "week_start" in b[i] && column in b[i]
    ensures CurrentTopics(a + b, column, today) == CurrentTopics(a, column, today) + CurrentTopics(b, column, today)
  {
    if b == [] {
      assert a + b == a;
    } else {
      var n := |b| - 1;
      assert (a + b)[..|a + b| - 1] == a + b[..n];
      CurrentTopicsInOrder(a, b[..n], column, today);
    }
  }

  /** Dropping the "no session" markers keeps the remaining topics in order. */
  lemma {:induction false} DropExcludedInOrder(a: seq<Cell>, b: seq<Cell>)
    requires forall i :: 0 <= i < |a| ==> a[i].Text?
    requires forall i :: 0 <= i < |b| ==> b[i].Text?
    ensures DropExcluded(a + b) == DropExcluded(a) + DropExcluded(b)
  {
    if b == [] {
      assert a + b == a;
    } else {
      var n := |b| - 1;
      assert (a + b)[..|a + b| - 1] == a + b[..n] && (a + b)[|a + b| - 1] == b[n];
      DropExcludedInOrder(a, b[..n]);
    }
  }
}
