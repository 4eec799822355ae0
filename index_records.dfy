/** The record that `generateIndex` builds (conversation-memory-indexer/
    index.js, lines 25-52): topic ids, field defaults, the blog reference
    and the statistics. Writing the record to disk is not modelled. */
module IndexRecords {
  import opened Wrappers
  import opened Strings
  import opened Decimal

  /** A topic as the conversation data supplies it; any field but the title
      may be missing. */
  datatype RawTopic = RawTopic(
    title: string,
    keywords: Option<seq<string>>,
    decisions: Option<seq<string>>,
    sentiment: Option<string>,
    participants: Option<seq<string>>,
    timeRange: Option<string>)

  /** The optional `actions` object and its optional lists. */
  datatype RawActions = RawActions(
    tasksTriggered: Option<seq<string>>,
    tasksPaused: Option<seq<string>>,
    skillsCreated: Option<seq<string>>,
    filesModified: Option<seq<string>>)

  /** The `conversationData` argument. */
  datatype ConversationData = ConversationData(
    sessionKey: Option<string>,
    topics: seq<RawTopic>,
    actions: Option<RawActions>,
    contextSnapshot: Option<string>)

  /** A topic of the index, every field filled in. */
  datatype Topic = Topic(
    id: string,
    title: string,
    keywords: seq<string>,
    decisions: seq<string>,
    sentiment: string,
    participants: seq<string>,
    blogRef: string,
    timeRange: Option<string>)

  datatype Actions = Actions(
    tasksTriggered: seq<string>,
    tasksPaused: seq<string>,
    skillsCreated: seq<string>,
    filesModified: seq<string>)

  datatype Stats = Stats(
    totalTopics: nat,
    problemSolving: nat,
    architectureDesign: nat,
    tokenSavings: string)

  /** One day's index record, as written to `<date>.json`. */
  datatype Index = Index(
    date: string,
    sessionKey: Option<string>,
    topics: seq<Topic>,
    actions: Actions,
    contextSnapshot: string,
    stats: Stats)

  /** `x || fallback` on a string: the empty string is falsy. */
  function OrString(x: Option<string>, fallback: string): string
  {
    if x.Some? && x.value != "" then x.value else fallback
  }

  /** `topic_` and the 1-based position, zero-padded to three digits. */
  function TopicId(position: nat): (id: string)
    requires position >= 1
    ensures StartsWith(id, "topic_")
    ensures |id| == 6 + (if |Show(position)| < 3 then 3 else |Show(position)|)
    ensures IsDigits(id[6..]) && Parse(id[6..]) == position
  {
    var digits := Show(position);
    var padded := PadStart(digits, 3, '0');
    var id := "topic_" + padded;
    assert id[6..] == padded;
    var zeros := padded[..|padded| - |digits|];
    assert padded == zeros + digits;
    ParseLeadingZeros(zeros, digits);
    id
  }

  /** Distinct positions get distinct ids. */
  lemma TopicIdsDistinct(m: nat, n: nat)
    requires m >= 1 && n >= 1 && m != n
    ensures TopicId(m) != TopicId(n)
  {
    assert Parse(TopicId(m)[6..]) == m && Parse(TopicId(n)[6..]) == n;
  }

  /** The blog directory every topic of a day refers to. */
  function BlogRef(date: string): string
  {
    date + "-chat-with-channing/"
  }

  /** The topic at 0-based position `idx`, with its defaults. */
  function BuildTopic(date: string, t: RawTopic, idx: nat): Topic
  {
    Topic(
      TopicId(idx + 1),
      t.title,
      t.keywords.GetOr([]),
      t.decisions.GetOr([]),
      OrString(t.sentiment, "casual"),
      t.participants.GetOr(["chenmj"]),
      BlogRef(date),
      t.timeRange)
  }

  /** `topics.map((topic, idx) => ...)`: one built topic per raw topic,
      numbered by position. */
  function BuildTopics(date: string, topics: seq<RawTopic>): seq<Topic>
  {
    seq(|topics|, i requires 0 <= i < |topics| => BuildTopic(date, topics[i], i))
  }

  /** Number of raw topics whose own sentiment field is `s`. */
  function CountSentiment(topics: seq<RawTopic>, s: string): (n: nat)
    ensures n <= |topics|
  {
    if topics == [] then 0
    else (if topics[0].sentiment == Some(s) then 1 else 0) + CountSentiment(topics[1..], s)
  }

  /** The actions with each missing list, or a missing `actions`, as `[]`. */
  function BuildActions(a: Option<RawActions>): Actions
  {
    match a
    case None => Actions([], [], [], [])
    case Some(r) => Actions(r.tasksTriggered.GetOr([]), r.tasksPaused.GetOr([]),
                            r.skillsCreated.GetOr([]), r.filesModified.GetOr([]))
  }

  /** `generateIndex`, without the file write. */
  function GenerateIndex(date: string, data: ConversationData): Index
  {
    Index(
      date,
      data.sessionKey,
      BuildTopics(date, data.topics),
      BuildActions(data.actions),
      OrString(data.contextSnapshot, ""),
      Stats(
        |data.topics|,
        CountSentiment(data.topics, "problem-solving"),
        CountSentiment(data.topics, "architecture-design"),
        "93-96%"))
  }

  /** The index keeps the topics' count and order: topic `i` carries the
      `i`-th title, the id `topic_` plus `i + 1` padded to three digits, and
      the day's blog reference. */
  lemma GeneratedTopics(date: string, data: ConversationData, i: nat)
    requires i < |data.topics|
    ensures var index := GenerateIndex(date, data);
      && |index.topics| == |data.topics|
      && index.topics[i].title == data.topics[i].title
      && index.topics[i].id == TopicId(i + 1)
      && |index.topics[i].id| == 6 + (if i + 1 < 1000 then 3 else |Show(i + 1)|)
      && index.topics[i].blogRef == date + "-chat-with-channing/"
      && index.topics[i].timeRange == data.topics[i].timeRange
  {
    if i + 1 < 1000 {
      ShortNumbersHaveAtMostThreeDigits(i + 1);
    }
  }

  /** A number below 1000 has at most three digits. */
  lemma ShortNumbersHaveAtMostThreeDigits(n: nat)
    requires n < 1000
    ensures |Show(n)| <= 3
  {
    if n >= 10 {
      assert |Show(n)| == |Show(n / 10)| + 1;
      if n / 10 >= 10 {
        assert |Show(n / 10)| == |Show(n / 10 / 10)| + 1;
      }
    }
  }

  /** Topic ids within one index are pairwise distinct. */
  lemma GeneratedIdsDistinct(date: string, data: ConversationData, i: nat, j: nat)
    requires i < j < |data.topics|
    ensures GenerateIndex(date, data).topics[i].id != GenerateIndex(date, data).topics[j].id
  {
    TopicIdsDistinct(i + 1, j + 1);
  }

  /** Missing fields take their defaults: keywords and decisions `[]`, a
      missing or empty sentiment `casual`, participants `["chenmj"]`, each
      missing action list `[]` (all four when `actions` itself is missing), a
      missing or empty context snapshot `""`; a present field is kept. A
      present list is kept even when empty, since an array is truthy. */
  lemma GeneratedDefaults(date: string, data: ConversationData, i: nat)
    requires i < |data.topics|
    ensures var t := data.topics[i];
      var topic := GenerateIndex(date, data).topics[i];
      && (t.keywords.None? ==> topic.keywords == [])
      && (t.keywords.Some? ==> topic.keywords == t.keywords.value)
      && (t.decisions.None? ==> topic.decisions == [])
      && (t.decisions.Some? ==> topic.decisions == t.decisions.value)
      && (t.sentiment.None? || t.sentiment == Some("") ==> topic.sentiment == "casual")
      && (t.sentiment.Some? && t.sentiment.value != "" ==> topic.sentiment == t.sentiment.value)
      && (t.participants.None? ==> topic.participants == ["chenmj"])
      && (t.participants.Some? ==> topic.participants == t.participants.value)
    ensures var actions := GenerateIndex(date, data).actions;
      data.actions.None? ==> actions == Actions([], [], [], [])
    ensures var actions := GenerateIndex(date, data).actions;
      data.actions.Some? ==> var a := data.actions.value;
        && (a.tasksTriggered.None? ==> actions.tasksTriggered == [])
        && (a.tasksTriggered.Some? ==> actions.tasksTriggered == a.tasksTriggered.value)
        && (a.tasksPaused.None? ==> actions.tasksPaused == [])
        && (a.tasksPaused.Some? ==> actions.tasksPaused == a.tasksPaused.value)
        && (a.skillsCreated.None? ==> actions.skillsCreated == [])
        && (a.skillsCreated.Some? ==> actions.skillsCreated == a.skillsCreated.value)
        && (a.filesModified.None? ==> actions.filesModified == [])
        && (a.filesModified.Some? ==> actions.filesModified == a.filesModified.value)
    ensures var snapshot := GenerateIndex(date, data).contextSnapshot;
      && (data.contextSnapshot.None? || data.contextSnapshot == Some("") ==> snapshot == "")
      && (data.contextSnapshot.Some? ==> snapshot == data.contextSnapshot.value)
  {
  }

  /** Every topic of a built index has a non-empty sentiment. */
  lemma GeneratedSentimentsNonEmpty(date: string, data: ConversationData, i: nat)
    requires i < |data.topics|
    ensures GenerateIndex(date, data).topics[i].sentiment != ""
  {
  }

  /** The statistics count topics: the total is the number of topics, and
      the problem-solving and architecture-design counts, taken from the raw
      sentiments, are disjoint and together at most the total. Each equals
      the number of built topics with that sentiment, since a default never
      produces either. */
  lemma {:induction false} GeneratedStats(date: string, data: ConversationData)
    ensures var index := GenerateIndex(date, data);
      && index.stats.totalTopics == |index.topics| == |data.topics|
      && index.stats.problemSolving + index.stats.architectureDesign <= index.stats.totalTopics
      && index.stats.problemSolving == CountTopicSentiment(index.topics, "problem-solving")
      && index.stats.architectureDesign == CountTopicSentiment(index.topics, "architecture-design")
  {
    DisjointSentimentCounts(data.topics);
    var built := GenerateIndex(date, data).topics;
    BuiltSentimentCount(built, data.topics, "problem-solving");
    BuiltSentimentCount(built, data.topics, "architecture-design");
  }

  /** Number of built topics whose sentiment is `s`. */
  function CountTopicSentiment(topics: seq<Topic>, s: string): (n: nat)
    ensures n <= |topics|
  {
    if topics == [] then 0
    else (if topics[0].sentiment == s then 1 else 0) + CountTopicSentiment(topics[1..], s)
  }

  /** A topic counts for at most one of the two statistics. */
  lemma {:induction false} DisjointSentimentCounts(topics: seq<RawTopic>)
    ensures CountSentiment(topics, "problem-solving") + CountSentiment(topics, "architecture-design") <= |topics|
  {
    if topics != [] {
      DisjointSentimentCounts(topics[1..]);
    }
  }

  /** Defaulting keeps every non-empty sentiment and produces only
      `casual`, so counting any other non-empty sentiment over topics built
      one for one from raw topics gives the raw count. */
  lemma {:induction false} BuiltSentimentCount(built: seq<Topic>, raw: seq<RawTopic>, s: string)
    requires |built| == |raw| && s != "" && s != "casual"
    requires forall i :: 0 <= i < |raw| ==> built[i].sentiment == OrString(raw[i].sentiment, "casual")
    ensures CountTopicSentiment(built, s) == CountSentiment(raw, s)
  {
    if raw != [] {
      BuiltSentimentCount(built[1..], raw[1..], s);
    }
  }
}
