/** Retrieval over the stored day indexes (conversation-memory-indexer/
    index.js, lines 63-148): the match score of a topic, the keyword search
    with its results ordered by relevance, and the search by sentiment.

    The directory listing and the files' contents are parameters: `entries`
    lists the directory and `read` gives the index stored in a file. The
    clock is a parameter too: `beforeCutoff(dateStr)` stands for
    `new Date(dateStr) < cutoffDate`, the cutoff lying `days` days before
    now. `lower` stands for `String.prototype.toLowerCase`. Scores are kept
    in tenths: a title match adds 10, a keyword match 8, a decision match 6. */
module IndexSearch {
  import opened Strings
  import opened IndexRecords

  /** The weights of the three kinds of match, in tenths. */
  const TitleWeight: nat := 10
  const KeywordWeight: nat := 8
  const DecisionWeight: nat := 6

  /** Number of `items` whose lower-cased text contains `q`. */
  function MatchCount(items: seq<string>, q: string, lower: string -> string): (n: nat)
    ensures n <= |items|
  {
    if items == [] then 0
    else
      MatchCount(items[..|items| - 1], q, lower)
      + (if Contains(lower(items[|items| - 1]), q) then 1 else 0)
  }

  /** Some item's lower-cased text contains `q`. */
  ghost predicate SomeMatch(items: seq<string>, q: string, lower: string -> string)
  {
    exists i :: 0 <= i < |items| && Contains(lower(items[i]), q)
  }

  /** The count is positive exactly when some item matches, and it is the
      full length when every item does. */
  lemma {:induction false} MatchCountPositiveIff(items: seq<string>, q: string, lower: string -> string)
    ensures MatchCount(items, q, lower) > 0 <==> SomeMatch(items, q, lower)
    ensures (forall i :: 0 <= i < |items| ==> Contains(lower(items[i]), q))
            ==> MatchCount(items, q, lower) == |items|
  {
    if items != [] {
      var front := items[..|items| - 1];
      MatchCountPositiveIff(front, q, lower);
      if SomeMatch(front, q, lower) {
        var i :| 0 <= i < |front| && Contains(lower(front[i]), q);
        assert items[i] == front[i];
      }
      if SomeMatch(items, q, lower) && !Contains(lower(items[|items| - 1]), q) {
        var i :| 0 <= i < |items| && Contains(lower(items[i]), q);
        assert front[i] == items[i];
      }
      if forall i :: 0 <= i < |items| ==> Contains(lower(items[i]), q) {
        assert forall i :: 0 <= i < |front| ==> front[i] == items[i];
      }
    }
  }

  /** The score of `calculateMatchScore`, in tenths: the title weight if
      the title matches, plus the keyword weight per matching keyword, plus
      the decision weight per matching decision. */
  function MatchScore(topic: Topic, query: string, lower: string -> string): nat
  {
    var q := lower(query);
    (if Contains(lower(topic.title), q) then TitleWeight else 0)
    + KeywordWeight * MatchCount(topic.keywords, q, lower)
    + DecisionWeight * MatchCount(topic.decisions, q, lower)
  }

  /** `calculateMatchScore`: the title test and the two loops over the
      keywords and the decisions. */
  method CalculateMatchScore(topic: Topic, query: string, lower: string -> string) returns (score: nat)
    ensures score == MatchScore(topic, query, lower)
  {
    var queryLower := lower(query);
    score := 0;
    if Contains(lower(topic.title), queryLower) {
      score := score + TitleWeight;
    }
    for i := 0 to |topic.keywords|
      invariant score == (if Contains(lower(topic.title), queryLower) then TitleWeight else 0)
                         + KeywordWeight * MatchCount(topic.keywords[..i], queryLower, lower)
    {
      assert topic.keywords[..i + 1][..i] == topic.keywords[..i];
      if Contains(lower(topic.keywords[i]), queryLower) {
        score := score + KeywordWeight;
      }
    }
    assert topic.keywords[..|topic.keywords|] == topic.keywords;
    ghost var base := score;
    for i := 0 to |topic.decisions|
      invariant score == base + DecisionWeight * MatchCount(topic.decisions[..i], queryLower, lower)
    {
      assert topic.decisions[..i + 1][..i] == topic.decisions[..i];
      if Contains(lower(topic.decisions[i]), queryLower) {
        score := score + DecisionWeight;
      }
    }
    assert topic.decisions[..|topic.decisions|] == topic.decisions;
  }

  /** A topic scores above zero exactly when its title, one of its keywords
      or one of its decisions contains the lower-cased query. */
  lemma ScorePositiveIff(topic: Topic, query: string, lower: string -> string)
    ensures var q := lower(query);
      MatchScore(topic, query, lower) > 0
      <==> Contains(lower(topic.title), q) || SomeMatch(topic.keywords, q, lower)
           || SomeMatch(topic.decisions, q, lower)
  {
    MatchCountPositiveIff(topic.keywords, lower(query), lower);
    MatchCountPositiveIff(topic.decisions, lower(query), lower);
  }

  /** The score never exceeds the value of everything matching, and a title
      match alone already gives the title weight. */
  lemma ScoreBounds(topic: Topic, query: string, lower: string -> string)
    ensures MatchScore(topic, query, lower)
            <= TitleWeight + KeywordWeight * |topic.keywords| + DecisionWeight * |topic.decisions|
    ensures Contains(lower(topic.title), lower(query)) ==> MatchScore(topic, query, lower) >= TitleWeight
  {
  }

  /** A query that lower-cases to the empty string occurs in every text, so
      every topic gets the full score. */
  lemma EmptyQueryMatchesEverything(topic: Topic, query: string, lower: string -> string)
    requires lower(query) == ""
    ensures MatchScore(topic, query, lower)
            == TitleWeight + KeywordWeight * |topic.keywords| + DecisionWeight * |topic.decisions|
  {
    MatchCountPositiveIff(topic.keywords, "", lower);
    MatchCountPositiveIff(topic.decisions, "", lower);
  }

  /** One result of `searchIndex`. */
  datatype SearchHit = SearchHit(
    date: string,
    topic: string,
    relevance: nat,
    decisions: seq<string>,
    snippet: string)

  /** The listed names that end in `.json`, in listing order. */
  function JsonFiles(entries: seq<string>): (files: seq<string>)
    ensures |files| <= |entries|
    ensures forall f :: f in files <==> f in entries && EndsWith(f, ".json")
  {
    if entries == [] then []
    else
      var front := entries[..|entries| - 1];
      var last := entries[|entries| - 1];
      assert entries == front + [last];
      JsonFiles(front) + (if EndsWith(last, ".json") then [last] else [])
  }

  /** `file.replace('.json', '')`: the first `.json` removed. */
  function DateOf(file: string): string
  {
    ReplaceFirst(file, ".json", "")
  }

  /** The file written for a date with no `.` in it gives that date back. */
  lemma DateOfIndexFile(date: string)
    requires forall i :: 0 <= i < |date| ==> date[i] != '.'
    ensures EndsWith(date + ".json", ".json")
    ensures DateOf(date + ".json") == date
  {
    ReplaceFirstSuffix(date, ".json");
    var name := date + ".json";
    assert name[|name| - 5..] == ".json";
  }

  /** The result for a scored topic of a day index. */
  function HitOf(index: Index, topic: Topic, score: nat): SearchHit
  {
    SearchHit(index.date, topic.title, score, topic.decisions, index.contextSnapshot)
  }

  /** The results for `topics` of `index`, in order: every topic with a
      positive score. */
  function TopicHits(index: Index, topics: seq<Topic>, query: string, lower: string -> string): seq<SearchHit>
  {
    if topics == [] then []
    else
      var t := topics[|topics| - 1];
      var score := MatchScore(t, query, lower);
      TopicHits(index, topics[..|topics| - 1], query, lower)
      + (if score > 0 then [HitOf(index, t, score)] else [])
  }

  /** The results one file contributes: none when its date is before the
      cutoff, otherwise those of its topics. */
  function FileHits(file: string, query: string, read: string -> Index,
                    beforeCutoff: string -> bool, lower: string -> string): seq<SearchHit>
  {
    if beforeCutoff(DateOf(file)) then []
    else TopicHits(read(file), read(file).topics, query, lower)
  }

  /** The results of `files`, file by file, before sorting. */
  function Collected(files: seq<string>, query: string, read: string -> Index,
                     beforeCutoff: string -> bool, lower: string -> string): seq<SearchHit>
  {
    if files == [] then []
    else
      Collected(files[..|files| - 1], query, read, beforeCutoff, lower)
      + FileHits(files[|files| - 1], query, read, beforeCutoff, lower)
  }

  /** The collection over one more file appends that file's results. */
  lemma CollectedStep(files: seq<string>, k: nat, query: string, read: string -> Index,
                      beforeCutoff: string -> bool, lower: string -> string)
    requires k < |files|
    ensures Collected(files[..k + 1], query, read, beforeCutoff, lower)
            == Collected(files[..k], query, read, beforeCutoff, lower)
               + FileHits(files[k], query, read, beforeCutoff, lower)
  {
    assert files[..k + 1][..k] == files[..k];
  }

  /** The results over one more topic append that topic's result, if any. */
  lemma TopicHitsStep(index: Index, j: nat, query: string, lower: string -> string)
    requires j < |index.topics|
    ensures var t := index.topics[j];
      var score := MatchScore(t, query, lower);
      TopicHits(index, index.topics[..j + 1], query, lower)
      == TopicHits(index, index.topics[..j], query, lower)
         + (if score > 0 then [HitOf(index, t, score)] else [])
  {
    assert index.topics[..j + 1][..j] == index.topics[..j];
  }

  /** `file` is not before the cutoff and one of its topics yields `h`. */
  ghost predicate Yields(file: string, h: SearchHit, query: string, read: string -> Index,
                         beforeCutoff: string -> bool, lower: string -> string)
  {
    && !beforeCutoff(DateOf(file))
    && exists t :: t in read(file).topics && MatchScore(t, query, lower) > 0
         && h == HitOf(read(file), t, MatchScore(t, query, lower))
  }

  lemma {:induction false} TopicHitsMembers(index: Index, topics: seq<Topic>, query: string,
                                             lower: string -> string, h: SearchHit)
    ensures h in TopicHits(index, topics, query, lower) <==>
      exists t :: t in topics && MatchScore(t, query, lower) > 0
        && h == HitOf(index, t, MatchScore(t, query, lower))
  {
    if topics != [] {
      var front := topics[..|topics| - 1];
      TopicHitsMembers(index, front, query, lower, h);
      assert topics == front + [topics[|topics| - 1]];
    }
  }

  /** A file contributes `h` exactly when it yields it. */
  lemma FileHitsMembers(file: string, query: string, read: string -> Index,
                        beforeCutoff: string -> bool, lower: string -> string, h: SearchHit)
    ensures h in FileHits(file, query, read, beforeCutoff, lower) <==>
      Yields(file, h, query, read, beforeCutoff, lower)
  {
    TopicHitsMembers(read(file), read(file).topics, query, lower, h);
  }

  /** A result is collected exactly when some file contributes it. */
  lemma {:induction false} CollectedMembers(files: seq<string>, query: string, read: string -> Index,
                                            beforeCutoff: string -> bool, lower: string -> string, h: SearchHit)
    ensures h in Collected(files, query, read, beforeCutoff, lower) <==>
      exists f :: f in files && h in FileHits(f, query, read, beforeCutoff, lower)
  {
    if files != [] {
      var front := files[..|files| - 1];
      var last := files[|files| - 1];
      CollectedMembers(front, query, read, beforeCutoff, lower, h);
      assert files == front + [last];
    }
  }

  /** Every collected result has a positive relevance. */
  lemma {:induction false} CollectedRelevant(files: seq<string>, query: string, read: string -> Index,
                                             beforeCutoff: string -> bool, lower: string -> string)
    ensures forall h :: h in Collected(files, query, read, beforeCutoff, lower) ==> h.relevance > 0
  {
    forall h | h in Collected(files, query, read, beforeCutoff, lower)
      ensures h.relevance > 0
    {
      CollectedMembers(files, query, read, beforeCutoff, lower, h);
      var f :| f in files && h in FileHits(f, query, read, beforeCutoff, lower);
      FileHitsMembers(f, query, read, beforeCutoff, lower, h);
    }
  }

  // The ordering of the results: `results.sort((a, b) => b.relevance -
  // a.relevance)`, a stable sort, highest relevance first.

  /** Highest relevance first. */
  predicate Descending(s: seq<SearchHit>)
  {
    forall i, j :: 0 <= i < j < |s| ==> s[i].relevance >= s[j].relevance
  }

  /** `h` placed into a descending sequence after every result at least as
      relevant. */
  function Insert(h: SearchHit, s: seq<SearchHit>): seq<SearchHit>
  {
    if s == [] then [h]
    else if s[0].relevance >= h.relevance then [s[0]] + Insert(h, s[1..])
    else [h] + s
  }

  /** Insertion adds `h` and nothing else. */
  lemma {:induction false} InsertPermutes(h: SearchHit, s: seq<SearchHit>)
    ensures multiset(Insert(h, s)) == multiset(s) + multiset{h}
  {
    if s != [] && s[0].relevance >= h.relevance {
      InsertPermutes(h, s[1..]);
      assert s == [s[0]] + s[1..];
    }
  }

  /** The tail of a descending sequence is descending. */
  lemma DescendingTail(s: seq<SearchHit>)
    requires Descending(s) && s != []
    ensures Descending(s[1..])
    ensures forall k :: 0 <= k < |s[1..]| ==> s[0].relevance >= s[1..][k].relevance
  {
    assert forall i :: 0 <= i < |s[1..]| ==> s[1..][i] == s[i + 1];
  }

  /** Insertion keeps a sequence descending. */
  lemma {:induction false} InsertDescending(h: SearchHit, s: seq<SearchHit>)
    requires Descending(s)
    ensures Descending(Insert(h, s))
  {
    if s != [] && s[0].relevance >= h.relevance {
      DescendingTail(s);
      InsertDescending(h, s[1..]);
      var tail := Insert(h, s[1..]);
      InsertPermutes(h, s[1..]);
      forall k | 0 <= k < |tail|
        ensures s[0].relevance >= tail[k].relevance
      {
        assert tail[k] in multiset(s[1..]) + multiset{h};
        if tail[k] != h {
          assert tail[k] in s[1..];
        }
      }
      DescendingCons(s[0], tail);
    } else if s != [] {
      DescendingCons(h, s);
    }
  }

  /** A head at least as relevant as every element of a descending tail
      gives a descending sequence. */
  lemma DescendingCons(x: SearchHit, t: seq<SearchHit>)
    requires Descending(t)
    requires forall k :: 0 <= k < |t| ==> x.relevance >= t[k].relevance
    ensures Descending([x] + t)
  {
    var r := [x] + t;
    assert forall i :: 0 < i < |r| ==> r[i] == t[i - 1];
  }

  /** The stable sort of the results by descending relevance. */
  function SortByRelevance(s: seq<SearchHit>): seq<SearchHit>
  {
    if s == [] then []
    else Insert(s[|s| - 1], SortByRelevance(s[..|s| - 1]))
  }

  /** The results with relevance `v`, in order. */
  function WithRelevance(s: seq<SearchHit>, v: nat): (r: seq<SearchHit>)
    ensures |r| <= |s|
  {
    if s == [] then []
    else (if s[0].relevance == v then [s[0]] else []) + WithRelevance(s[1..], v)
  }

  lemma WithRelevanceCons(x: SearchHit, t: seq<SearchHit>, v: nat)
    ensures WithRelevance([x] + t, v) == (if x.relevance == v then [x] else []) + WithRelevance(t, v)
  {
    assert ([x] + t)[1..] == t;
  }

  lemma {:induction false} WithRelevanceConcat(a: seq<SearchHit>, b: seq<SearchHit>, v: nat)
    ensures WithRelevance(a + b, v) == WithRelevance(a, v) + WithRelevance(b, v)
  {
    if a != [] {
      WithRelevanceConcat(a[1..], b, v);
      assert (a + b)[1..] == a[1..] + b;
    } else {
      assert a + b == b;
    }
  }

  /** A descending sequence whose head is below `v` has nothing of relevance `v`. */
  lemma {:induction false} NoneAbove(s: seq<SearchHit>, v: nat)
    requires Descending(s) && s != [] && s[0].relevance < v
    ensures WithRelevance(s, v) == []
  {
    if |s| > 1 {
      DescendingTail(s);
      NoneAbove(s[1..], v);
    }
  }

  /** Inserting `h` puts it after every result of equal relevance. */
  lemma {:induction false} InsertStable(h: SearchHit, s: seq<SearchHit>, v: nat)
    requires Descending(s)
    ensures WithRelevance(Insert(h, s), v)
            == WithRelevance(s, v) + (if h.relevance == v then [h] else [])
  {
    var mine := if h.relevance == v then [h] else [];
    if s == [] {
      WithRelevanceCons(h, [], v);
    } else if s[0].relevance >= h.relevance {
      var head := if s[0].relevance == v then [s[0]] else [];
      DescendingTail(s);
      InsertStable(h, s[1..], v);
      assert Insert(h, s) == [s[0]] + Insert(h, s[1..]);
      WithRelevanceCons(s[0], Insert(h, s[1..]), v);
      WithRelevanceCons(s[0], s[1..], v);
      assert [s[0]] + s[1..] == s;
      calc {
        WithRelevance(Insert(h, s), v);
        head + WithRelevance(Insert(h, s[1..]), v);
        head + (WithRelevance(s[1..], v) + mine);
        (head + WithRelevance(s[1..], v)) + mine;
        WithRelevance(s, v) + mine;
      }
    } else {
      NoneAbove(s, h.relevance);
      assert Insert(h, s) == [h] + s;
      WithRelevanceCons(h, s, v);
      if h.relevance == v {
        assert WithRelevance(s, v) == [];
        assert WithRelevance(Insert(h, s), v) == [h] + [];
      }
    }
  }

  /** The sort orders by descending relevance. */
  lemma {:induction false} SortDescending(s: seq<SearchHit>)
    ensures Descending(SortByRelevance(s))
  {
    if s != [] {
      SortDescending(s[..|s| - 1]);
      InsertDescending(s[|s| - 1], SortByRelevance(s[..|s| - 1]));
    }
  }

  /** The sort rearranges without adding or losing a result. */
  lemma {:induction false} SortPermutes(s: seq<SearchHit>)
    ensures multiset(SortByRelevance(s)) == multiset(s)
  {
    if s != [] {
      var front := s[..|s| - 1];
      SortPermutes(front);
      InsertPermutes(s[|s| - 1], SortByRelevance(front));
      assert s == front + [s[|s| - 1]];
    }
  }

  /** The sort keeps the original order among results of equal relevance. */
  lemma {:induction false} SortStable(s: seq<SearchHit>, v: nat)
    ensures WithRelevance(SortByRelevance(s), v) == WithRelevance(s, v)
  {
    if s != [] {
      var front := s[..|s| - 1];
      var last := s[|s| - 1];
      SortStable(front, v);
      SortDescending(front);
      InsertStable(last, SortByRelevance(front), v);
      WithRelevanceConcat(front, [last], v);
      WithRelevanceCons(last, [], v);
      assert s == front + [last];
    }
  }

  /** The sort orders by descending relevance, rearranges without adding or
      losing a result, and keeps the original order among results of equal
      relevance. */
  lemma SortByRelevanceCorrect(s: seq<SearchHit>)
    ensures Descending(SortByRelevance(s))
    ensures multiset(SortByRelevance(s)) == multiset(s)
    ensures forall v: nat :: WithRelevance(SortByRelevance(s), v) == WithRelevance(s, v)
  {
    SortDescending(s);
    SortPermutes(s);
    forall v: nat
      ensures WithRelevance(SortByRelevance(s), v) == WithRelevance(s, v)
    {
      SortStable(s, v);
    }
  }

  /** The value of `searchIndex`: the collected results of the `.json`
      files, stably sorted by descending relevance. */
  function SearchResults(query: string, entries: seq<string>, read: string -> Index,
                         beforeCutoff: string -> bool, lower: string -> string): seq<SearchHit>
  {
    SortByRelevance(Collected(JsonFiles(entries), query, read, beforeCutoff, lower))
  }

  /** The inner loop of `searchIndex` over the topics of one day index:
      each topic with a positive score becomes a result, in topic order. */
  method ScoreTopics(index: Index, query: string, lower: string -> string)
    returns (hits: seq<SearchHit>)
    ensures hits == TopicHits(index, index.topics, query, lower)
  {
    hits := [];
    for j := 0 to |index.topics|
      invariant hits == TopicHits(index, index.topics[..j], query, lower)
    {
      TopicHitsStep(index, j, query, lower);
      var topic := index.topics[j];
      var matchScore := CalculateMatchScore(topic, query, lower);
      if matchScore > 0 {
        hits := hits + [SearchHit(index.date, topic.title, matchScore, topic.decisions, index.contextSnapshot)];
      }
    }
    assert index.topics[..|index.topics|] == index.topics;
  }

  /** `searchIndex`: the loop over the `.json` files, skipping those dated
      before the cutoff and collecting the results of each file's topics;
      then the sort. */
  method SearchIndex(query: string, entries: seq<string>, read: string -> Index,
                     beforeCutoff: string -> bool, lower: string -> string)
    returns (results: seq<SearchHit>)
    ensures results == SearchResults(query, entries, read, beforeCutoff, lower)
  {
    var collected: seq<SearchHit> := [];
    var files := JsonFiles(entries);
    for k := 0 to |files|
      invariant collected == Collected(files[..k], query, read, beforeCutoff, lower)
    {
      CollectedStep(files, k, query, read, beforeCutoff, lower);
      var file := files[k];
      var dateStr := ReplaceFirst(file, ".json", "");
      if beforeCutoff(dateStr) {
        continue;
      }
      var index := read(file);
      var hits := ScoreTopics(index, query, lower);
      collected := collected + hits;
    }
    assert files[..|files|] == files;
    results := SortByRelevance(collected);
  }

  /** What the search returns: exactly the results some `.json` file not
      before the cutoff yields for a topic with positive score, each with
      that score as its relevance; highest relevance first; every collected
      result exactly as often as it was collected; and, among equally
      relevant results, the file-then-topic order of collection. */
  lemma SearchResultsCorrect(query: string, entries: seq<string>, read: string -> Index,
                             beforeCutoff: string -> bool, lower: string -> string)
    ensures var r := SearchResults(query, entries, read, beforeCutoff, lower);
      && (forall h :: h in r <==>
            exists f :: f in entries && EndsWith(f, ".json") && Yields(f, h, query, read, beforeCutoff, lower))
      && (forall h :: h in r ==> h.relevance > 0)
      && Descending(r)
    ensures var c := Collected(JsonFiles(entries), query, read, beforeCutoff, lower);
      && multiset(SearchResults(query, entries, read, beforeCutoff, lower)) == multiset(c)
      && forall v: nat :: WithRelevance(SearchResults(query, entries, read, beforeCutoff, lower), v)
                          == WithRelevance(c, v)
  {
    var files := JsonFiles(entries);
    var c := Collected(files, query, read, beforeCutoff, lower);
    SortByRelevanceCorrect(c);
    CollectedRelevant(files, query, read, beforeCutoff, lower);
    forall h
      ensures h in SortByRelevance(c) <==>
        exists f :: f in entries && EndsWith(f, ".json") && Yields(f, h, query, read, beforeCutoff, lower)
    {
      assert h in SortByRelevance(c) <==> h in multiset(c);
      CollectedMembers(files, query, read, beforeCutoff, lower, h);
      forall f | f in entries
        ensures f in files && h in FileHits(f, query, read, beforeCutoff, lower)
                <==> EndsWith(f, ".json") && Yields(f, h, query, read, beforeCutoff, lower)
      {
        FileHitsMembers(f, query, read, beforeCutoff, lower, h);
      }
    }
  }

  /** One result of `searchBySentiment`. */
  datatype SentimentHit = SentimentHit(date: string, topic: string, decisions: seq<string>)

  /** The topics of `index` whose sentiment is `sentiment`, in order. */
  function SentimentTopicHits(index: Index, topics: seq<Topic>, sentiment: string): seq<SentimentHit>
  {
    if topics == [] then []
    else
      var t := topics[|topics| - 1];
      SentimentTopicHits(index, topics[..|topics| - 1], sentiment)
      + (if t.sentiment == sentiment then [SentimentHit(index.date, t.title, t.decisions)] else [])
  }

  /** The results of `files` not before the cutoff, file by file. */
  function SentimentCollected(files: seq<string>, sentiment: string, read: string -> Index,
                              beforeCutoff: string -> bool): seq<SentimentHit>
  {
    if files == [] then []
    else
      var file := files[|files| - 1];
      SentimentCollected(files[..|files| - 1], sentiment, read, beforeCutoff)
      + (if beforeCutoff(DateOf(file)) then [] else SentimentTopicHits(read(file), read(file).topics, sentiment))
  }

  /** The results over one more topic append that topic's result, if any. */
  lemma SentimentTopicHitsStep(index: Index, j: nat, sentiment: string)
    requires j < |index.topics|
    ensures var t := index.topics[j];
      SentimentTopicHits(index, index.topics[..j + 1], sentiment)
      == SentimentTopicHits(index, index.topics[..j], sentiment)
         + (if t.sentiment == sentiment then [SentimentHit(index.date, t.title, t.decisions)] else [])
  {
    assert index.topics[..j + 1][..j] == index.topics[..j];
  }

  /** The collection over one more file appends that file's results. */
  lemma SentimentCollectedStep(files: seq<string>, k: nat, sentiment: string, read: string -> Index,
                               beforeCutoff: string -> bool)
    requires k < |files|
    ensures SentimentCollected(files[..k + 1], sentiment, read, beforeCutoff)
            == SentimentCollected(files[..k], sentiment, read, beforeCutoff)
               + (if beforeCutoff(DateOf(files[k])) then []
                  else SentimentTopicHits(read(files[k]), read(files[k]).topics, sentiment))
  {
    assert files[..k + 1][..k] == files[..k];
  }

  /** The inner loop of `searchBySentiment` over the topics of one day
      index: each topic with exactly that sentiment, in topic order. */
  method MatchSentiment(index: Index, sentiment: string) returns (hits: seq<SentimentHit>)
    ensures hits == SentimentTopicHits(index, index.topics, sentiment)
  {
    hits := [];
    for j := 0 to |index.topics|
      invariant hits == SentimentTopicHits(index, index.topics[..j], sentiment)
    {
      SentimentTopicHitsStep(index, j, sentiment);
      var topic := index.topics[j];
      if topic.sentiment == sentiment {
        hits := hits + [SentimentHit(index.date, topic.title, topic.decisions)];
      }
    }
    assert index.topics[..|index.topics|] == index.topics;
  }

  /** `searchBySentiment`: the same walk over the `.json` files as the
      search, keeping the topics whose sentiment is exactly `sentiment`, in
      file-then-topic order, unsorted. */
  method SearchBySentiment(sentiment: string, entries: seq<string>, read: string -> Index,
                           beforeCutoff: string -> bool)
    returns (results: seq<SentimentHit>)
    ensures results == SentimentCollected(JsonFiles(entries), sentiment, read, beforeCutoff)
  {
    results := [];
    var files := JsonFiles(entries);
    for k := 0 to |files|
      invariant results == SentimentCollected(files[..k], sentiment, read, beforeCutoff)
    {
      SentimentCollectedStep(files, k, sentiment, read, beforeCutoff);
      var file := files[k];
      var dateStr := ReplaceFirst(file, ".json", "");
      if beforeCutoff(dateStr) {
        continue;
      }
      var index := read(file);
      var hits := MatchSentiment(index, sentiment);
      results := results + hits;
    }
    assert files[..|files|] == files;
  }

  lemma {:induction false} SentimentTopicHitsMembers(index: Index, topics: seq<Topic>, sentiment: string,
                                                      h: SentimentHit)
    ensures h in SentimentTopicHits(index, topics, sentiment) <==>
      exists t :: t in topics && t.sentiment == sentiment && h == SentimentHit(index.date, t.title, t.decisions)
  {
    if topics != [] {
      var front := topics[..|topics| - 1];
      SentimentTopicHitsMembers(index, front, sentiment, h);
      assert topics == front + [topics[|topics| - 1]];
    }
  }

  /** A result of the sentiment search is exactly a topic with that
      sentiment in a `.json` file not before the cutoff, reported with the
      date stored in that file. */
  lemma {:induction false} SentimentResultsMembers(files: seq<string>, sentiment: string, read: string -> Index,
                                                   beforeCutoff: string -> bool, h: SentimentHit)
    ensures h in SentimentCollected(files, sentiment, read, beforeCutoff) <==>
      exists f, t :: f in files && !beforeCutoff(DateOf(f)) && t in read(f).topics
        && t.sentiment == sentiment && h == SentimentHit(read(f).date, t.title, t.decisions)
  {
    if files != [] {
      var front := files[..|files| - 1];
      var last := files[|files| - 1];
      SentimentResultsMembers(front, sentiment, read, beforeCutoff, h);
      SentimentTopicHitsMembers(read(last), read(last).topics, sentiment, h);
      assert files == front + [last];
    }
  }

  /** On an index built by `generateIndex`, searching for a sentiment that
      defaulting never produces finds as many topics as the index's own
      statistic counts. */
  lemma {:induction false} SentimentSearchMatchesStats(date: string, data: ConversationData)
    ensures |SentimentTopicHits(GenerateIndex(date, data), GenerateIndex(date, data).topics, "problem-solving")|
            == GenerateIndex(date, data).stats.problemSolving
    ensures |SentimentTopicHits(GenerateIndex(date, data), GenerateIndex(date, data).topics, "architecture-design")|
            == GenerateIndex(date, data).stats.architectureDesign
  {
    var index := GenerateIndex(date, data);
    GeneratedStats(date, data);
    SentimentHitsCount(index, index.topics, "problem-solving");
    SentimentHitsCount(index, index.topics, "architecture-design");
  }

  /** There is one sentiment result per topic with that sentiment. */
  lemma {:induction false} SentimentHitsCount(index: Index, topics: seq<Topic>, sentiment: string)
    ensures |SentimentTopicHits(index, topics, sentiment)| == CountTopicSentiment(topics, sentiment)
  {
    if topics != [] {
      var front := topics[..|topics| - 1];
      var last := topics[|topics| - 1];
      SentimentHitsCount(index, front, sentiment);
      CountTopicSentimentSnoc(front, last, sentiment);
      assert topics == front + [last];
    }
  }

  lemma {:induction false} CountTopicSentimentSnoc(front: seq<Topic>, last: Topic, s: string)
    ensures CountTopicSentiment(front + [last], s)
            == CountTopicSentiment(front, s) + (if last.sentiment == s then 1 else 0)
  {
    if front != [] {
      CountTopicSentimentSnoc(front[1..], last, s);
      assert (front + [last])[1..] == front[1..] + [last];
    }
  }
}
