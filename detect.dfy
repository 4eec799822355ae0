/** What `AIFlavorRemover.detect_ai_flavor` reports (ai-flavor-remover.py,
    lines 87-116), as functions of the text: the markers found with their
    counts, the mechanical patterns matched, and the suggested mode. */
module FlavorDetect {
  import opened Strings
  import opened Decimal
  import opened FlavorLexicon

  /** A marker found in the text and its number of occurrences. */
  datatype Hit = Hit(word: string, count: nat)

  /** The hits recorded after the detector has looked at the first `n`
      markers: those that occur, with their `str.count`, in table order. */
  function HitsUpTo(text: string, n: nat): seq<Hit>
    requires n <= |AIWords|
  {
    if n == 0 then []
    else
      var w := AIWords[n - 1].word;
      var c := Count(text, w);
      HitsUpTo(text, n - 1) + (if c > 0 then [Hit(w, c)] else [])
  }

  /** All hits of the text. */
  function HighFrequencyHits(text: string): seq<Hit>
  {
    HitsUpTo(text, |AIWords|)
  }

  /** `w` is among the words of `hits`. */
  ghost predicate Reported(hits: seq<Hit>, w: string)
  {
    exists i :: 0 <= i < |hits| && hits[i].word == w
  }

  /** After `n` markers: at most `n` hits, each a marker among the first
      `n` with a positive count equal to its `str.count`, in strictly
      increasing table order. */
  lemma {:induction false} HitsAreOrderedCounts(text: string, n: nat)
    requires n <= |AIWords|
    ensures var hits := HitsUpTo(text, n);
      && |hits| <= n
      && (forall i :: 0 <= i < |hits| ==>
            hits[i].count > 0 && MarkerIndex(hits[i].word) < n
            && hits[i].count == Count(text, AIWords[MarkerIndex(hits[i].word)].word))
      && (forall i, j :: 0 <= i < j < |hits| ==> MarkerIndex(hits[i].word) < MarkerIndex(hits[j].word))
  {
    if n > 0 {
      var m := n - 1;
      var w := AIWords[m].word;
      var c := Count(text, w);
      var prev := HitsUpTo(text, m);
      var hits := HitsUpTo(text, n);
      HitsAreOrderedCounts(text, m);
      MarkerIndexOfMarker(m);
      HitsUpToStep(text, m);
      if c > 0 {
        assert forall i :: 0 <= i < |prev| ==> hits[i] == prev[i];
        assert hits[|prev|] == Hit(w, c);
      }
    }
  }

  /** One more step of the detector's loop appends at most the hit of the
      next marker. */
  lemma HitsUpToStep(text: string, n: nat)
    requires n < |AIWords|
    ensures var w := AIWords[n].word;
      HitsUpTo(text, n + 1)
      == HitsUpTo(text, n) + (if Count(text, w) > 0 then [Hit(w, Count(text, w))] else [])
  {
  }

  /** A word is reported in `prev + extra`, with `extra` at most one hit,
      exactly when it is reported in `prev` or is the word of `extra`. */
  lemma ReportedAppend(prev: seq<Hit>, extra: seq<Hit>, w: string)
    requires |extra| <= 1
    ensures Reported(prev + extra, w) <==> Reported(prev, w) || (|extra| == 1 && extra[0].word == w)
  {
    var all := prev + extra;
    if Reported(prev, w) {
      var i :| 0 <= i < |prev| && prev[i].word == w;
      assert all[i] == prev[i];
    }
    if |extra| == 1 && extra[0].word == w {
      assert all[|prev|] == extra[0];
    }
    if Reported(all, w) {
      var i :| 0 <= i < |all| && all[i].word == w;
      if i < |prev| {
        assert prev[i] == all[i];
      }
    }
  }

  /** Before the detector reaches marker `n`, that marker is not reported. */
  lemma NotReportedBefore(text: string, n: nat)
    requires n < |AIWords|
    ensures !Reported(HitsUpTo(text, n), AIWords[n].word)
  {
    var prev := HitsUpTo(text, n);
    HitsAreOrderedCounts(text, n);
    MarkerIndexOfMarker(n);
    assert forall i :: 0 <= i < |prev| ==> MarkerIndex(prev[i].word) != MarkerIndex(AIWords[n].word);
  }

  /** Once the detector has passed marker `k`, the marker is reported
      exactly when it occurs. */
  lemma {:induction false} HitCompleteAt(text: string, n: nat, k: nat)
    requires k < n <= |AIWords|
    ensures Reported(HitsUpTo(text, n), AIWords[k].word) <==> Contains(text, AIWords[k].word)
    decreases n
  {
    var m := n - 1;
    var w := AIWords[m].word;
    var v := AIWords[k].word;
    var c := Count(text, w);
    var extra := if c > 0 then [Hit(w, c)] else [];
    var prev := HitsUpTo(text, m);
    HitsUpToStep(text, m);
    assert HitsUpTo(text, n) == prev + extra;
    ReportedAppend(prev, extra, v);
    assert Reported(HitsUpTo(text, n), v) <==> Reported(prev, v) || (c > 0 && w == v);
    if k < m {
      HitCompleteAt(text, m, k);
      MarkersDistinctAt(k, m);
    } else {
      NotReportedBefore(text, m);
      CountPositiveIff(text, w);
    }
  }

  /** A marker among the first `n` is reported exactly when it occurs. */
  lemma HitsAreComplete(text: string, n: nat)
    requires n <= |AIWords|
    ensures forall k :: 0 <= k < n ==>
      (Reported(HitsUpTo(text, n), AIWords[k].word) <==> Contains(text, AIWords[k].word))
  {
    forall k | 0 <= k < n
      ensures Reported(HitsUpTo(text, n), AIWords[k].word) <==> Contains(text, AIWords[k].word)
    {
      HitCompleteAt(text, n, k);
    }
  }

  /** The modes the detector can suggest. */
  datatype Mode = Light | Medium | Heavy

  /** The suggestion from the number of distinct markers found. */
  function Recommend(found: nat): Mode
  {
    if found > 5 then Heavy
    else if found > 2 then Medium
    else Light
  }

  /** More than five distinct markers suggest heavy, three to five medium,
      and at most two light, so exactly two falls to light. */
  lemma RecommendThresholds(found: nat)
    ensures Recommend(found) == Heavy <==> found > 5
    ensures Recommend(found) == Medium <==> 3 <= found <= 5
    ensures Recommend(found) == Light <==> found <= 2
  {
  }

  /** The text of the one entry of `suggestions`. */
  function Suggestion(m: Mode): string
  {
    match m
    case Heavy => "建议用 heavy 模式"
    case Medium => "建议用 medium 模式"
    case Light => "建议用 light 模式"
  }

  /** The three suggestion texts are distinct, so the mode can be read back. */
  lemma SuggestionInjective(m: Mode, m': Mode)
    requires Suggestion(m) == Suggestion(m')
    ensures m == m'
  {
  }

  /** A hit as the detector lists it, `word (count次)`. */
  function RenderHit(h: Hit): string
  {
    h.word + " (" + Show(h.count) + "次)"
  }

  /** The word and the count can be read back from a rendered hit: it
      starts with the word, then ` (`, the decimal count and `次)`. */
  lemma RenderHitReadsBack(h: Hit)
    ensures var r := RenderHit(h);
      && StartsWith(r, h.word) && EndsWith(r, "次)")
      && |h.word| + 3 <= |r| - 2 && r[|h.word|..|h.word| + 2] == " ("
      && IsDigits(r[|h.word| + 2..|r| - 2]) && Parse(r[|h.word| + 2..|r| - 2]) == h.count
  {
    var r := RenderHit(h);
    assert r[|h.word| + 2..|r| - 2] == Show(h.count);
  }

  /** The rendered hit list, one string per hit, in the same order. */
  function RenderAll(hits: seq<Hit>): (r: seq<string>)
    ensures |r| == |hits|
  {
    if hits == [] then []
    else RenderAll(hits[..|hits| - 1]) + [RenderHit(hits[|hits| - 1])]
  }

  /** Rendering one more hit appends its rendering. */
  lemma RenderAllSnoc(hits: seq<Hit>, h: Hit)
    ensures RenderAll(hits + [h]) == RenderAll(hits) + [RenderHit(h)]
  {
    assert (hits + [h])[..|hits|] == hits;
  }

  /** The `i`-th rendered entry renders the `i`-th hit. */
  lemma {:induction false} RenderAllAt(hits: seq<Hit>, i: nat)
    requires i < |hits|
    ensures RenderAll(hits)[i] == RenderHit(hits[i])
  {
    if i < |hits| - 1 {
      RenderAllAt(hits[..|hits| - 1], i);
    }
  }

  /** The patterns among the first `n` that `matches` accepts for the text,
      in table order. The regular-expression engine is not modelled:
      `matches(pattern, text)` stands for `re.findall(pattern, text)` being
      non-empty. */
  function PatternsUpTo(text: string, matches: (string, string) -> bool, n: nat): (r: seq<string>)
    requires n <= |MechanicalPatterns|
    ensures |r| <= n
    ensures forall p :: p in r <==> p in MechanicalPatterns[..n] && matches(p, text)
  {
    if n == 0 then []
    else
      var p := MechanicalPatterns[n - 1];
      var prev := PatternsUpTo(text, matches, n - 1);
      assert MechanicalPatterns[..n] == MechanicalPatterns[..n - 1] + [p];
      prev + (if matches(p, text) then [p] else [])
  }

  /** A text without any marker yields no hit and the light suggestion. */
  lemma MarkerFreeTextSuggestsLight(text: string)
    requires forall k :: 0 <= k < |AIWords| ==> !Contains(text, AIWords[k].word)
    ensures HighFrequencyHits(text) == []
    ensures Recommend(|HighFrequencyHits(text)|) == Light
  {
    var hits := HighFrequencyHits(text);
    HitsAreOrderedCounts(text, |AIWords|);
    HitsAreComplete(text, |AIWords|);
    assert hits != [] ==> Reported(hits, AIWords[MarkerIndex(hits[0].word)].word);
  }
}
