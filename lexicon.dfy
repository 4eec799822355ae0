/** The fixed tables of the AI-flavor remover (ai-flavor-remover.py,
    lines 23-76): the marker lexicon with its candidate replacements in
    dictionary order, the mechanical sentence patterns, the domains that have
    a style prompt, and the colloquial lead-ins of the casual touch. */
module FlavorLexicon {

  /** A marker phrase; `str.count` and `str.replace` need it non-empty. */
  type Marker = s: string | |s| > 0 witness "_"

  /** A marker's candidate replacements; every list in the table has one. */
  type Candidates = c: seq<string> | |c| > 0 witness [""]

  /** One lexicon entry: a marker and its candidates, the first preferred. */
  datatype Entry = Entry(word: Marker, candidates: Candidates)

  /** `AI_WORDS`, in the dictionary's insertion order. */
  const AIWords: seq<Entry> := [
    Entry("值得注意的是", ["", "有意思的是", "你会发现", "特别的是"]),
    Entry("不难发现", ["明眼人都看得出", "稍微留意就会发现", "其实不难发现"]),
    Entry("基于以上分析", ["说到底", "往深里说", "说白了", "所以"]),
    Entry("综上所述", ["总结一下", "说到底", "所以", "一言以蔽之"]),
    Entry("从某种程度上说", ["某种程度上", "一定程度上", "可以说"]),
    Entry("显而易见", ["很显然", "明摆着", "不用说也明白", "显而易见的是"]),
    Entry("换句话说", ["说白了", "也就是说", "换言之", "换句话说就是"]),
    Entry("因此", ["所以", "这样一来", "结果就是", "于是"]),
    Entry("此外", ["还有", "另外", "再说", "除此之外"]),
    Entry("然而", ["但是", "不过", "问题是", "然而现实是"]),
    Entry("首先", ["先来说说", "首先说说", "", "一开始"]),
    Entry("其次", ["再说", "另外", "还有一点", "其次要说的是"]),
    Entry("最后", ["最后说说", "说到底", "至于", "最后一点"])
  ]

  /** `MECHANICAL_PATTERNS`: regular expressions, kept as their source text. */
  const MechanicalPatterns: seq<string> := [
    "首先.*其次.*最后",
    "^[^，。！？]{30,}$",
    "（[一二三四五]）"
  ]

  /** The keys of `DOMAIN_PROMPTS`; `general` has no prompt. */
  const DomainPromptKeys: set<string> := {"tech", "essay", "business", "casual"}

  /** The lead-ins `_add_casual_touch` chooses from. */
  const CasualPrefixes: seq<string> := ["其实", "说实话", "说白了", "你会发现"]

  /** An index into `CasualPrefixes`, standing for one `random.choice`. */
  type PrefixIndex = i: int | 0 <= i < 4

  /** The light tier's choice of replacement for a marker: the first
      candidate unless it is empty, then the second if there is one, and
      the empty string otherwise. */
  function ChooseReplacement(candidates: Candidates): (r: string)
    ensures r == "" || r in candidates[..if |candidates| > 1 then 2 else 1]
    ensures r == "" <==> candidates[0] == "" && (|candidates| == 1 || candidates[1] == "")
    ensures candidates[0] != "" ==> r == candidates[0]
  {
    if candidates[0] != "" then candidates[0]
    else if |candidates| > 1 then candidates[1]
    else ""
  }

  /** Position of `w` among the markers, or `|AIWords|` when it is none. */
  function MarkerIndex(w: string): (k: nat)
    ensures k <= |AIWords|
    ensures k < |AIWords| ==> AIWords[k].word == w
    ensures k == |AIWords| ==> forall j :: 0 <= j < |AIWords| ==> AIWords[j].word != w
  {
    IndexFrom(w, 0)
  }

  function IndexFrom(w: string, j: nat): (k: nat)
    requires j <= |AIWords|
    ensures j <= k <= |AIWords|
    ensures k < |AIWords| ==> AIWords[k].word == w
    ensures forall i :: j <= i < k ==> AIWords[i].word != w
    ensures k == |AIWords| ==> forall i :: j <= i < |AIWords| ==> AIWords[i].word != w
    decreases |AIWords| - j
  {
    if j == |AIWords| then j
    else if AIWords[j].word == w then j
    else IndexFrom(w, j + 1)
  }

  /** The lexicon has thirteen pairwise distinct markers, and every chosen
      replacement is non-empty. */
  lemma LexiconWellFormed()
    ensures |AIWords| == 13
    ensures forall i, j :: 0 <= i < j < |AIWords| ==> AIWords[i].word != AIWords[j].word
    ensures forall i :: 0 <= i < |AIWords| ==> ChooseReplacement(AIWords[i].candidates) != ""
  {
    MarkersDistinct();
    ChosenNonEmpty();
  }

  /** No two markers share their first character, so no two are equal. */
  lemma MarkersDistinct()
    ensures forall i, j :: 0 <= i < j < |AIWords| ==> AIWords[i].word != AIWords[j].word
  {
    var heads := "值不基综从显换因此然首其最";
    assert forall i :: 0 <= i < |AIWords| ==> AIWords[i].word[0] == heads[i];
    assert forall i, j :: 0 <= i < j < |heads| ==> heads[i] != heads[j];
  }

  /** Two markers at different positions differ. */
  lemma MarkersDistinctAt(i: nat, j: nat)
    requires i < |AIWords| && j < |AIWords| && i != j
    ensures AIWords[i].word != AIWords[j].word
  {
    MarkersDistinct();
  }

  /** Every marker's chosen replacement is non-empty. */
  lemma ChosenNonEmpty()
    ensures forall i :: 0 <= i < |AIWords| ==> ChooseReplacement(AIWords[i].candidates) != ""
  {
  }

  /** The chosen replacement of marker `k` is non-empty. */
  lemma ChosenNonEmptyAt(k: nat)
    requires k < |AIWords|
    ensures ChooseReplacement(AIWords[k].candidates) != ""
  {
    ChosenNonEmpty();
  }

  /** The light tier's choice is fixed: `值得注意的是` becomes `有意思的是`,
      its first candidate being empty, and every other marker becomes its
      first candidate. */
  lemma ChosenReplacements()
    ensures ChooseReplacement(AIWords[0].candidates) == "有意思的是"
    ensures forall i :: 1 <= i < |AIWords| ==>
      ChooseReplacement(AIWords[i].candidates) == AIWords[i].candidates[0]
  {
  }

  /** Every marker that is found is reported at its own table position. */
  lemma MarkerIndexOfMarker(k: nat)
    requires k < |AIWords|
    ensures MarkerIndex(AIWords[k].word) == k
  {
    MarkersDistinct();
  }
}
