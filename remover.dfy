/** The class `AIFlavorRemover` (ai-flavor-remover.py, lines 79-188): a
    configuration fixed at construction and the detection and rewriting
    operations, each written as the source's loops and proved to compute the
    functions of `FlavorDetect` and `FlavorRewrite`. */
module FlavorRemover {
  import opened Wrappers
  import opened Strings
  import opened FlavorLexicon
  import opened FlavorDetect
  import opened FlavorRewrite

  /** The configuration dictionary; a key may be absent. */
  datatype Config = Config(
    mode: Option<string>,
    domain: Option<string>,
    customReplacements: Option<map<string, string>>,
    preservePatterns: Option<seq<string>>)

  /** The dictionary `detect_ai_flavor` returns. */
  datatype Issues = Issues(
    highFreqWords: seq<string>,
    mechanicalPatterns: seq<string>,
    suggestions: seq<string>)

  class AIFlavorRemover {
    const config: Config
    const mode: string
    const domain: string
    /** Stored but never read by any operation. */
    const customReplacements: map<string, string>
    /** Stored but never read by any operation. */
    const preservePatterns: seq<string>

    /** `__init__`: each setting is read with `config.get` and its default. */
    constructor (config: Config)
      ensures this.config == config
      ensures mode == config.mode.GetOr("medium")
      ensures domain == config.domain.GetOr("general")
      ensures customReplacements == config.customReplacements.GetOr(map[])
      ensures preservePatterns == config.preservePatterns.GetOr([])
    {
      this.config := config;
      mode := config.mode.GetOr("medium");
      domain := config.domain.GetOr("general");
      customReplacements := config.customReplacements.GetOr(map[]);
      preservePatterns := config.preservePatterns.GetOr([]);
    }

    /** `detect_ai_flavor`: the rendered hits in table order, the mechanical
        patterns that `matches` accepts, and exactly one suggestion chosen
        from the number of distinct markers found. */
    method DetectAIFlavor(text: string, matches: (string, string) -> bool) returns (issues: Issues)
      ensures issues.highFreqWords == RenderAll(HighFrequencyHits(text))
      ensures issues.mechanicalPatterns == PatternsUpTo(text, matches, |MechanicalPatterns|)
      ensures issues.suggestions == [Suggestion(Recommend(|HighFrequencyHits(text)|))]
    {
      var highFreqWords: seq<string> := [];
      ghost var hits: seq<Hit> := [];
      for i := 0 to |AIWords|
        invariant hits == HitsUpTo(text, i)
        invariant highFreqWords == RenderAll(hits)
      {
        HitsUpToStep(text, i);
        var word := AIWords[i].word;
        var count := Count(text, word);
        if count > 0 {
          RenderAllSnoc(hits, Hit(word, count));
          hits := hits + [Hit(word, count)];
          highFreqWords := highFreqWords + [RenderHit(Hit(word, count))];
        }
      }

      var mechanicalPatterns: seq<string> := [];
      for i := 0 to |MechanicalPatterns|
        invariant mechanicalPatterns == PatternsUpTo(text, matches, i)
      {
        var pattern := MechanicalPatterns[i];
        if matches(pattern, text) {
          mechanicalPatterns := mechanicalPatterns + [pattern];
        }
      }

      var wordCount := |highFreqWords|;
      assert wordCount == |HighFrequencyHits(text)|;
      var suggestion: string;
      if wordCount > 5 {
        suggestion := "建议用 heavy 模式";
        assert suggestion == Suggestion(Recommend(wordCount));
      } else if wordCount > 2 {
        suggestion := "建议用 medium 模式";
        assert suggestion == Suggestion(Recommend(wordCount));
      } else {
        suggestion := "建议用 light 模式";
        assert suggestion == Suggestion(Recommend(wordCount));
      }
      issues := Issues(highFreqWords, mechanicalPatterns, [suggestion]);
    }

    /** `remove_ai_flavor_light`: the marker loop, then the comma rewrites. */
    method RemoveAIFlavorLight(text: string) returns (result: string)
      ensures result == LightTier(text)
    {
      result := text;
      for i := 0 to |AIWords|
        invariant result == MarkersUpTo(text, i)
      {
        var entry := AIWords[i];
        if Contains(result, entry.word) {
          var replacement := ChooseReplacement(entry.candidates);
          result := ReplaceAll(result, entry.word, replacement);
        }
      }
      result := ReplaceAll(result, "首先，", "先来说说");
      result := ReplaceAll(result, "其次，", "再说");
      result := ReplaceAll(result, "最后，", "最后说说");
    }

    /** `remove_ai_flavor_medium`: light, the sentence walk with the casual
        touch drawing from `oracle`, the re-join and the connective rewrites. */
    method RemoveAIFlavorMedium(text: string, oracle: nat -> Draw) returns (result: string)
      ensures result == MediumTier(text, oracle)
    {
      result := RemoveAIFlavorLight(text);
      var sentences := SplitKeep(result);
      var processed: seq<string> := [];
      for i := 0 to |sentences|
        invariant processed == ProcessUpTo(sentences, oracle, i)
      {
        var sent := sentences[i];
        if sent in [".", "!", "?", "。", "！", "？"] {
          processed := processed + [sent];
          continue;
        }
        if i > 0 && i % 3 == 0 && |sent| > 20 {
          sent := AddCasualTouch(sent, oracle(i));
        }
        processed := processed + [sent];
      }
      result := Join(processed);
      result := ReplaceAll(result, "此外，", "还有，");
      result := ReplaceAll(result, "然而，", "但是，");
      result := ReplaceAll(result, "因此，", "所以，");
    }

    /** `remove_ai_flavor_heavy`: medium, then a domain branch that does
        nothing, so the result is the medium result for every domain. */
    method RemoveAIFlavorHeavy(text: string, oracle: nat -> Draw) returns (result: string)
      ensures result == MediumTier(text, oracle)
    {
      result := RemoveAIFlavorMedium(text, oracle);
      if domain in DomainPromptKeys {
        // The source leaves a hook for a deeper domain rewrite here.
      }
    }

    /** `process`: light for mode `light`, heavy for `heavy`, medium for any
        other mode; heavy and medium give the same text. */
    method Process(text: string, oracle: nat -> Draw) returns (result: string)
      ensures mode == "light" ==> result == LightTier(text)
      ensures mode != "light" ==> result == MediumTier(text, oracle)
    {
      if mode == "light" {
        result := RemoveAIFlavorLight(text);
      } else if mode == "heavy" {
        result := RemoveAIFlavorHeavy(text, oracle);
      } else {
        result := RemoveAIFlavorMedium(text, oracle);
      }
    }
  }
}
