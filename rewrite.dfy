/** The rewriting tiers of the AI-flavor remover as functions of the text
    (ai-flavor-remover.py, lines 118-179): the light tier's marker loop and
    comma rewrites, and the medium tier's sentence split, casual touch,
    re-join and connective rewrites. The one random step, the casual touch,
    takes its decision from an oracle argument. */
module FlavorRewrite {
  import opened Strings
  import opened FlavorLexicon

  // ---------------------------------------------------------------------
  // Light tier

  /** One iteration of the light tier's marker loop: a marker that occurs is
      replaced everywhere by its chosen replacement. */
  function MarkerStep(s: string, e: Entry): string
  {
    if Contains(s, e.word) then ReplaceAll(s, e.word, ChooseReplacement(e.candidates)) else s
  }

  /** The text after the marker loop has run over the first `n` markers. */
  function MarkersUpTo(text: string, n: nat): string
    requires n <= |AIWords|
  {
    if n == 0 then text else MarkerStep(MarkersUpTo(text, n - 1), AIWords[n - 1])
  }

  /** The three comma-consuming rewrites that end the light tier. */
  function LightCommaRewrites(s: string): string
  {
    var s1 := ReplaceAll(s, "首先，", "先来说说");
    var s2 := ReplaceAll(s1, "其次，", "再说");
    ReplaceAll(s2, "最后，", "最后说说")
  }

  /** `remove_ai_flavor_light`. */
  function LightTier(text: string): string
  {
    LightCommaRewrites(MarkersUpTo(text, |AIWords|))
  }

  /** The guard `if word in result` changes nothing: the step is an
      unconditional replace-all, because replacing a marker that does not
      occur leaves the text unchanged. */
  lemma MarkerStepIsReplaceAll(s: string, e: Entry)
    ensures MarkerStep(s, e) == ReplaceAll(s, e.word, ChooseReplacement(e.candidates))
  {
    if !Contains(s, e.word) {
      ReplaceAbsent(s, e.word, ChooseReplacement(e.candidates));
    }
  }

  /** The comma rewrites change a text only if it contains `首先`, `其次` or
      `最后`. */
  lemma {:induction false} CommaRewritesNeedMarkers(s: string)
    requires !Contains(s, "首先") && !Contains(s, "其次") && !Contains(s, "最后")
    ensures LightCommaRewrites(s) == s
  {
    assert "首先，" == "首先" + "，" && "其次，" == "其次" + "，" && "最后，" == "最后" + "，";
    if Contains(s, "首先，") { ContainsLonger(s, "首先", "，"); }
    if Contains(s, "其次，") { ContainsLonger(s, "其次", "，"); }
    if Contains(s, "最后，") { ContainsLonger(s, "最后", "，"); }
    ReplaceAbsent(s, "首先，", "先来说说");
    ReplaceAbsent(s, "其次，", "再说");
    ReplaceAbsent(s, "最后，", "最后说说");
  }

  /** The marker loop leaves a text without markers unchanged. */
  lemma {:induction false} MarkersUpToIdentity(text: string, n: nat)
    requires n <= |AIWords|
    requires forall k :: 0 <= k < |AIWords| ==> !Contains(text, AIWords[k].word)
    ensures MarkersUpTo(text, n) == text
  {
    if n > 0 {
      MarkersUpToIdentity(text, n - 1);
    }
  }

  /** The light tier returns a text that contains none of the thirteen
      markers unchanged. */
  lemma LightIdentityWithoutMarkers(text: string)
    requires forall k :: 0 <= k < |AIWords| ==> !Contains(text, AIWords[k].word)
    ensures LightTier(text) == text
  {
    MarkersUpToIdentity(text, |AIWords|);
    assert AIWords[10].word == "首先" && AIWords[11].word == "其次" && AIWords[12].word == "最后";
    CommaRewritesNeedMarkers(text);
  }

  /** A marker step whose replacement uses none of the characters of `p`
      creates no occurrence of `p`. */
  lemma StepKeepsAbsent(s: string, k: nat, p: string)
    requires k < |AIWords| && |p| > 0
    requires SharesNoChar(ChooseReplacement(AIWords[k].candidates), p)
    ensures !Contains(s, p) ==> !Contains(MarkerStep(s, AIWords[k]), p)
  {
    MarkerStepIsReplaceAll(s, AIWords[k]);
    ChosenNonEmptyAt(k);
    ReplaceAllKeepsAbsent(s, AIWords[k].word, ChooseReplacement(AIWords[k].candidates), p);
  }

  /** The `n`-th marker step keeps `p` absent when its replacement uses
      none of the characters of `p`. */
  lemma MarkersStepKeepsAbsent(text: string, n: nat, p: string)
    requires 0 < n <= |AIWords| && |p| > 0
    requires SharesNoChar(ChooseReplacement(AIWords[n - 1].candidates), p)
    ensures !Contains(MarkersUpTo(text, n - 1), p) ==> !Contains(MarkersUpTo(text, n), p)
  {
    StepKeepsAbsent(MarkersUpTo(text, n - 1), n - 1, p);
  }

  /** Once `p` is absent, marker steps whose replacements use none of its
      characters keep it absent. */
  lemma {:induction false} LaterStepsKeepAbsent(text: string, from: nat, n: nat, p: string)
    requires from <= n <= |AIWords| && |p| > 0
    requires forall k :: from <= k < n ==> SharesNoChar(ChooseReplacement(AIWords[k].candidates), p)
    ensures !Contains(MarkersUpTo(text, from), p) ==> !Contains(MarkersUpTo(text, n), p)
    decreases n
  {
    if n > from {
      LaterStepsKeepAbsent(text, from, n - 1, p);
      MarkersStepKeepsAbsent(text, n, p);
    }
  }

  /** The step of a two-character marker removes every occurrence of a
      pattern that begins with the marker, when the marker's replacement
      cannot rebuild the pattern. */
  lemma MarkerStepRemoves(text: string, k: nat, p: string)
    requires k < |AIWords| && |AIWords[k].word| == 2 && |p| >= 2 && p[..2] == AIWords[k].word
    requires var r := ChooseReplacement(AIWords[k].candidates);
      && !Contains(r, p) && NoStraddleFrom(r, p) && !StartsWith(r, p[1..]) && !StartsWith(p[1..], r)
    ensures !Contains(MarkersUpTo(text, k + 1), p)
  {
    ChosenNonEmptyAt(k);
    MarkerStepIsReplaceAll(MarkersUpTo(text, k), AIWords[k]);
    ReplaceAllRemoves(MarkersUpTo(text, k), AIWords[k].word, ChooseReplacement(AIWords[k].candidates), p);
  }

  /** A pattern that the step of marker `k` removes, and whose characters
      no later marker's replacement uses, is absent after the marker loop. */
  lemma AbsentAfterMarkers(text: string, k: nat, p: string)
    requires k < |AIWords| && |AIWords[k].word| == 2 && |p| >= 2 && p[..2] == AIWords[k].word
    requires var r := ChooseReplacement(AIWords[k].candidates);
      && !Contains(r, p) && NoStraddleFrom(r, p) && !StartsWith(r, p[1..]) && !StartsWith(p[1..], r)
    requires forall j :: k < j < |AIWords| ==> SharesNoChar(ChooseReplacement(AIWords[j].candidates), p)
    ensures !Contains(MarkersUpTo(text, |AIWords|), p)
  {
    MarkerStepRemoves(text, k, p);
    LaterStepsKeepAbsent(text, k + 1, |AIWords|, p);
  }

  /** After the marker loop `首先，` does not occur. */
  lemma NoFirstComma(text: string)
    ensures !Contains(MarkersUpTo(text, |AIWords|), "首先，")
  {
    var p := "首先，";
    ContainsFirstChar("先来说说", p);
    DifferAt("先来说说", p[1..], 1);
    AbsentAfterMarkers(text, 10, p);
  }

  /** After the marker loop `其次，` does not occur. */
  lemma NoSecondComma(text: string)
    ensures !Contains(MarkersUpTo(text, |AIWords|), "其次，")
  {
    var p := "其次，";
    NoRoomNoContains("再说", p);
    DifferAt("再说", p[1..], 0);
    AbsentAfterMarkers(text, 11, p);
  }

  /** After the marker loop `最后，` does not occur. */
  lemma NoLastComma(text: string)
    ensures !Contains(MarkersUpTo(text, |AIWords|), "最后，")
  {
    var p := "最后，";
    var r := "最后说说";
    DifferAt(r, p, 2);
    DifferAt(r[1..], p, 0);
    NoRoomNoContains(r[2..], p);
    assert r[1..][1..] == r[2..];
    DifferAt(r, p[1..], 0);
    AbsentAfterMarkers(text, 12, p);
  }

  /** After the marker loop `因此，` does not occur. */
  lemma NoThereforeComma(text: string)
    ensures !Contains(MarkersUpTo(text, |AIWords|), "因此，")
  {
    var p := "因此，";
    NoRoomNoContains("所以", p);
    DifferAt("所以", p[1..], 0);
    AbsentAfterMarkers(text, 7, p);
  }

  /** After the marker loop `此外，` does not occur. */
  lemma NoBesidesComma(text: string)
    ensures !Contains(MarkersUpTo(text, |AIWords|), "此外，")
  {
    var p := "此外，";
    NoRoomNoContains("还有", p);
    DifferAt("还有", p[1..], 0);
    AbsentAfterMarkers(text, 8, p);
  }

  /** After the marker loop `然而，` does not occur. */
  lemma NoHoweverComma(text: string)
    ensures !Contains(MarkersUpTo(text, |AIWords|), "然而，")
  {
    var p := "然而，";
    NoRoomNoContains("但是", p);
    DifferAt("但是", p[1..], 0);
    AbsentAfterMarkers(text, 9, p);
  }

  /** The light tier's three comma rewrites never change the text: the
      marker loop has already replaced every `首先`, `其次` and `最后` they
      look for, so the light tier is the marker loop alone. */
  lemma LightCommaRewritesInert(text: string)
    ensures LightTier(text) == MarkersUpTo(text, |AIWords|)
  {
    var s := MarkersUpTo(text, |AIWords|);
    NoFirstComma(text);
    NoSecondComma(text);
    NoLastComma(text);
    ReplaceAbsent(s, "首先，", "先来说说");
    ReplaceAbsent(s, "其次，", "再说");
    ReplaceAbsent(s, "最后，", "最后说说");
  }

  /** The light tier's result contains none of the medium tier's
      connectives, so the medium tier's connective rewrites leave it as it
      is. */
  lemma ConnectiveRewritesInertOnLight(text: string)
    ensures MediumConnectiveRewrites(LightTier(text)) == LightTier(text)
  {
    LightCommaRewritesInert(text);
    NoThereforeComma(text);
    NoBesidesComma(text);
    NoHoweverComma(text);
    var s := LightTier(text);
    ReplaceAbsent(s, "此外，", "还有，");
    ReplaceAbsent(s, "然而，", "但是，");
    ReplaceAbsent(s, "因此，", "所以，");
  }

  // ---------------------------------------------------------------------
  // Medium tier

  /** The sentence terminators of the medium tier's `re.split`. */
  predicate IsTerminator(c: char)
  {
    c == '。' || c == '！' || c == '？'
  }

  /** `re.split(r'([。！？])', s)`: the bodies between terminators, with each
      terminator kept as a segment of its own between them. */
  function SplitKeep(s: string): (parts: seq<string>)
    ensures |parts| % 2 == 1
    decreases |s|
  {
    if s == [] then [""]
    else if IsTerminator(s[0]) then ["", [s[0]]] + SplitKeep(s[1..])
    else
      var rest := SplitKeep(s[1..]);
      [[s[0]] + rest[0]] + rest[1..]
  }

  /** `"".join(parts)`. */
  function Join(parts: seq<string>): string
  {
    if parts == [] then "" else parts[0] + Join(parts[1..])
  }

  /** Joining the split pieces gives back the text. */
  lemma {:induction false} SplitJoinRoundTrip(s: string)
    ensures Join(SplitKeep(s)) == s
    decreases |s|
  {
    if s != [] {
      SplitJoinRoundTrip(s[1..]);
      var rest := SplitKeep(s[1..]);
      if IsTerminator(s[0]) {
        var parts := ["", [s[0]]] + rest;
        assert parts[1..][1..] == rest;
        assert Join(parts) == "" + ([s[0]] + Join(rest));
      } else {
        var parts := [[s[0]] + rest[0]] + rest[1..];
        assert parts[1..] == rest[1..];
        assert Join(rest) == rest[0] + Join(rest[1..]);
        assert Join(parts) == [s[0]] + rest[0] + Join(rest[1..]);
      }
      assert [s[0]] + s[1..] == s;
    }
  }

  /** A single terminator. */
  predicate IsTerminatorSegment(seg: string)
  {
    |seg| == 1 && IsTerminator(seg[0])
  }

  /** A sentence body: no terminator inside. */
  predicate IsBody(seg: string)
  {
    forall j :: 0 <= j < |seg| ==> !IsTerminator(seg[j])
  }

  /** Odd positions hold a single terminator, even positions hold bodies. */
  ghost predicate Alternates(parts: seq<string>)
  {
    forall i :: 0 <= i < |parts| ==>
      (i % 2 == 1 ==> IsTerminatorSegment(parts[i])) && (i % 2 == 0 ==> IsBody(parts[i]))
  }

  /** The split alternates between bodies and single terminators. */
  lemma {:induction false} SplitShape(s: string)
    ensures Alternates(SplitKeep(s))
    decreases |s|
  {
    if s != [] {
      SplitShape(s[1..]);
      var rest := SplitKeep(s[1..]);
      var parts := SplitKeep(s);
      if IsTerminator(s[0]) {
        forall i | 0 <= i < |parts|
          ensures (i % 2 == 1 ==> IsTerminatorSegment(parts[i])) && (i % 2 == 0 ==> IsBody(parts[i]))
        {
          if i >= 2 {
            assert parts[i] == rest[i - 2];
          }
        }
      } else {
        assert IsBody(rest[0]);
        assert IsBody(parts[0]) by {
          forall j | 0 <= j < |parts[0]|
            ensures !IsTerminator(parts[0][j])
          {
            if j > 0 {
              assert parts[0][j] == rest[0][j - 1];
            }
          }
        }
        forall i | 1 <= i < |parts|
          ensures (i % 2 == 1 ==> IsTerminatorSegment(parts[i])) && (i % 2 == 0 ==> IsBody(parts[i]))
        {
          assert parts[i] == rest[i];
        }
      }
    }
  }

  /** One decision of the oracle standing for `random`: keep the sentence
      (`random.random() >= 0.3`) or prefix it with a chosen lead-in. */
  datatype Draw = Keep | Fire(prefix: PrefixIndex)

  /** `_add_casual_touch`: the sentence unchanged, or a lead-in, a comma and
      the sentence without its leading whitespace. */
  function AddCasualTouch(sentence: string, d: Draw): (r: string)
    ensures r == sentence || exists k :: 0 <= k < 4 && r == CasualPrefixes[k] + "，" + LStrip(sentence)
    ensures d == Keep ==> r == sentence
    ensures d.Fire? ==> StartsWith(r, CasualPrefixes[d.prefix] + "，")
    ensures d.Fire? ==> |r| == |CasualPrefixes[d.prefix]| + 1 + |LStrip(sentence)|
    ensures EndsWith(r, LStrip(sentence))
  {
    match d
    case Keep => sentence
    case Fire(k) =>
      var body := LStrip(sentence);
      LeadAndBody(CasualPrefixes[k] + "，", body);
      CasualPrefixes[k] + "，" + body
  }

  /** A lead followed by a body starts with the lead and ends with the body. */
  lemma LeadAndBody(lead: string, body: string)
    ensures StartsWith(lead + body, lead) && EndsWith(lead + body, body)
  {
    assert (lead + body)[..|lead|] == lead;
    assert (lead + body)[|lead|..] == body;
  }

  /** The segments the loop copies without a look: the terminators. */
  predicate IsPunctuation(seg: string)
  {
    seg in [".", "!", "?", "。", "！", "？"]
  }

  /** A body segment that may receive a casual touch. */
  predicate Touchable(i: nat, seg: string)
  {
    i > 0 && i % 3 == 0 && |seg| > 20
  }

  /** The medium loop's treatment of the segment at position `i`. */
  function ProcessSegment(i: nat, seg: string, oracle: nat -> Draw): string
  {
    if IsPunctuation(seg) then seg
    else if Touchable(i, seg) then AddCasualTouch(seg, oracle(i))
    else seg
  }

  /** The `processed` list after the first `n` segments. */
  function ProcessUpTo(parts: seq<string>, oracle: nat -> Draw, n: nat): (out: seq<string>)
    requires n <= |parts|
    ensures |out| == n
  {
    if n == 0 then []
    else ProcessUpTo(parts, oracle, n - 1) + [ProcessSegment(n - 1, parts[n - 1], oracle)]
  }

  /** The three comma-preserving rewrites that end the medium tier. */
  function MediumConnectiveRewrites(s: string): string
  {
    var s1 := ReplaceAll(s, "此外，", "还有，");
    var s2 := ReplaceAll(s1, "然而，", "但是，");
    ReplaceAll(s2, "因此，", "所以，")
  }

  /** `remove_ai_flavor_medium`, with the casual touch drawing from `oracle`. */
  function MediumTier(text: string, oracle: nat -> Draw): string
  {
    var parts := SplitKeep(LightTier(text));
    MediumConnectiveRewrites(Join(ProcessUpTo(parts, oracle, |parts|)))
  }

  /** The `i`-th processed segment is the loop's treatment of the `i`-th. */
  lemma {:induction false} ProcessUpToAt(parts: seq<string>, oracle: nat -> Draw, n: nat, i: nat)
    requires i < n <= |parts|
    ensures ProcessUpTo(parts, oracle, n)[i] == ProcessSegment(i, parts[i], oracle)
  {
    var prev := ProcessUpTo(parts, oracle, n - 1);
    assert ProcessUpTo(parts, oracle, n) == prev + [ProcessSegment(n - 1, parts[n - 1], oracle)];
    if i < n - 1 {
      ProcessUpToAt(parts, oracle, n - 1, i);
    }
  }

  /** Segment by segment: punctuation and every segment that is not a
      touchable body pass through unchanged, and a touched one is either
      unchanged or a lead-in, a comma and the segment without its leading
      whitespace. */
  lemma ProcessedSegments(parts: seq<string>, oracle: nat -> Draw, i: nat)
    requires i < |parts|
    ensures var out := ProcessUpTo(parts, oracle, |parts|);
      && (IsPunctuation(parts[i]) || !Touchable(i, parts[i]) ==> out[i] == parts[i])
      && (out[i] == parts[i]
          || exists k :: 0 <= k < 4 && out[i] == CasualPrefixes[k] + "，" + LStrip(parts[i]))
  {
    ProcessUpToAt(parts, oracle, |parts|, i);
  }

  /** When the oracle never fires, the loop reproduces its input. */
  lemma {:induction false} ProcessWithoutFiring(parts: seq<string>, oracle: nat -> Draw, n: nat)
    requires n <= |parts|
    requires forall i :: oracle(i) == Keep
    ensures ProcessUpTo(parts, oracle, n) == parts[..n]
  {
    if n > 0 {
      ProcessWithoutFiring(parts, oracle, n - 1);
      assert parts[..n] == parts[..n - 1] + [parts[n - 1]];
    }
  }

  /** With no casual touch, the medium tier is the light tier followed by the
      three connective rewrites: splitting and re-joining reproduce the light
      output exactly. */
  lemma MediumWithoutTouch(text: string, oracle: nat -> Draw)
    requires forall i :: oracle(i) == Keep
    ensures MediumTier(text, oracle) == MediumConnectiveRewrites(LightTier(text))
  {
    var parts := SplitKeep(LightTier(text));
    ProcessWithoutFiring(parts, oracle, |parts|);
    assert parts[..|parts|] == parts;
    SplitJoinRoundTrip(LightTier(text));
  }

  /** When the casual touch never fires, the medium tier returns exactly
      the light tier's text. */
  lemma MediumWithoutTouchIsLight(text: string, oracle: nat -> Draw)
    requires forall i :: oracle(i) == Keep
    ensures MediumTier(text, oracle) == LightTier(text)
  {
    MediumWithoutTouch(text, oracle);
    ConnectiveRewritesInertOnLight(text);
  }

  /** A terminator segment is among the loop's punctuation list. */
  lemma TerminatorIsPunctuation(seg: string)
    requires IsTerminatorSegment(seg)
    ensures IsPunctuation(seg)
  {
    assert seg == [seg[0]];
  }

  /** An even multiple of three is a multiple of six. */
  lemma {:induction false} EvenMultipleOfThree(i: nat)
    requires i % 2 == 0 && i % 3 == 0
    ensures i % 6 == 0
    decreases i
  {
    if i >= 6 {
      assert (i - 6) % 2 == i % 2 && (i - 6) % 3 == i % 3 && (i - 6) % 6 == i % 6;
      EvenMultipleOfThree(i - 6);
    }
  }

  /** On a split text, only bodies at positive multiples of six can change:
      the terminators sit at odd positions, so `i % 3 == 0` admits only the
      even multiples of three. */
  lemma TouchedPositions(s: string, oracle: nat -> Draw, i: nat)
    requires i < |SplitKeep(s)|
    ensures var parts := SplitKeep(s);
      ProcessUpTo(parts, oracle, |parts|)[i] != parts[i] ==> i > 0 && i % 6 == 0 && |parts[i]| > 20
  {
    var parts := SplitKeep(s);
    var out := ProcessUpTo(parts, oracle, |parts|);
    SplitShape(s);
    ProcessUpToAt(parts, oracle, |parts|, i);
    if i % 2 == 1 {
      assert IsTerminatorSegment(parts[i]);
      TerminatorIsPunctuation(parts[i]);
    } else if Touchable(i, parts[i]) {
      EvenMultipleOfThree(i);
    }
  }

  // ---------------------------------------------------------------------
  // The connective rewrites after the casual touch

  /** `"".join` of one more part appends that part. */
  lemma {:induction false} JoinSnoc(xs: seq<string>, y: string)
    ensures Join(xs + [y]) == Join(xs) + y
    decreases |xs|
  {
    if xs == [] {
      assert xs + [y] == [y];
      assert [y][1..] == [];
    } else {
      assert (xs + [y])[1..] == xs[1..] + [y];
      JoinSnoc(xs[1..], y);
    }
  }

  /** A pattern of the medium tier's connective rewrites: two characters,
      neither a comma nor a terminator, the first in no lead-in, then a
      full-width comma. */
  ghost predicate ConnectivePattern(p: string)
  {
    && |p| == 3 && p[2] == '，'
    && p[0] != '，' && p[1] != '，' && !IsTerminator(p[0]) && !IsTerminator(p[1])
    && forall k, j :: 0 <= k < |CasualPrefixes| && 0 <= j < |CasualPrefixes[k]| ==> CasualPrefixes[k][j] != p[0]
  }

  /** `s` ends in the first character of the three-character pattern `p`. */
  ghost predicate OpensWith1(s: string, p: string)
    requires |p| == 3
  {
    |s| >= 1 && s[|s| - 1] == p[0]
  }

  /** `s` ends in the first two characters of the three-character pattern `p`. */
  ghost predicate OpensWith2(s: string, p: string)
    requires |p| == 3
  {
    |s| >= 2 && s[|s| - 2] == p[0] && s[|s| - 1] == p[1]
  }

  /** Appending `b` to `a` creates no occurrence of `p` when `p` occurs
      neither in `a` nor in `q + b`, for a `q` that ends in every opening of
      `p` that `a` ends in. */
  lemma ConcatKeepsAbsent(a: string, b: string, q: string, p: string)
    requires |p| == 3
    requires !Contains(a, p) && !Contains(q + b, p)
    requires OpensWith1(a, p) ==> OpensWith1(q, p)
    requires OpensWith2(a, p) ==> OpensWith2(q, p)
    ensures !Contains(a + b, p)
  {
    AbsentParts(q, b, p);
    ConcatAbsent(a, b, p);
  }

  /** An occurrence of `p` in `a + b` lies in `a`, lies in `b`, or
      completes an opening of `p` at the end of `a`. */
  lemma ConcatOccurrence(a: string, b: string, p: string)
    requires |p| == 3
    ensures Contains(a + b, p) ==>
      || Contains(a, p) || Contains(b, p)
      || (OpensWith1(a, p) && StartsWith(b, p[1..]))
      || (OpensWith2(a, p) && StartsWith(b, p[2..]))
  {
    ContainsConcat(a, b, p);
    if Straddles(a, b, p) {
      var i :| 0 <= i < |a| && |a| - i < |p| && StartsWith((a + b)[i..], p);
      var t := (a + b)[i..];
      assert t[..3] == p;
      if |a| - i == 1 {
        assert t[0] == a[|a| - 1];
        assert t[1] == b[0] && t[2] == b[1];
        assert b[..2] == t[1..3] == p[1..];
      } else {
        assert t[0] == a[|a| - 2] && t[1] == a[|a| - 1];
        assert t[2] == b[0];
        assert b[..1] == t[2..3] == p[2..];
      }
    }
  }

  /** Text ending in an opening of `p`, followed by the rest of `p`,
      contains `p`. */
  lemma CompletesOpening(q: string, b: string, p: string)
    requires |p| == 3
    ensures (OpensWith1(q, p) && StartsWith(b, p[1..])) || (OpensWith2(q, p) && StartsWith(b, p[2..]))
            ==> Contains(q + b, p)
  {
    ContainsIffOccurs(q + b, p);
    if OpensWith1(q, p) && StartsWith(b, p[1..]) {
      assert (q + b)[|q| - 1..|q| + 2] == p;
      assert OccursAt(q + b, p, |q| - 1);
    }
    if OpensWith2(q, p) && StartsWith(b, p[2..]) {
      assert (q + b)[|q| - 2..|q| + 1] == p;
      assert OccursAt(q + b, p, |q| - 2);
    }
  }

  /** An occurrence in `b` is an occurrence in `q + b`. */
  lemma SuffixContains(q: string, b: string, p: string)
    ensures Contains(b, p) ==> Contains(q + b, p)
  {
    if Contains(b, p) {
      assert (q + b)[|q|..] == b;
      ContainsInSuffix(q + b, |q|, p);
    }
  }

  /** No occurrence in `a`, none in `b`, and no opening at the end of `a`
      that `b` completes: none in `a + b`. */
  lemma ConcatAbsent(a: string, b: string, p: string)
    requires |p| == 3 && !Contains(a, p) && !Contains(b, p)
    requires !(OpensWith1(a, p) && StartsWith(b, p[1..]))
    requires !(OpensWith2(a, p) && StartsWith(b, p[2..]))
    ensures !Contains(a + b, p)
  {
    ConcatOccurrence(a, b, p);
  }

  /** Absent from `q + b`: absent from `b`, and `b` completes no opening at
      the end of `q`. */
  lemma AbsentParts(q: string, b: string, p: string)
    requires |p| == 3 && !Contains(q + b, p)
    ensures !Contains(b, p)
    ensures !(OpensWith1(q, p) && StartsWith(b, p[1..]))
    ensures !(OpensWith2(q, p) && StartsWith(b, p[2..]))
  {
    SuffixContains(q, b, p);
    CompletesOpening(q, b, p);
  }

  /** Appending the same text to `a` and `q` keeps every opening of `p` at
      the end of `a` one of `q`. */
  lemma OpeningsOfConcat(a: string, b: string, q: string, p: string)
    requires |p| == 3
    requires OpensWith1(a, p) ==> OpensWith1(q, p)
    requires OpensWith2(a, p) ==> OpensWith2(q, p)
    ensures OpensWith1(a + b, p) ==> OpensWith1(q + b, p)
    ensures OpensWith2(a + b, p) ==> OpensWith2(q + b, p)
  {
    if b == [] {
      assert a + b == a && q + b == q;
    } else if |b| == 1 {
      assert (a + b)[|a + b| - 1] == b[0] == (q + b)[|q + b| - 1];
      if OpensWith2(a + b, p) {
        assert (a + b)[|a + b| - 2] == a[|a| - 1];
        assert OpensWith1(a, p);
        assert (q + b)[|q + b| - 2] == q[|q| - 1];
      }
    } else {
      assert (a + b)[|a + b| - 1] == b[|b| - 1] == (q + b)[|q + b| - 1];
      assert (a + b)[|a + b| - 2] == b[|b| - 2] == (q + b)[|q + b| - 2];
    }
  }

  /** Text of at least two characters decides the openings at the end of
      anything it is appended to. */
  lemma OpeningsOfLongSuffix(a: string, b: string, p: string)
    requires |p| == 3 && |b| >= 2
    ensures OpensWith1(a + b, p) <==> OpensWith1(b, p)
    ensures OpensWith2(a + b, p) <==> OpensWith2(b, p)
  {
    var t := a + b;
    assert t[|t| - 1] == b[|b| - 1] && t[|t| - 2] == b[|b| - 2];
  }

  /** A lead-in and its comma contain no connective pattern and end in no
      opening of one. */
  lemma LeadInInert(k: PrefixIndex, p: string)
    requires ConnectivePattern(p)
    ensures var lead := CasualPrefixes[k] + "，";
      !Contains(lead, p) && !OpensWith1(lead, p) && !OpensWith2(lead, p)
  {
    var lead := CasualPrefixes[k] + "，";
    forall i | 0 <= i < |lead|
      ensures lead[i] != p[0]
    {
      if i < |CasualPrefixes[k]| {
        assert lead[i] == CasualPrefixes[k][i];
      }
    }
    ContainsFirstChar(lead, p);
  }

  /** A lead ending in a comma, then text `body`, creates no pattern that
      `body` after any `before` lacks, and ends in an opening only where
      `before + body` does. */
  lemma LeadKeepsAbsent(lead: string, body: string, before: string, p: string)
    requires |p| == 3 && p[0] != '，' && p[1] != '，'
    requires |lead| > 0 && lead[|lead| - 1] == '，' && !Contains(lead, p)
    requires !Contains(before + body, p)
    ensures !Contains(lead + body, p)
    ensures OpensWith1(lead + body, p) ==> OpensWith1(before + body, p)
    ensures OpensWith2(lead + body, p) ==> OpensWith2(before + body, p)
  {
    AbsentParts(before, body, p);
    ConcatAbsent(lead, body, p);
    OpeningsOfConcat(lead, body, before, p);
  }

  /** Text followed by a sentence is the text and the sentence's front,
      followed by the sentence's last `n` characters. */
  lemma SplitBeforeSuffix(q: string, seg: string, n: nat)
    requires n <= |seg|
    ensures q + seg == (q + seg[..|seg| - n]) + seg[|seg| - n..]
  {
    assert seg == seg[..|seg| - n] + seg[|seg| - n..];
  }

  /** The same for a suffix `body` of a sentence `seg` after any `q`. */
  lemma TouchKeepsAbsent(lead: string, body: string, seg: string, q: string, p: string)
    requires |p| == 3 && p[0] != '，' && p[1] != '，'
    requires |lead| > 0 && lead[|lead| - 1] == '，' && !Contains(lead, p)
    requires |body| <= |seg| && body == seg[|seg| - |body|..]
    requires !Contains(q + seg, p)
    ensures !Contains(lead + body, p)
    ensures OpensWith1(lead + body, p) ==> OpensWith1(q + seg, p)
    ensures OpensWith2(lead + body, p) ==> OpensWith2(q + seg, p)
  {
    var before := q + seg[..|seg| - |body|];
    SplitBeforeSuffix(q, seg, |body|);
    LeadKeepsAbsent(lead, body, before, p);
  }

  /** Text ending in a terminator, followed by a touched sentence: no new
      connective pattern, and the touched sentence's own openings. */
  lemma TouchedKeepsAbsent(a: string, lead: string, seg: string, q: string, p: string)
    requires |p| == 3 && p[0] != '，' && p[1] != '，' && !IsTerminator(p[0]) && !IsTerminator(p[1])
    requires |a| > 0 && IsTerminator(a[|a| - 1])
    requires |lead| >= 2 && lead[|lead| - 1] == '，' && !Contains(lead, p)
    requires !Contains(a, p) && !Contains(q + seg, p)
    ensures var t := a + (lead + LStrip(seg));
      && !Contains(t, p)
      && (OpensWith1(t, p) ==> OpensWith1(q + seg, p))
      && (OpensWith2(t, p) ==> OpensWith2(q + seg, p))
  {
    var body := LStrip(seg);
    var touched := lead + body;
    TouchKeepsAbsent(lead, body, seg, q, p);
    ConcatAbsent(a, touched, p);
    OpeningsOfLongSuffix(a, touched, p);
  }

  /** Text followed by an unchanged segment: no new connective pattern, and
      the openings of the original text followed by that segment. */
  lemma KeptKeepsAbsent(a: string, seg: string, q: string, p: string)
    requires |p| == 3
    requires !Contains(a, p) && !Contains(q + seg, p)
    requires OpensWith1(a, p) ==> OpensWith1(q, p)
    requires OpensWith2(a, p) ==> OpensWith2(q, p)
    ensures !Contains(a + seg, p)
    ensures OpensWith1(a + seg, p) ==> OpensWith1(q + seg, p)
    ensures OpensWith2(a + seg, p) ==> OpensWith2(q + seg, p)
  {
    ConcatKeepsAbsent(a, seg, q, p);
    OpeningsOfConcat(a, seg, q, p);
  }

  /** At an odd position of an alternating split sits a terminator, which
      the loop treats as punctuation. */
  lemma OddPosition(parts: seq<string>, i: nat)
    requires i < |parts| && Alternates(parts)
    ensures i % 2 == 1 ==> IsTerminatorSegment(parts[i]) && IsPunctuation(parts[i])
  {
    if i % 2 == 1 {
      TerminatorIsPunctuation(parts[i]);
    }
  }

  /** A segment the loop changes is a touchable body and a firing draw's
      lead-in, comma and stripped segment. */
  lemma ChangedByDraw(i: nat, seg: string, oracle: nat -> Draw)
    requires ProcessSegment(i, seg, oracle) != seg
    ensures !IsPunctuation(seg) && Touchable(i, seg) && oracle(i).Fire?
    ensures ProcessSegment(i, seg, oracle) == CasualPrefixes[oracle(i).prefix] + "，" + LStrip(seg)
  {
  }

  /** A segment the walk changes is a body after a terminator, touched by a
      firing draw. */
  lemma ChangedSegment(parts: seq<string>, oracle: nat -> Draw, m: nat)
    requires m < |parts| && Alternates(parts)
    requires ProcessSegment(m, parts[m], oracle) != parts[m]
    ensures m > 0 && oracle(m).Fire?
    ensures ProcessSegment(m, parts[m], oracle)
            == CasualPrefixes[oracle(m).prefix] + "，" + LStrip(parts[m])
    ensures var a := Join(ProcessUpTo(parts, oracle, m));
      |a| > 0 && IsTerminator(a[|a| - 1])
  {
    ChangedByDraw(m, parts[m], oracle);
    OddPosition(parts, m);
    assert (m - 1) % 2 == 1;
    OddPosition(parts, m - 1);
    var prev := ProcessUpTo(parts, oracle, m - 1);
    var stop := parts[m - 1];
    assert ProcessUpTo(parts, oracle, m) == prev + [stop];
    JoinSnoc(prev, stop);
    var a := Join(prev) + stop;
    assert a[|a| - 1] == stop[0];
  }

  /** Output text `a`, standing for original text `q`, followed by a
      segment kept as it was or touched with the `k`-th lead-in after a
      terminator: no new connective pattern, and openings only where `q`
      followed by the original segment has them. */
  lemma SegmentKeepsAbsent(a: string, q: string, orig: string, seg: string, k: PrefixIndex, p: string)
    requires ConnectivePattern(p)
    requires !Contains(a, p) && !Contains(q + orig, p)
    requires OpensWith1(a, p) ==> OpensWith1(q, p)
    requires OpensWith2(a, p) ==> OpensWith2(q, p)
    requires || seg == orig
             || (|a| > 0 && IsTerminator(a[|a| - 1]) && seg == CasualPrefixes[k] + "，" + LStrip(orig))
    ensures !Contains(a + seg, p)
    ensures OpensWith1(a + seg, p) ==> OpensWith1(q + orig, p)
    ensures OpensWith2(a + seg, p) ==> OpensWith2(q + orig, p)
  {
    if seg == orig {
      KeptKeepsAbsent(a, orig, q, p);
    } else {
      var lead := CasualPrefixes[k] + "，";
      assert seg == lead + LStrip(orig);
      LeadInInert(k, p);
      TouchedKeepsAbsent(a, lead, orig, q, p);
    }
  }

  /** One more segment appends its treatment to the output and itself to
      the original. */
  lemma StepJoins(parts: seq<string>, oracle: nat -> Draw, m: nat)
    requires m < |parts|
    ensures Join(ProcessUpTo(parts, oracle, m + 1))
            == Join(ProcessUpTo(parts, oracle, m)) + ProcessSegment(m, parts[m], oracle)
    ensures Join(parts[..m + 1]) == Join(parts[..m]) + parts[m]
  {
    JoinSnoc(ProcessUpTo(parts, oracle, m), ProcessSegment(m, parts[m], oracle));
    assert parts[..m + 1] == parts[..m] + [parts[m]];
    JoinSnoc(parts[..m], parts[m]);
  }

  /** The segment at `m` is kept, or touched after output ending in a
      terminator. */
  lemma StepSegment(parts: seq<string>, oracle: nat -> Draw, m: nat)
    requires m < |parts| && Alternates(parts)
    ensures var seg := ProcessSegment(m, parts[m], oracle);
      var a := Join(ProcessUpTo(parts, oracle, m));
      var k: PrefixIndex := if oracle(m).Fire? then oracle(m).prefix else 0;
      || seg == parts[m]
      || (|a| > 0 && IsTerminator(a[|a| - 1]) && seg == CasualPrefixes[k] + "，" + LStrip(parts[m]))
  {
    if ProcessSegment(m, parts[m], oracle) != parts[m] {
      ChangedSegment(parts, oracle, m);
    }
  }

  /** One step of the walk: the segment at `m` keeps the invariant. */
  lemma WalkStep(parts: seq<string>, oracle: nat -> Draw, m: nat, p: string)
    requires m < |parts| && Alternates(parts) && ConnectivePattern(p)
    requires !Contains(Join(parts[..m + 1]), p)
    requires var out := Join(ProcessUpTo(parts, oracle, m));
      var orig := Join(parts[..m]);
      && !Contains(out, p)
      && (OpensWith1(out, p) ==> OpensWith1(orig, p))
      && (OpensWith2(out, p) ==> OpensWith2(orig, p))
    ensures var out := Join(ProcessUpTo(parts, oracle, m + 1));
      var orig := Join(parts[..m + 1]);
      && !Contains(out, p)
      && (OpensWith1(out, p) ==> OpensWith1(orig, p))
      && (OpensWith2(out, p) ==> OpensWith2(orig, p))
  {
    var seg := ProcessSegment(m, parts[m], oracle);
    var a := Join(ProcessUpTo(parts, oracle, m));
    var q := Join(parts[..m]);
    var k: PrefixIndex := if oracle(m).Fire? then oracle(m).prefix else 0;
    StepJoins(parts, oracle, m);
    StepSegment(parts, oracle, m);
    SegmentKeepsAbsent(a, q, parts[m], seg, k, p);
  }

  /** Walking the split parts creates no connective pattern that the joined
      parts lack, and leaves an opening at the end only where they have one. */
  lemma {:induction false} WalkKeepsAbsent(parts: seq<string>, oracle: nat -> Draw, n: nat, p: string)
    requires n <= |parts| && Alternates(parts) && ConnectivePattern(p)
    requires !Contains(Join(parts[..n]), p)
    ensures var out := Join(ProcessUpTo(parts, oracle, n));
      var orig := Join(parts[..n]);
      && !Contains(out, p)
      && (OpensWith1(out, p) ==> OpensWith1(orig, p))
      && (OpensWith2(out, p) ==> OpensWith2(orig, p))
    decreases n
  {
    if n > 0 {
      var q := Join(parts[..n - 1]);
      assert parts[..n] == parts[..n - 1] + [parts[n - 1]];
      JoinSnoc(parts[..n - 1], parts[n - 1]);
      if Contains(q, p) {
        ContainsExtend(q, parts[n - 1], p);
      }
      WalkKeepsAbsent(parts, oracle, n - 1, p);
      WalkStep(parts, oracle, n - 1, p);
    }
  }

  /** The three connective patterns meet the conditions of the walk. */
  lemma ConnectivePatterns()
    ensures ConnectivePattern("此外，") && ConnectivePattern("然而，") && ConnectivePattern("因此，")
  {
  }

  /** The medium tier's connective rewrites never change the text, whatever
      the casual touch draws: the light output holds no `此外，`, `然而，` or
      `因此，`, and no lead-in, comma or stripped sentence can form one. */
  lemma MediumConnectiveRewritesInert(text: string, oracle: nat -> Draw)
    ensures var parts := SplitKeep(LightTier(text));
      MediumTier(text, oracle) == Join(ProcessUpTo(parts, oracle, |parts|))
  {
    var light := LightTier(text);
    var parts := SplitKeep(light);
    SplitShape(light);
    SplitJoinRoundTrip(light);
    assert parts[..|parts|] == parts;
    LightCommaRewritesInert(text);
    NoThereforeComma(text);
    NoBesidesComma(text);
    NoHoweverComma(text);
    ConnectivePatterns();
    WalkKeepsAbsent(parts, oracle, |parts|, "此外，");
    WalkKeepsAbsent(parts, oracle, |parts|, "然而，");
    WalkKeepsAbsent(parts, oracle, |parts|, "因此，");
    var s := Join(ProcessUpTo(parts, oracle, |parts|));
    ReplaceAbsent(s, "此外，", "还有，");
    ReplaceAbsent(s, "然而，", "但是，");
    ReplaceAbsent(s, "因此，", "所以，");
  }
}
