/**
 * The backend's own logic (backend/model_utils.py): the prompt that
 * `ask_gemini` sends to the language model, and `highlight_medical_entities`,
 * which wraps every entity the tagger found in bold with a category emoji.
 * The language model and the tagger are not modelled: the tagger is a
 * function parameter.
 */
module ModelUtils {
  import opened Builtins

  // ---------------------------------------------------------------------------
  // Prompt construction in ask_gemini

  const ToneMap: map<string, string> := map[
    "formal" := "Give a detailed medical explanation.",
    "friendly" := "Respond warmly and clearly.",
    "child" := "Explain like to a 10-year-old."]

  const Preamble: string := "You are a helpful multilingual medical assistant.\nContext: "
  const QuestionLabel: string := "\nQuestion: "
  const SimpleInstruction: string :=
    "Please answer in 2-4 short sentences, using very simple words, as if explaining to a young child "
    + "or someone with no medical background. Do not include technical details, long explanations, "
    + "or any greetings."
  const ToneLabel: string := "Tone: "
  const AnswerCue: string := "\n\nAnswer:"

  /** The line after the question: the simple-language request, or the tone line. */
  function Instruction(tone: string, simple: bool): string
  {
    if simple then SimpleInstruction else ToneLabel + Lookup(ToneMap, tone, "")
  }

  /** The prompt of `ask_gemini`: the context and the question verbatim, in
      that order, then the instruction, then the answer cue. */
  function Prompt(question: string, context: string, tone: string, simple: bool): (p: string)
    ensures var q := |Preamble| + |context| + |QuestionLabel|;
            && |p| == q + |question| + 1 + |Instruction(tone, simple)| + |AnswerCue|
            && p[..|Preamble|] == Preamble
            && p[|Preamble|..|Preamble| + |context|] == context
            && p[q..q + |question|] == question
            && p[q + |question| + 1..|p| - |AnswerCue|] == Instruction(tone, simple)
            && p[|p| - |AnswerCue|..] == AnswerCue
  {
    Layout(Preamble, context, QuestionLabel, question, "\n", Instruction(tone, simple), AnswerCue);
    Preamble + context + QuestionLabel + question + "\n" + Instruction(tone, simple) + AnswerCue
  }

  /** Where each of seven concatenated pieces stands. */
  lemma Layout(a: string, c: string, l: string, q: string, n: string, i: string, e: string)
    ensures var p := a + c + l + q + n + i + e;
            var at := |a| + |c| + |l|;
            && |p| == at + |q| + |n| + |i| + |e|
            && p[..|a|] == a
            && p[|a|..|a| + |c|] == c
            && p[at..at + |q|] == q
            && p[at + |q| + |n|..|p| - |e|] == i
            && p[|p| - |e|..] == e
  {
    var p := a + c + l + q + n + i + e;
    var at := |a| + |c| + |l|;
    assert forall k :: 0 <= k < |a| ==> p[k] == a[k];
    assert forall k :: 0 <= k < |c| ==> p[|a| + k] == c[k];
    assert forall k :: 0 <= k < |q| ==> p[at + k] == q[k];
    assert forall k :: 0 <= k < |i| ==> p[at + |q| + |n| + k] == i[k];
    assert forall k :: 0 <= k < |e| ==> p[|p| - |e| + k] == e[k];
  }

  /** In simple mode the tone plays no part. */
  lemma SimplePromptIgnoresTone(question: string, context: string, tone1: string, tone2: string)
    ensures Prompt(question, context, tone1, true) == Prompt(question, context, tone2, true)
  {
  }

  /** A tone outside the table gives an empty tone line, `"Tone: "` and nothing else. */
  lemma UnknownToneIsBlank(question: string, context: string, tone: string)
    requires tone !in ToneMap
    ensures Prompt(question, context, tone, false) == Prompt(question, context, "", false)
    ensures Instruction(tone, false) == ToneLabel
  {
  }

  /** Different middles between a common prefix and a common suffix give different strings. */
  lemma MiddlesDiffer(a: string, x: string, y: string, b: string)
    requires x != y
    ensures a + x + b != a + y + b
  {
    if |x| == |y| {
      var k :| 0 <= k < |x| && x[k] != y[k];
      assert (a + x + b)[|a| + k] == x[k];
      assert (a + y + b)[|a| + k] == y[k];
    } else {
      assert |a + x + b| != |a + y + b|;
    }
  }

  /** The three tones give three different prompts. */
  lemma TonesGiveDifferentPrompts(question: string, context: string, tone1: string, tone2: string)
    requires tone1 in ToneMap && tone2 in ToneMap && tone1 != tone2
    ensures Prompt(question, context, tone1, false) != Prompt(question, context, tone2, false)
  {
    var head := Preamble + context + QuestionLabel + question + "\n";
    var i1, i2 := Instruction(tone1, false), Instruction(tone2, false);
    assert i1[|ToneLabel|..] == ToneMap[tone1];
    assert i2[|ToneLabel|..] == ToneMap[tone2];
    assert ToneMap[tone1] != ToneMap[tone2];
    MiddlesDiffer(head, i1, i2, AnswerCue);
  }

  /** The simple-language prompt differs from every tone prompt. */
  lemma SimpleModeChangesPrompt(question: string, context: string, tone: string)
    ensures Prompt(question, context, tone, true) != Prompt(question, context, tone, false)
  {
    assert |Instruction(tone, false)| < |SimpleInstruction|;
  }

  // ---------------------------------------------------------------------------
  // Entity highlighting

  /** One entity reported by the tagger: its `entity_group` and its `word`. */
  datatype Entity = Entity(group: string, word: string)

  /** The emoji per category, keyed on the upper-cased group. */
  const Emojis: map<string, string> := map["DISEASE" := "🦠", "SYMPTOM" := "🤒", "MEDICATION" := "💊"]
  const DefaultEmoji: string := "🔍"

  /** `{...}.get(group.upper(), "🔍")` */
  function EmojiFor(group: string): (e: string)
    ensures e in {"🦠", "🤒", "💊", "🔍"}
    ensures e == DefaultEmoji <==> Upper(group) !in Emojis
  {
    Lookup(Emojis, Upper(group), DefaultEmoji)
  }

  /** The category is recognised whatever the case of its letters. */
  lemma EmojiIgnoresCase(group: string)
    ensures EmojiFor(group) == "🦠" <==> SameIgnoringCase(group, "DISEASE")
    ensures EmojiFor(group) == "🤒" <==> SameIgnoringCase(group, "SYMPTOM")
    ensures EmojiFor(group) == "💊" <==> SameIgnoringCase(group, "MEDICATION")
    ensures EmojiFor(group) == "🔍" <==>
              !SameIgnoringCase(group, "DISEASE") && !SameIgnoringCase(group, "SYMPTOM") &&
              !SameIgnoringCase(group, "MEDICATION")
  {
    UpperMatchesIgnoringCase(group, "DISEASE");
    UpperMatchesIgnoringCase(group, "SYMPTOM");
    UpperMatchesIgnoringCase(group, "MEDICATION");
  }

  /** `f"**{emoji} {word}**"` */
  function Marked(emoji: string, word: string): (m: string)
    ensures |m| > |word|
  {
    "**" + emoji + " " + word + "**"
  }

  /** One pass of the loop: every occurrence of the entity's word is marked. */
  function Step(text: string, e: Entity): (r: string)
    ensures r == text <==> !Occurs(e.word, text)
    ensures |r| >= |text|
  {
    var rep := Marked(EmojiFor(e.group), e.word);
    ReplaceUnchangedIff(text, e.word, rep);
    NonNegativeGrowth(Count(text, e.word), |rep| - |e.word|);
    Replace(text, e.word, rep)
  }

  lemma NonNegativeGrowth(c: nat, d: int)
    requires d > 0
    ensures c * d >= 0
  {
  }

  /** The entities applied one after another, each to the text the earlier
      ones produced. */
  function Highlight(text: string, entities: seq<Entity>): (r: string)
    ensures |r| >= |text|
    ensures entities == [] ==> r == text
    decreases |entities|
  {
    if entities == [] then text else Highlight(Step(text, entities[0]), entities[1..])
  }

  /** `highlight_medical_entities`, with `ner` standing for the tagger. */
  method HighlightMedicalEntities(text: string, ner: string -> seq<Entity>) returns (r: string)
    ensures r == Highlight(text, ner(text))
  {
    var entities := ner(text);
    r := text;
    for i := 0 to |entities|
      invariant Highlight(r, entities[i..]) == Highlight(text, entities)
    {
      assert entities[i..][1..] == entities[i + 1..];
      r := Step(r, entities[i]);
    }
  }

  /** Highlighting with two lists in a row is highlighting with their concatenation. */
  lemma {:induction false} HighlightConcat(text: string, first: seq<Entity>, second: seq<Entity>)
    ensures Highlight(text, first + second) == Highlight(Highlight(text, first), second)
    decreases |first|
  {
    if first != [] {
      assert (first + second)[0] == first[0];
      assert (first + second)[1..] == first[1..] + second;
      HighlightConcat(Step(text, first[0]), first[1..], second);
    } else {
      assert first + second == second;
    }
  }

  /** The last entity acts on the text all the earlier ones left behind. */
  lemma HighlightLast(text: string, entities: seq<Entity>, e: Entity)
    ensures Highlight(text, entities + [e]) == Step(Highlight(text, entities), e)
  {
    HighlightConcat(text, entities, [e]);
  }

  /** When none of the entity words occurs in the text, the text comes back unchanged. */
  lemma {:induction false} HighlightNothingFound(text: string, entities: seq<Entity>)
    requires forall k :: 0 <= k < |entities| ==> !Occurs(entities[k].word, text)
    ensures Highlight(text, entities) == text
    decreases |entities|
  {
    if entities != [] {
      assert Step(text, entities[0]) == text;
      HighlightNothingFound(text, entities[1..]);
    }
  }

  /** A text in which the tagger's words do not occur is a fixed point:
      highlighting it twice is highlighting it once. */
  lemma HighlightIdempotentWithoutEntities(text: string, ner: string -> seq<Entity>)
    requires forall k :: 0 <= k < |ner(text)| ==> !Occurs(ner(text)[k].word, text)
    ensures Highlight(text, ner(text)) == text
    ensures var once := Highlight(text, ner(text)); Highlight(once, ner(once)) == once
  {
    HighlightNothingFound(text, ner(text));
  }

  /** Substitution is textual, so a word the tagger reports twice is wrapped
      twice: the second pass finds it again inside the first marker. */
  lemma RepeatedEntityIsWrappedTwice()
    ensures var flu := Entity("DISEASE", "flu");
            Highlight("flu", [flu, flu]) == "**🦠 " + Marked("🦠", "flu") + "**"
  {
    var flu := Entity("DISEASE", "flu");
    var marked := Marked("🦠", "flu");
    FirstPass();
    SecondPass();
    assert [flu, flu][1..] == [flu] && [flu][1..] == [];
    assert Highlight("flu", [flu, flu]) == Highlight(marked, [flu]);
    assert Highlight(marked, [flu]) == Highlight("**🦠 " + marked + "**", []);
  }

  lemma FluIsDisease()
    ensures EmojiFor("DISEASE") == "🦠"
  {
    UpperMatchesIgnoringCase("DISEASE", "DISEASE");
  }

  lemma FirstPass()
    ensures Step("flu", Entity("DISEASE", "flu")) == Marked("🦠", "flu")
  {
    FluIsDisease();
    ReplaceAtFirstOccurrence("flu", "flu", Marked("🦠", "flu"), 0);
  }

  lemma SecondPass()
    ensures var marked := Marked("🦠", "flu");
            Step(marked, Entity("DISEASE", "flu")) == "**🦠 " + marked + "**"
  {
    FluIsDisease();
    var marked := Marked("🦠", "flu");
    assert marked == "**🦠 flu**";
    forall j | 0 <= j < 4
      ensures !OccursAt("flu", marked, j)
    {
      assert marked[j] != 'f';
    }
    assert OccursAt("flu", marked, 4);
    ReplaceAtFirstOccurrence(marked, "flu", marked, 4);
    assert marked[..4] == "**🦠 " && marked[7..] == "**";
    assert Replace("**", "flu", marked) == "**";
  }
}
