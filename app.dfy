/**
 * The Streamlit front end (frontend/app.py): the chat history kept in the
 * session, the bounded context window sent with every question, the request
 * payload, the steps that append to the history, and the two translation
 * dispatchers. Widgets, HTTP and text-to-speech are not modelled; the backend's
 * JSON replies are plain dictionaries handed in by the caller.
 */
module App {
  import opened Builtins

  datatype Role = User | Assistant

  /** One `(role, text)` tuple of `st.session_state.messages`. */
  datatype Message = Message(role: Role, text: string)

  /** A decoded JSON reply from the backend, e.g. `{"answer": "..."}`. */
  type Reply = map<string, string>

  /** The form fields posted to `/ask`. */
  datatype Payload = Payload(question: string, context: string, tone: string, simplify: bool)

  const NoResponse: string := "❌ No response"
  const ReportHeading: string := "📘 Extracted Report:\n\n"
  const ReportEllipsis: string := "..."
  /** How many characters of an extracted report are shown. */
  const ReportLimit: nat := 800
  /** How many question/answer pairs the context window keeps. */
  const ContextPairs: nat := 3
  const PairSeparator: string := "\n\n"

  // ---------------------------------------------------------------------------
  // Pending turn and context window

  /** The guard of the answer step: the list is not empty and its last message
      is not an assistant's, so it is a question with no answer yet. */
  function Pending(msgs: seq<Message>): (b: bool)
    ensures b ==> msgs != []
    ensures b <==> msgs != [] && msgs[|msgs| - 1].role != Assistant
  {
    |msgs| > 0 && msgs[|msgs| - 1].role == User
  }

  /** Messages `i` and `i + 1` are a question and the answer to it. */
  predicate IsPairAt(msgs: seq<Message>, i: nat)
    requires i + 1 < |msgs|
  {
    msgs[i].role == User && msgs[i + 1].role == Assistant
  }

  /** The length of `range(len(messages) - 2)`. */
  function Span(msgs: seq<Message>): nat
  {
    if |msgs| >= 2 then |msgs| - 2 else 0
  }

  /** The indices `i < n` at which a question/answer pair starts, in order. */
  function PairIndices(msgs: seq<Message>, n: nat): (idx: seq<nat>)
    requires n == 0 || n < |msgs|
    ensures |idx| <= n
    ensures forall k :: 0 <= k < |idx| ==> idx[k] < n
    decreases n
  {
    if n == 0 then []
    else PairIndices(msgs, n - 1) + (if IsPairAt(msgs, n - 1) then [n - 1] else [])
  }

  /** The pair indices are exactly the positions below `n` where a question is
      followed by its answer, in increasing (conversation) order. */
  lemma {:induction false} PairIndicesExact(msgs: seq<Message>, n: nat)
    requires n == 0 || n < |msgs|
    ensures var idx := PairIndices(msgs, n);
            && (forall k :: 0 <= k < |idx| ==> IsPairAt(msgs, idx[k]))
            && (forall k, l :: 0 <= k < l < |idx| ==> idx[k] < idx[l])
            && (forall i :: 0 <= i < n ==> (IsPairAt(msgs, i) <==> i in idx))
    decreases n
  {
    if n > 0 {
      PairIndicesExact(msgs, n - 1);
    }
  }

  /** One pair as the model sees it. */
  function Exchange(question: string, answer: string): string
  {
    "User: " + question + "\nAssistant: " + answer
  }

  /** The `history` list comprehension: every question/answer pair that starts
      before index `len(messages) - 2`, rendered, in conversation order. */
  function History(msgs: seq<Message>): (h: seq<string>)
    ensures |h| == |PairIndices(msgs, Span(msgs))|
    ensures |h| <= Span(msgs)
    ensures |msgs| < 3 ==> h == []
  {
    var idx := PairIndices(msgs, Span(msgs));
    seq(|idx|, k requires 0 <= k < |idx| => Exchange(msgs[idx[k]].text, msgs[idx[k] + 1].text))
  }

  /** `"\n\n".join(history[-3:])`: the last three history entries, or all of
      them when there are fewer, oldest first. */
  function ContextWindow(msgs: seq<Message>): (c: string)
    ensures var h := History(msgs); c == Join(PairSeparator, h[|h| - Min(ContextPairs, |h|)..])
    ensures |msgs| < 3 ==> c == ""
  {
    Join(PairSeparator, TakeLast(History(msgs), ContextPairs))
  }

  /** Every entry of the history is a real pair that ends before the last
      message, so the pending question is never part of its own context. */
  lemma HistoryEntries(msgs: seq<Message>, k: nat)
    requires k < |History(msgs)|
    ensures exists i :: 0 <= i && i + 2 < |msgs| && IsPairAt(msgs, i) &&
                        History(msgs)[k] == Exchange(msgs[i].text, msgs[i + 1].text)
  {
    var idx := PairIndices(msgs, Span(msgs));
    PairIndicesExact(msgs, Span(msgs));
    var i := idx[k];
    assert i + 2 < |msgs| && IsPairAt(msgs, i);
    assert History(msgs)[k] == Exchange(msgs[i].text, msgs[i + 1].text);
  }

  /** Pair indices up to `n` look only at messages `0..n`. */
  lemma {:induction false} PairIndicesAgree(m1: seq<Message>, m2: seq<Message>, n: nat)
    requires n == 0 || (n < |m1| && n < |m2| && forall i :: 0 <= i <= n ==> m1[i] == m2[i])
    ensures PairIndices(m1, n) == PairIndices(m2, n)
    decreases n
  {
    if n > 0 {
      PairIndicesAgree(m1, m2, n - 1);
      assert m1[n - 1] == m2[n - 1] && m1[n] == m2[n];
    }
  }

  /** The context depends only on the messages before the last one: replacing
      the pending message (its text or even its role) leaves it unchanged. */
  lemma ContextIgnoresLastMessage(m1: seq<Message>, m2: seq<Message>)
    requires |m1| == |m2| > 0
    requires m1[..|m1| - 1] == m2[..|m2| - 1]
    ensures History(m1) == History(m2)
    ensures ContextWindow(m1) == ContextWindow(m2)
  {
    var n := Span(m1);
    forall i | 0 <= i < |m1| - 1
      ensures m1[i] == m2[i]
    {
      assert m1[i] == m1[..|m1| - 1][i];
    }
    PairIndicesAgree(m1, m2, n);
    var idx := PairIndices(m1, n);
    forall k | 0 <= k < |idx|
      ensures History(m1)[k] == History(m2)[k]
    {
      assert idx[k] + 1 <= n;
    }
  }

  /** A history made only of answered questions, `(question, answer)` each. */
  function Transcript(pairs: seq<(string, string)>): (msgs: seq<Message>)
    ensures |msgs| == 2 * |pairs|
  {
    seq(2 * |pairs|, i requires 0 <= i < 2 * |pairs| =>
      if i % 2 == 0 then Message(User, pairs[i / 2].0) else Message(Assistant, pairs[i / 2].1))
  }

  function Rendered(pairs: seq<(string, string)>): (r: seq<string>)
    ensures |r| == |pairs|
  {
    seq(|pairs|, j requires 0 <= j < |pairs| => Exchange(pairs[j].0, pairs[j].1))
  }

  /** In an alternating history every even index starts a pair. */
  lemma {:induction false} TranscriptPairIndices(pairs: seq<(string, string)>, q: string, n: nat)
    requires n == 0 || n < 2 * |pairs|
    ensures PairIndices(Transcript(pairs) + [Message(User, q)], n) == seq((n + 1) / 2, j => 2 * j)
    decreases n
  {
    var msgs := Transcript(pairs) + [Message(User, q)];
    if n > 0 {
      TranscriptPairIndices(pairs, q, n - 1);
      var before := seq(n / 2, j => 2 * j);
      if (n - 1) % 2 == 0 {
        assert msgs[n - 1].role == User && msgs[n].role == Assistant;
        assert seq((n + 1) / 2, j => 2 * j) == before + [n - 1];
      } else {
        assert msgs[n - 1].role == Assistant;
        assert seq((n + 1) / 2, j => 2 * j) == before;
      }
    }
  }

  lemma TranscriptAt(pairs: seq<(string, string)>, k: nat)
    requires k < |pairs|
    ensures Transcript(pairs)[2 * k] == Message(User, pairs[k].0)
    ensures Transcript(pairs)[2 * k + 1] == Message(Assistant, pairs[k].1)
  {
    assert (2 * k) / 2 == k && (2 * k) % 2 == 0;
    assert (2 * k + 1) / 2 == k && (2 * k + 1) % 2 == 1;
  }

  /** After answered questions and one new question, the history is exactly
      those exchanges, in order. */
  lemma HistoryOfTranscript(pairs: seq<(string, string)>, q: string)
    ensures History(Transcript(pairs) + [Message(User, q)]) == Rendered(pairs)
  {
    var msgs := Transcript(pairs) + [Message(User, q)];
    var n := Span(msgs);
    TranscriptPairIndices(pairs, q, n);
    assert (n + 1) / 2 == |pairs|;
    var idx := PairIndices(msgs, n);
    assert |idx| == |pairs|;
    forall k | 0 <= k < |pairs|
      ensures History(msgs)[k] == Rendered(pairs)[k]
    {
      assert idx[k] == 2 * k;
      TranscriptAt(pairs, k);
      assert msgs[2 * k] == Transcript(pairs)[2 * k];
      assert msgs[2 * k + 1] == Transcript(pairs)[2 * k + 1];
    }
  }

  /** After `k` answered questions and one new question, the context holds the
      last three of those `k` exchanges (all of them when `k <= 3`), oldest first. */
  lemma ContextOfTranscript(pairs: seq<(string, string)>, q: string)
    ensures ContextWindow(Transcript(pairs) + [Message(User, q)])
            == Join(PairSeparator, Rendered(pairs)[|pairs| - Min(ContextPairs, |pairs|)..])
  {
    HistoryOfTranscript(pairs, q);
  }

  /** Appending the answer to the pending question adds it to the end of the
      history: from the next question on, the context ends with this exchange. */
  lemma AnsweredQuestionJoinsHistory(msgs: seq<Message>, answer: string, next: Message)
    requires Pending(msgs)
    ensures History(msgs + [Message(Assistant, answer)] + [next])
            == History(msgs) + [Exchange(msgs[|msgs| - 1].text, answer)]
  {
    var grown := msgs + [Message(Assistant, answer)] + [next];
    var m := |msgs| - 1;
    AnsweredIndices(msgs, answer, next);
    var idx := PairIndices(msgs, Span(msgs));
    var idx2 := PairIndices(grown, Span(grown));
    assert Span(grown) == |msgs|;
    assert idx2 == idx + [m];
    forall k | 0 <= k < |idx|
      ensures History(grown)[k] == History(msgs)[k]
    {
      assert idx2[k] == idx[k];
      assert grown[idx[k]] == msgs[idx[k]] && grown[idx[k] + 1] == msgs[idx[k] + 1];
    }
    assert idx2[|idx|] == m;
    assert History(grown)[|idx|] == Exchange(grown[m].text, grown[m + 1].text);
  }

  /** While the history holds fewer than three entries, answering the pending
      question extends the next context by exactly that exchange, after one
      separator. */
  lemma ContextGrowsWithAnswer(msgs: seq<Message>, answer: string, next: Message)
    requires Pending(msgs) && |History(msgs)| < ContextPairs
    ensures var e := Exchange(msgs[|msgs| - 1].text, answer);
            ContextWindow(msgs + [Message(Assistant, answer)] + [next])
            == if History(msgs) == [] then e else ContextWindow(msgs) + PairSeparator + e
  {
    var grown := msgs + [Message(Assistant, answer)] + [next];
    var h := History(msgs);
    var e := Exchange(msgs[|msgs| - 1].text, answer);
    AnsweredQuestionJoinsHistory(msgs, answer, next);
    assert History(grown) == h + [e];
    assert TakeLast(History(grown), ContextPairs) == h + [e];
    assert TakeLast(h, ContextPairs) == h;
    if h != [] {
      JoinSnoc(PairSeparator, h, e);
    }
  }

  /** The pair indices of the answered history: the old ones, then the pending
      question's index. */
  lemma AnsweredIndices(msgs: seq<Message>, answer: string, next: Message)
    requires Pending(msgs)
    ensures PairIndices(msgs + [Message(Assistant, answer)] + [next], |msgs|)
            == PairIndices(msgs, Span(msgs)) + [|msgs| - 1]
  {
    var grown := msgs + [Message(Assistant, answer)] + [next];
    var m := |msgs| - 1;
    assert grown[m] == msgs[m] && grown[m + 1] == Message(Assistant, answer);
    assert IsPairAt(grown, m);
    assert PairIndices(grown, m + 1) == PairIndices(grown, m) + [m];
    if m > 0 {
      assert !IsPairAt(grown, m - 1) by {
        assert grown[m] == msgs[m];
      }
      assert PairIndices(grown, m) == PairIndices(grown, m - 1);
      assert Span(msgs) == m - 1;
      forall i | 0 <= i <= m - 1
        ensures msgs[i] == grown[i]
      {
      }
      PairIndicesAgree(msgs, grown, m - 1);
    }
  }

  // ---------------------------------------------------------------------------
  // Values built for one step

  /** The `/ask` payload built for the pending question. */
  function Request(msgs: seq<Message>, tone: string, simplify: bool): (p: Payload)
    requires msgs != []
    ensures p.question == msgs[|msgs| - 1].text
    ensures p.context == ContextWindow(msgs)
    ensures p.tone == tone && p.simplify == simplify
  {
    Payload(msgs[|msgs| - 1].text, ContextWindow(msgs), tone, simplify)
  }

  /** The assistant message shown for an extracted PDF. */
  function ReportNotice(pdfText: string): (r: string)
    ensures |r| == |ReportHeading| + Min(ReportLimit, |pdfText|) + |ReportEllipsis|
    ensures r[..|ReportHeading|] == ReportHeading
    ensures r[|r| - |ReportEllipsis|..] == ReportEllipsis
    ensures var body := r[|ReportHeading|..|r| - |ReportEllipsis|];
            |body| <= |pdfText| && body == pdfText[..|body|]
  {
    var shown := Take(pdfText, ReportLimit);
    assert (ReportHeading + shown + ReportEllipsis)[|ReportHeading|..|ReportHeading| + |shown|] == shown;
    ReportHeading + shown + ReportEllipsis
  }

  // ---------------------------------------------------------------------------
  // The steps of one script run, on the message list

  /** What an uploaded image adds: the `analysis` field of `/analyze_image`, or `""`. */
  function ImageMessage(reply: Reply): Message
  {
    Message(Assistant, Lookup(reply, "analysis", ""))
  }

  /** What an uploaded PDF adds: the start of the `content` field of `/upload_pdf`. */
  function ReportMessage(reply: Reply): Message
  {
    Message(Assistant, ReportNotice(Lookup(reply, "content", "")))
  }

  /** What a voice transcript or a typed question adds (`None` when there is
      none): one user message, unless the text is empty. */
  function UserMessages(input: Option<string>): seq<Message>
  {
    if input.Some? && input.value != "" then [Message(User, input.value)] else []
  }

  /** The answer text for the payload: the reply's `answer`, or the fallback. */
  function AnswerText(reply: Reply): (a: string)
    ensures "answer" in reply ==> a == reply["answer"]
    ensures "answer" !in reply ==> a == NoResponse
  {
    Lookup(reply, "answer", NoResponse)
  }

  /** The message list after the answer step: when a question is pending, the
      payload goes to `ask` and its answer is appended. */
  function Answered(msgs: seq<Message>, tone: string, simplify: bool, ask: Payload -> Reply): (r: seq<Message>)
    ensures |r| == |msgs| + (if Pending(msgs) then 1 else 0)
    ensures r[..|msgs|] == msgs
    ensures !Pending(r)
  {
    if Pending(msgs) then msgs + [Message(Assistant, AnswerText(ask(Request(msgs, tone, simplify))))]
    else msgs
  }

  /** The message the answer step appends is the backend's answer to the
      payload built from the list; without a pending question the list stays. */
  lemma AnswerStep(msgs: seq<Message>, tone: string, simplify: bool, ask: Payload -> Reply)
    ensures var after := Answered(msgs, tone, simplify, ask);
            && (Pending(msgs) ==>
                  after[|msgs|] == Message(Assistant, AnswerText(ask(Request(msgs, tone, simplify)))))
            && (!Pending(msgs) ==> after == msgs)
  {
  }

  /** The inputs of one run of the script. Each is `None` when absent; the
      uploads carry the backend's reply. */
  datatype RunInputs = RunInputs(image: Option<Reply>, report: Option<Reply>,
                                 voice: Option<string>, typed: Option<string>,
                                 tone: string, simplify: bool)

  /** The messages one run adds before the answer step, in script order:
      image, PDF, voice, typed question. */
  function Inputs(run: RunInputs): seq<Message>
  {
    (if run.image.Some? then [ImageMessage(run.image.value)] else [])
    + (if run.report.Some? then [ReportMessage(run.report.value)] else [])
    + UserMessages(run.voice) + UserMessages(run.typed)
  }

  /** The message list after one run of the script. */
  function AfterRun(msgs: seq<Message>, run: RunInputs, ask: Payload -> Reply): seq<Message>
  {
    Answered(msgs + Inputs(run), run.tone, run.simplify, ask)
  }

  /** A run only appends, at most five messages, and leaves nothing pending. */
  lemma RunOnlyAppends(msgs: seq<Message>, run: RunInputs, ask: Payload -> Reply)
    ensures var after := AfterRun(msgs, run, ask);
            |msgs| <= |after| <= |msgs| + 5 && after[..|msgs|] == msgs && !Pending(after)
  {
    var added := Inputs(run);
    assert |added| <= 4;
    var asked := msgs + added;
    var after := Answered(asked, run.tone, run.simplify, ask);
    assert after[..|asked|] == asked;
    PrefixOfPrefix(after, asked, msgs);
  }

  lemma PrefixOfPrefix(a: seq<Message>, b: seq<Message>, c: seq<Message>)
    requires |b| <= |a| && a[..|b|] == b && |c| <= |b| && b[..|c|] == c
    ensures a[..|c|] == c
  {
    assert a[..|c|] == a[..|b|][..|c|];
  }

  /** A typed question is answered in the same run: the run ends with the
      question and the answer to it, and the payload carries that question. */
  lemma RunAnswersTypedQuestion(msgs: seq<Message>, run: RunInputs, ask: Payload -> Reply)
    requires run.typed.Some? && run.typed.value != ""
    ensures var asked := msgs + Inputs(run);
            var after := AfterRun(msgs, run, ask);
            && Pending(asked)
            && Request(asked, run.tone, run.simplify).question == run.typed.value
            && |after| >= 2
            && after[|after| - 2] == Message(User, run.typed.value)
            && after[|after| - 1] == Message(Assistant, AnswerText(ask(Request(asked, run.tone, run.simplify))))
  {
    var asked := msgs + Inputs(run);
    assert asked[|asked| - 1] == Message(User, run.typed.value);
    AnswerStep(asked, run.tone, run.simplify, ask);
  }

  /** A run with no input does nothing when no question was pending. */
  lemma IdleRunChangesNothing(msgs: seq<Message>, run: RunInputs, ask: Payload -> Reply)
    requires run.image.None? && run.report.None? && run.voice.None? && run.typed.None?
    requires !Pending(msgs)
    ensures AfterRun(msgs, run, ask) == msgs
  {
    assert Inputs(run) == [];
    assert msgs + [] == msgs;
  }

  // ---------------------------------------------------------------------------
  // The session

  /** `st.session_state` as far as the chat goes: the message list, appended to
      in place by each step of a script run. */
  class Session {
    var messages: seq<Message>

    /** First run of the script in a session: `messages = []`. */
    constructor ()
      ensures messages == []
    {
      messages := [];
    }

    method AddImageAnalysis(reply: Reply)
      modifies this
      ensures messages == old(messages) + [ImageMessage(reply)]
    {
      var result := Lookup(reply, "analysis", "");
      messages := messages + [Message(Assistant, result)];
    }

    method AddReport(reply: Reply)
      modifies this
      ensures messages == old(messages) + [ReportMessage(reply)]
    {
      var pdfText := Lookup(reply, "content", "");
      messages := messages + [Message(Assistant, ReportNotice(pdfText))];
    }

    method AddUserText(input: Option<string>)
      modifies this
      ensures messages == old(messages) + UserMessages(input)
    {
      if input.Some? && input.value != "" {
        messages := messages + [Message(User, input.value)];
      }
    }

    /** Answers the pending question, if there is one, and returns the payload
        that was posted. */
    method AnswerPending(tone: string, simplify: bool, ask: Payload -> Reply) returns (sent: Option<Payload>)
      modifies this
      ensures messages == Answered(old(messages), tone, simplify, ask)
      ensures sent == if old(Pending(messages)) then Some(Request(old(messages), tone, simplify)) else None
    {
      if Pending(messages) {
        var payload := Request(messages, tone, simplify);
        var answer := Lookup(ask(payload), "answer", NoResponse);
        messages := messages + [Message(Assistant, answer)];
        sent := Some(payload);
      } else {
        sent := None;
      }
    }

    /** One run of the script, top to bottom. */
    method Rerun(run: RunInputs, ask: Payload -> Reply)
      modifies this
      ensures messages == AfterRun(old(messages), run, ask)
    {
      if run.image.Some? {
        AddImageAnalysis(run.image.value);
      }
      if run.report.Some? {
        AddReport(run.report.value);
      }
      AddUserText(run.voice);
      AddUserText(run.typed);
      assert messages == old(messages) + Inputs(run);
      var _ := AnswerPending(run.tone, run.simplify, ask);
    }
  }

  // ---------------------------------------------------------------------------
  // Translation dispatch

  /** The source-to-English models of `translate_question`. */
  const QuestionModels: map<string, string> := map[
    "fr" := "Helsinki-NLP/opus-mt-fr-en",
    "es" := "Helsinki-NLP/opus-mt-es-en",
    "de" := "Helsinki-NLP/opus-mt-de-en",
    "hi" := "Helsinki-NLP/opus-mt-hi-en",
    "zh" := "Helsinki-NLP/opus-mt-zh-en"]

  /** The English-to-target models of `translate_answer`. */
  const AnswerModels: map<string, string> := map[
    "fr" := "Helsinki-NLP/opus-mt-en-fr",
    "es" := "Helsinki-NLP/opus-mt-en-es",
    "de" := "Helsinki-NLP/opus-mt-en-de",
    "hi" := "Helsinki-NLP/opus-mt-en-hi",
    "zh" := "Helsinki-NLP/opus-mt-en-zh"]

  /** The language codes with a translation model. */
  const Translated: set<string> := {"fr", "es", "de", "hi", "zh"}

  /** Translation by the named model (the HuggingFace pipeline), or the text
      itself when no model is configured for the code. */
  function Dispatch(models: map<string, string>, text: string, code: string,
                    translate: (string, string) -> string): string
  {
    if code == "en" then text
    else if code !in models then text
    else translate(models[code], text)
  }

  function TranslateQuestion(text: string, code: string, translate: (string, string) -> string): (r: string)
    ensures code !in Translated ==> r == text
    ensures code in Translated ==> r == translate("Helsinki-NLP/opus-mt-" + code + "-en", text)
  {
    if code in Translated then
      ModelsAreMirrored(code);
      Dispatch(QuestionModels, text, code, translate)
    else
      Dispatch(QuestionModels, text, code, translate)
  }

  function TranslateAnswer(text: string, code: string, translate: (string, string) -> string): (r: string)
    ensures code !in Translated ==> r == text
    ensures code in Translated ==> r == translate("Helsinki-NLP/opus-mt-en-" + code, text)
  {
    if code in Translated then
      ModelsAreMirrored(code);
      Dispatch(AnswerModels, text, code, translate)
    else
      Dispatch(AnswerModels, text, code, translate)
  }

  /** The two tables pair up: for every supported language the question model
      and the answer model translate in opposite directions. */
  lemma ModelsAreMirrored(code: string)
    requires code in Translated
    ensures code in QuestionModels && code in AnswerModels
    ensures QuestionModels[code] == "Helsinki-NLP/opus-mt-" + code + "-en"
    ensures AnswerModels[code] == "Helsinki-NLP/opus-mt-en-" + code
  {
  }
}
