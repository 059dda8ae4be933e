# Medical chatbot: a verified model of its own logic

The medical chatbot is a Streamlit front end and a FastAPI back end. They pass
questions, images, PDFs and voice recordings to outside services (Gemini, a
HuggingFace tagger and translators, speech recognition, gTTS, PyPDF2). This
project models in Dafny the small part of the logic that is the repository's
own, and proves properties of it.

- **Chat session** (`App`, frontend/app.py). The session's message list holds
  `(role, text)` pairs and only grows. A question is *pending* when the last
  message is a user message. The *context window* is built from adjacent
  (user, assistant) pairs that start before index `len - 2`. Only the last three
  are kept, each rendered as `"User: q\nAssistant: a"` and joined with `"\n\n"`.
  The `/ask` payload is built, and the reply's `answer` (or `"❌ No response"`) is
  appended. Image and PDF uploads append assistant messages. A voice transcript
  or typed text appends a user message, unless it is empty. One run of the
  script runs these steps in source order: image, PDF, voice, typed text, answer.
  `Session` is a class whose `messages` field the steps reassign. Each step's
  new state is a pure function of the old list (`Answered`, `AfterRun`), and the
  lemmas are stated about those functions.
- **Translation dispatch** (`App.TranslateQuestion`, `App.TranslateAnswer`). The
  text comes back unchanged for `"en"` and for any code outside the five-entry
  model table. Otherwise the named model is applied. The translator is a
  function parameter.
- **Backend helpers** (`ModelUtils`, backend/model_utils.py). `Prompt` is the
  prompt template that `ask_gemini` chooses: simple-language or tone.
  `EmojiFor` is the emoji lookup on the upper-cased entity group.
  `HighlightMedicalEntities` is the loop that, entity by entity, replaces every
  occurrence of the word with `**{emoji} {word}**`. The tagger is a function
  parameter.
- **Python built-ins** (`Builtins`). `dict.get`, slicing, `str.join`,
  `str.replace` and `str.upper`, written out with Python's semantics. That
  includes `str.replace` with an empty pattern, which inserts the replacement
  at every gap.

Strings are sequences of Unicode scalar values, as Python strings are sequences
of code points. The emojis the model uses (frontend/app.py:48 and :84,
backend/model_utils.py:36) are each a single code point, so the Dafny literals
have the same lengths as the Python ones.

## Model

| member | source | states |
|---|---|---|
| `App.Pending` | frontend/app.py:67 | the answer-step guard holds exactly when the list is non-empty and its last message is not an assistant's |
| `App.PairIndices` | frontend/app.py:71-72 | at most n pair starts, each below the bound n of `range(len(messages) - 2)` |
| `App.PairIndicesExact` | frontend/app.py:71-72 | the pair starts are exactly the positions where a user message is directly followed by an assistant message, in strictly increasing (conversation) order |
| `App.History` | frontend/app.py:69-74 | one entry per pair start, so at most `len(messages) - 2` entries, and none for fewer than three messages |
| `App.HistoryEntries` | frontend/app.py:69-74 | every history entry is `"User: q\nAssistant: a"` for a real adjacent (user, assistant) pair that ends before the last message, so the pending question is never in its own context |
| `App.ContextWindow` | frontend/app.py:69-75 | for every list, the context is the last min(3, len(history)) history entries joined with `"\n\n"`; a list of fewer than three messages gives the empty context |
| `App.ContextIgnoresLastMessage` | frontend/app.py:69-75 | history and context do not depend on the last message at all (neither its text nor its role) |
| `App.HistoryOfTranscript` | frontend/app.py:69-74 | for k answered questions followed by a new one, the history is all k exchanges, rendered, in order |
| `App.ContextOfTranscript` | frontend/app.py:69-75 | in that case the context is the last min(3, k) exchanges joined with `"\n\n"` (e.g. exchanges 3, 4, 5 of five) |
| `App.AnsweredQuestionJoinsHistory` | frontend/app.py:69-85 | once the pending question is answered and another message follows, the history is the old history plus exactly that exchange at the end |
| `App.ContextGrowsWithAnswer` | frontend/app.py:69-85 | while the history has fewer than three entries, answering the pending question extends the next context by one `"\n\n"` and that exchange (or makes it the whole context when the history was empty) |
| `App.Request` | frontend/app.py:76-82 | the payload question is the last message's text, the context is the context window, tone and simplify are copied unchanged |
| `App.ReportNotice` | frontend/app.py:47-48 | the PDF message is the heading, then a prefix of the extracted text of length min(800, len), then `"..."` |
| `App.AnswerText` | frontend/app.py:84 | the reply's `answer` field when present, otherwise `"❌ No response"` |
| `App.Answered` | frontend/app.py:67-85 | the answer step appends exactly one message when a question is pending and none otherwise, never changes earlier messages, and leaves nothing pending |
| `App.AnswerStep` | frontend/app.py:67-85 | the appended message is the assistant's answer to the payload built from the list (question, context, tone, simplify); without a pending question the list is unchanged |
| `App.RunOnlyAppends` | frontend/app.py:32-86 | a run of the script keeps the old list as a prefix, adds at most five messages and leaves nothing pending |
| `App.RunAnswersTypedQuestion` | frontend/app.py:62-86 | a non-empty typed question is pending after input, is the payload's question, and the run ends with it and its answer |
| `App.IdleRunChangesNothing` | frontend/app.py:35-67 | with no upload, no transcript, no typed text and nothing pending, a run leaves the list unchanged |
| `App.Session.constructor` | frontend/app.py:14-15 | a new session starts with an empty message list |
| `App.Session.AddImageAnalysis` | frontend/app.py:35-39 | appends one assistant message holding the reply's `analysis` field, or `""` |
| `App.Session.AddReport` | frontend/app.py:44-48 | appends one assistant message holding the report notice of the reply's `content` field, or of `""` |
| `App.Session.AddUserText` | frontend/app.py:53-64 | appends one user message when the transcript or typed text is present and non-empty, otherwise nothing |
| `App.Session.AnswerPending` | frontend/app.py:67-85 | the new list is `Answered(old list)`; it returns the posted payload exactly when a question was pending |
| `App.Session.Rerun` | frontend/app.py:32-86 | the new list is `AfterRun(old list)`: image, PDF, voice and typed inputs in script order, then the answer step |
| `App.TranslateQuestion` | frontend/app.py:88-102 | identity for `"en"` and for every code outside fr/es/de/hi/zh; otherwise the `opus-mt-<code>-en` model is applied |
| `App.TranslateAnswer` | frontend/app.py:104-118 | identity for `"en"` and for every code outside fr/es/de/hi/zh; otherwise the `opus-mt-en-<code>` model is applied |
| `App.ModelsAreMirrored` | frontend/app.py:91-113 | both tables cover the same five codes, and for each code the two models translate in opposite directions |
| `ModelUtils.Prompt` | backend/model_utils.py:16-19 | the prompt embeds the context, then the question, verbatim at fixed positions, then the instruction line, and ends with `"\n\nAnswer:"` |
| `ModelUtils.SimplePromptIgnoresTone` | backend/model_utils.py:16-17 | in simple mode the tone does not affect the prompt |
| `ModelUtils.UnknownToneIsBlank` | backend/model_utils.py:11-19 | a tone outside the table gives the tone line `"Tone: "` with nothing after it, the same prompt as the empty tone |
| `ModelUtils.TonesGiveDifferentPrompts` | backend/model_utils.py:11-19 | two different known tones give different prompts |
| `ModelUtils.SimpleModeChangesPrompt` | backend/model_utils.py:16-19 | the simple-language prompt differs from the tone prompt for the same question, context and tone |
| `ModelUtils.EmojiFor` | backend/model_utils.py:36 | the emoji is one of the four in the table, and it is 🔍 exactly when the upper-cased group is not DISEASE, SYMPTOM or MEDICATION |
| `ModelUtils.EmojiIgnoresCase` | backend/model_utils.py:34-36 | 🦠, 🤒 and 💊 are chosen exactly when the group spells DISEASE, SYMPTOM or MEDICATION in any mix of cases; 🔍 otherwise |
| `ModelUtils.Step` | backend/model_utils.py:34-37 | one loop pass changes the text exactly when the entity's word occurs in it, and never shortens it |
| `ModelUtils.Highlight` | backend/model_utils.py:33-37 | folding the passes over the entities never shortens the text, and no entities leave it unchanged |
| `ModelUtils.HighlightMedicalEntities` | backend/model_utils.py:31-38 | the loop's result is the left fold of the replacement step over the tagger's entities, in list order |
| `ModelUtils.HighlightConcat` | backend/model_utils.py:33-37 | highlighting with two lists in a row equals highlighting with their concatenation (each entity acts on the already rewritten text) |
| `ModelUtils.HighlightLast` | backend/model_utils.py:33-37 | the last entity acts on the text produced by all the earlier ones |
| `ModelUtils.HighlightNothingFound` | backend/model_utils.py:32-38 | with no entities, or none whose word occurs in the text, the text is returned unchanged |
| `ModelUtils.HighlightIdempotentWithoutEntities` | backend/model_utils.py:31-38 | a text in which none of the tagger's words occur is a fixed point, so highlighting it twice equals highlighting it once |
| `ModelUtils.RepeatedEntityIsWrappedTwice` | backend/model_utils.py:33-37 | a word reported twice is wrapped twice, `**🦠 **🦠 flu****`, because the second pass finds it inside the first marker |
| `Builtins.ReplaceUnchangedIff` | backend/model_utils.py:37 | with a replacement longer than the pattern, `str.replace` changes the text exactly when the pattern occurs in it (empty pattern included) |
| `Builtins.ReplaceAtFirstOccurrence` | backend/model_utils.py:37 | replacement scans left to right: text before the first occurrence is copied, that occurrence is replaced, and the scan resumes after it (non-overlapping) |
| `Builtins.Replace` | backend/model_utils.py:37 | the result's length grows by `len(rep) - len(pat)` per occurrence counted as `str.count` does, `len(s) + 1` gaps for the empty pattern |
| `Builtins.UpperMatchesIgnoringCase` | backend/model_utils.py:36 | with the model's ASCII `Upper`, comparing the upper-cased group with an upper-case word is a letter-by-letter comparison that ignores case |
| `Builtins.TakeLast` | frontend/app.py:75 | `history[-3:]` has min(3, len) elements, and they are the last ones |
| `Builtins.Take` | frontend/app.py:48 | `pdf_text[:800]` is the prefix of length min(800, len) |
| `Builtins.Join` | frontend/app.py:75 | `sep.join` of no parts is `""`; otherwise the result starts with the first part and ends with the last |
| `Builtins.JoinSnoc` | frontend/app.py:75 | joining one more part adds exactly one `"\n\n"` separator and then that part |

## Left out

- Streamlit rendering, page layout, widgets, spinners and the display loop
  (frontend/app.py:10-30, 57-60). The selected tone, simplify flag, uploads,
  transcript and typed text are inputs to a run (`App.RunInputs`).
- HTTP calls to the backend. Each reply is a decoded JSON dictionary
  (`App.Reply`) handed in by the caller, and `/ask` is a function parameter.
  Network errors and malformed JSON, which would abort the script run, are not
  modelled.
- Streamlit's rerun semantics. An uploader keeps its file across reruns, so the
  real app re-appends the analysis on every rerun. The model takes each run's
  uploads as given.
- `speak_text` (frontend/tts_utils.py) and `record_and_transcribe`
  (frontend/mic_utils.py). These are wrappers over gTTS and speech recognition.
  A transcript is an input.
- Gemini generation, `.strip()` of its output and `analyze_image`
  (backend/model_utils.py:20-29); the NER pipeline (backend/model_utils.py:8),
  which is the function parameter `ner`; and the HuggingFace translation
  pipelines with their `max_length=512`, which are the function parameter
  `translate`. These are foreign model calls.
- The FastAPI routes, the file writes in backend/main.py, and
  backend/pdf_utils.py. These are I/O around the helpers modelled here.
- frontend/ner_display.py. It is UI rendering through `st.markdown`, and its
  emoji keys are mis-encoded, so they never match the emojis written by
  `highlight_medical_entities`.
- Builtins.Upper: only maps ASCII letters. Python's full Unicode upper-casing
  (for example dotless `ı` to `I`) is not modelled, because the tagger's entity
  groups are ASCII tags.
- ModelUtils.EmojiFor: picks the emoji by the ASCII upper-casing only. A group
  such as `"dısease"`, which Python upper-cases to `DISEASE`, gets 🔍 in the
  model. The tagger's entity groups are ASCII tags.
- ModelUtils.EmojiIgnoresCase: the case-insensitive match is stated for ASCII
  letters only, not for Python's full `str.upper`. The tagger's entity groups
  are ASCII tags.
- Builtins.UpperMatchesIgnoringCase: holds for the model's ASCII `Upper`, not
  for Python's `s.upper()` on non-ASCII input. The tagger's entity groups are
  ASCII tags.
- Greeting short-circuiting, canned localized greetings, and translating the
  answer before it is appended. The code does none of these:
  `translate_answer` is defined and never called. The fallback answer is
  `"❌ No response"`.
