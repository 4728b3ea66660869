# Response handling of the Qwen chat front end

This project models the logic of the Streamlit chat front end
(`mlxm-qwen5bmodel/frontend/streamlit-app.py`) for a locally served Qwen
model, and proves properties of that model in Dafny. The model covers three
parts:

- **Stream-line decoding.** One transport line becomes at most one text chunk:
  - an optional `data:` prefix is removed and the rest stripped;
  - the `[DONE]` sentinel is dropped;
  - the line is decoded as JSON, and a line that does not decode is kept as
    literal text;
  - a decoded value is probed for generated text in a fixed order:
    `choices[0].delta.content`, then `choices[0].message.content`, then the
    first of `content`, `text`, `token`, `response` and `generated_text` that
    holds a str. Any Python exception on the way ends the probe with nothing.
- **A turn.** The request's chunks are concatenated into `assembled`. The reply
  then has its `<think>…</think>` spans removed and is trimmed.
  - In streaming mode, missing lines and falsy chunks are skipped, and the
    loop ends at the first line where the stop flag is set.
  - Otherwise, the decoded body's content is the only chunk.
- **The transcript** in the session state:
  - the defaults a session starts with;
  - appending a message;
  - the "New chat" and "Stop" buttons;
  - putting the system prompt first;
  - recording the user message and the reply of a turn;
  - the "Regenerate response" button, which drops a trailing assistant reply.

Modules:

- `Wrappers`: `Option`.
- `Text`: Python's `str.strip()` with the `isspace` character set, `startswith`, the substring test `in`, and `str.find`.
- `Json`: decoded values, truthiness, and the `key in x` / `x[key]` / `x[0]` operations on a value of unknown shape.
- `StreamLine`: `_extract_content_from_json` and `_parse_stream_line`.
- `Think`: `_clean_response`. The substitution is modelled as the regular-expression engine's left-to-right scan, and is proved equal to a span-by-span reference definition.
- `ChunkStream`: the generator `stream_chat_completion`, drained, and the `assembled += chunk` loop.
- `Transcript`: the `ChatSession` class, whose fields are the session state, and the functions that specify its methods.

External inputs are parameters:

- `json.loads` is a function `decode: string -> Option<Json>`, which gives `None` where Python raises.
- The transport's lines are a sequence of `Arrival` values. Each arrival records whether the stop flag was set when the loop reached that line.
- The chat input is an `Option<string>`, and the regenerate button is a `bool`.

## Model

| member | source | states |
|---|---|---|
| Text.Trim | mlxm-qwen5bmodel/frontend/streamlit-app.py:68 | `strip()` leaves no whitespace at either end and never lengthens the text |
| Text.TrimOfPadded | mlxm-qwen5bmodel/frontend/streamlit-app.py:76-77 | stripping removes exactly the whitespace padding around a core that has none at its ends |
| Text.TrimIdempotent | mlxm-qwen5bmodel/frontend/streamlit-app.py:76-77 | stripping twice equals stripping once |
| Text.StartsWith | mlxm-qwen5bmodel/frontend/streamlit-app.py:75 | `line.startswith(p)` holds exactly when the line begins with the characters of `p` |
| Text.Contains | mlxm-qwen5bmodel/frontend/streamlit-app.py:52-55 | `p in s` on a str holds exactly when `p` is some slice of `s` |
| Text.FindHit | mlxm-qwen5bmodel/frontend/streamlit-app.py:68 | what the search for the closing tag reports is an occurrence of it |
| Text.FindFirst | mlxm-qwen5bmodel/frontend/streamlit-app.py:68 | no occurrence lies between the start of the search and what it reports: the match is the shortest one |
| Text.FindNone | mlxm-qwen5bmodel/frontend/streamlit-app.py:68 | the search reports none only when there is no occurrence from the start on |
| Text.FindIs | mlxm-qwen5bmodel/frontend/streamlit-app.py:68 | the leftmost occurrence at or after the start is the one the search reports |
| Text.FindAppend | mlxm-qwen5bmodel/frontend/streamlit-app.py:68 | searching `a + b` from inside `b` is searching `b`, shifted by the length of `a` |
| Json.Truthy | mlxm-qwen5bmodel/frontend/streamlit-app.py:124-129 | a value is falsy exactly when it is None, False, zero, or an empty str, list or dict |
| Json.Member | mlxm-qwen5bmodel/frontend/streamlit-app.py:50-59 | `key in x` answers False (Missing) exactly for a dict without the key, a list without the str, or a str without the substring; a dict with the key gives its value; `in` on a number, bool or None, and the subscript on a list or str, raise |
| Json.Index0 | mlxm-qwen5bmodel/frontend/streamlit-app.py:51 | `x[0]` succeeds exactly on a non-empty list (its first element) or a non-empty str (its first character, as a str); otherwise it raises |
| StreamLine.FirstTextField | mlxm-qwen5bmodel/frontend/streamlit-app.py:58-60 | a top-level hit is a str found in the object under one of the probed keys |
| StreamLine.FirstTextFieldIsEarliest | mlxm-qwen5bmodel/frontend/streamlit-app.py:58-60 | the first key, in priority order, that holds a str gives the result |
| StreamLine.FirstTextFieldNone | mlxm-qwen5bmodel/frontend/streamlit-app.py:58-63 | when no probed key holds a str, the probe gives None |
| StreamLine.MessageContent | mlxm-qwen5bmodel/frontend/streamlit-app.py:54-55 | `message.content` is found exactly when `message` is an object holding `content`, and its value is returned; with no `message` key the lookup is missing |
| StreamLine.ChoiceContent | mlxm-qwen5bmodel/frontend/streamlit-app.py:52-55 | `delta.content`, when present, is the result; with no `delta` key the result is that of the `message` lookup; any result comes from an object, and a number, bool or None as `choices[0]` raises |
| StreamLine.ExtractContent | mlxm-qwen5bmodel/frontend/streamlit-app.py:45-63 | a decoded value that is not an object never yields content |
| StreamLine.DeltaContentFirst | mlxm-qwen5bmodel/frontend/streamlit-app.py:50-53 | `choices[0].delta.content` wins over everything, whatever its type |
| StreamLine.MessageContentSecond | mlxm-qwen5bmodel/frontend/streamlit-app.py:50-55 | when `delta` holds no `content`, `choices[0].message.content` is returned, whatever its type |
| StreamLine.TopLevelPriority | mlxm-qwen5bmodel/frontend/streamlit-app.py:50-63 | with `choices` absent or falsy, the result is the first probed key holding a str, else None |
| StreamLine.ChoiceWithoutContentFallsThrough | mlxm-qwen5bmodel/frontend/streamlit-app.py:50-60 | a `choices[0]` without `delta` or `message` falls through to the top-level keys |
| StreamLine.TextChoicesFallThrough | mlxm-qwen5bmodel/frontend/streamlit-app.py:50-60 | a non-empty str under `choices` falls through to the top-level keys |
| StreamLine.NonObjectYieldsNothing | mlxm-qwen5bmodel/frontend/streamlit-app.py:49-63 | a decoded value that is not an object gives None |
| StreamLine.ObjectChoicesAbort | mlxm-qwen5bmodel/frontend/streamlit-app.py:50-63 | a non-empty object under `choices` makes `[0]` raise, so the whole probe gives None without trying the top-level keys |
| StreamLine.ScalarChoiceAborts | mlxm-qwen5bmodel/frontend/streamlit-app.py:50-63 | a number, bool or null as `choices[0]` makes the probe give None without trying the top-level keys |
| StreamLine.Payload | mlxm-qwen5bmodel/frontend/streamlit-app.py:75-76 | the payload is never longer than the line; without `data:` it is the whole line; after `data:` it has no whitespace at either end and drops the prefix |
| StreamLine.ParseStreamLine | mlxm-qwen5bmodel/frontend/streamlit-app.py:71-83 | a chunk comes only from a non-empty line whose stripped payload is not `[DONE]` |
| StreamLine.DoneLineSkipped | mlxm-qwen5bmodel/frontend/streamlit-app.py:77-78 | `[DONE]` padded with whitespace gives no chunk |
| StreamLine.DoneEventSkipped | mlxm-qwen5bmodel/frontend/streamlit-app.py:75-78 | `data:` followed by `[DONE]` padded with whitespace gives no chunk |
| StreamLine.SentinelSkipped | mlxm-qwen5bmodel/frontend/streamlit-app.py:77-78 | any line whose stripped payload is `[DONE]` gives no chunk |
| StreamLine.PrefixedPayload | mlxm-qwen5bmodel/frontend/streamlit-app.py:75-76 | after `data:` the payload is the rest, stripped |
| StreamLine.BarePayload | mlxm-qwen5bmodel/frontend/streamlit-app.py:75-77 | a line starting with whitespace or `[` keeps its text as the payload |
| StreamLine.UndecodableLineKept | mlxm-qwen5bmodel/frontend/streamlit-app.py:79-83 | a bare line that does not decode comes back whole, as literal text |
| StreamLine.UndecodableEventKept | mlxm-qwen5bmodel/frontend/streamlit-app.py:75-83 | after `data:`, a payload that does not decode comes back stripped, as literal text |
| StreamLine.DecodedLineProbed | mlxm-qwen5bmodel/frontend/streamlit-app.py:79-81 | a line that decodes is never returned literally; the result is the probe's, and a decoded non-object gives None |
| Think.StepFrom | mlxm-qwen5bmodel/frontend/streamlit-app.py:68 | one step of the substitution moves the cursor forward, never past the end, and keeps at most one character |
| Think.ScanFrom | mlxm-qwen5bmodel/frontend/streamlit-app.py:68 | the substitution from a cursor produces no more text than remains after it |
| Think.ThinkScan | mlxm-qwen5bmodel/frontend/streamlit-app.py:68 | removing the spans never lengthens the text |
| Think.CleanResponse | mlxm-qwen5bmodel/frontend/streamlit-app.py:66-68 | the cleaned reply has no whitespace at either end and is no longer than the input |
| Think.ScanMatchesSpans | mlxm-qwen5bmodel/frontend/streamlit-app.py:68 | the scan equals the reference definition: cut from the leftmost `<think>` through the first `</think>` after it, then repeat on the rest |
| Think.SpanDeleted | mlxm-qwen5bmodel/frontend/streamlit-app.py:68 | the leftmost `<think>` and the nearest `</think>` after it are deleted with everything between them, newlines included; the text before is kept and the text after is cleaned in turn |
| Think.SpanAlone | mlxm-qwen5bmodel/frontend/streamlit-app.py:68 | a think span on its own is deleted entirely |
| Think.SpanTrimmed | mlxm-qwen5bmodel/frontend/streamlit-app.py:68 | stripping leaves a think span unchanged |
| Think.CleanWithoutThink | mlxm-qwen5bmodel/frontend/streamlit-app.py:66-68 | text without `<think>` is only stripped |
| Think.CleanKeepsUnclosed | mlxm-qwen5bmodel/frontend/streamlit-app.py:66-68 | without any `</think>`, an opening `<think>` and everything after it are kept; the text is only stripped |
| Think.ScanAppend | mlxm-qwen5bmodel/frontend/streamlit-app.py:68 | text the scan has already passed does not affect the rest of the scan |
| Think.ScanCopies | mlxm-qwen5bmodel/frontend/streamlit-app.py:68 | up to the first opening tag at or after the cursor, the text is copied unchanged |
| Think.ScanWithoutClose | mlxm-qwen5bmodel/frontend/streamlit-app.py:68 | with no closing tag from the cursor on, nothing matches and the rest of the text is kept |
| Think.ScanAtUnclosed | mlxm-qwen5bmodel/frontend/streamlit-app.py:68 | an opening tag that is never closed is kept, with everything after it |
| Think.ScanCut | mlxm-qwen5bmodel/frontend/streamlit-app.py:68 | an opening tag and the nearest closing tag after it are skipped together with what lies between them |
| Think.StepAppend | mlxm-qwen5bmodel/frontend/streamlit-app.py:68 | a step inside `b` is the same step inside `a + b`, shifted by the length of `a` |
| Think.ScanSuffix | mlxm-qwen5bmodel/frontend/streamlit-app.py:68 | resuming the substitution after a match is substituting the rest of the text afresh |
| Think.ScanIsSpans | mlxm-qwen5bmodel/frontend/streamlit-app.py:68 | for any two tags that start with `<` and hold no other `<`, the scan equals the span-by-span definition |
| Think.SpanDeletedBetween | mlxm-qwen5bmodel/frontend/streamlit-app.py:68 | for any two such tags, the leftmost opening tag and the nearest closing tag after it are deleted with everything between them, and the text after is scanned in turn |
| ChunkStream.LineChunk | mlxm-qwen5bmodel/frontend/streamlit-app.py:121-125 | a line contributes a chunk only when its parse result is truthy |
| ChunkStream.KeptChunks | mlxm-qwen5bmodel/frontend/streamlit-app.py:118-125 | every yielded chunk is truthy, and there are no more chunks than lines |
| ChunkStream.StopIndex | mlxm-qwen5bmodel/frontend/streamlit-app.py:119-120 | the loop stops at the first line where the stop flag is set: the flag is clear before it and set at it |
| ChunkStream.Chunks | mlxm-qwen5bmodel/frontend/streamlit-app.py:117-130 | the generator yields only truthy chunks, at most one per line read before the stop flag, and for a whole body at most its extracted content |
| ChunkStream.StreamChatCompletion | mlxm-qwen5bmodel/frontend/streamlit-app.py:117-130 | the chunks drained from the generator are exactly `Chunks` of the response: the kept chunks of the lines before the stop, or the body's truthy content |
| ChunkStream.StreamLines | mlxm-qwen5bmodel/frontend/streamlit-app.py:118-125 | the streaming loop yields the kept chunks, in order, of exactly the lines before the first stop flag |
| ChunkStream.KeptChunksAppend | mlxm-qwen5bmodel/frontend/streamlit-app.py:118-125 | lines contribute their chunks in arrival order |
| ChunkStream.OneLine | mlxm-qwen5bmodel/frontend/streamlit-app.py:121-125 | a single line yields exactly its truthy parse result |
| ChunkStream.GapSkipped | mlxm-qwen5bmodel/frontend/streamlit-app.py:121-122 | a missing line changes nothing |
| ChunkStream.FalsyLineSkipped | mlxm-qwen5bmodel/frontend/streamlit-app.py:123-125 | a line that parses to None or to a falsy value changes nothing |
| ChunkStream.SentinelLineSkipped | mlxm-qwen5bmodel/frontend/streamlit-app.py:75-78 | a `[DONE]` line, padded or after `data:`, contributes nothing to the stream |
| ChunkStream.StopIndexIs | mlxm-qwen5bmodel/frontend/streamlit-app.py:119-120 | a line where the flag is set, with the flag clear on every line before it, is where the loop stops |
| ChunkStream.StopSeenBreaks | mlxm-qwen5bmodel/frontend/streamlit-app.py:119-120 | the stop flag is seen on some line exactly when the loop breaks before the last line |
| ChunkStream.StreamBeforeStop | mlxm-qwen5bmodel/frontend/streamlit-app.py:118-125 | before any stop flag, every kept chunk is yielded and the stream continues with the rest |
| ChunkStream.NothingAfterStop | mlxm-qwen5bmodel/frontend/streamlit-app.py:119-120 | once the stop flag is seen, nothing arriving later is yielded |
| ChunkStream.NoStopYieldsAll | mlxm-qwen5bmodel/frontend/streamlit-app.py:118-125 | a stream with no stop flag yields the kept chunks of all its lines |
| ChunkStream.Concat | mlxm-qwen5bmodel/frontend/streamlit-app.py:241-256 | the buffer is built exactly when every chunk is a str; otherwise `assembled += chunk` raises |
| ChunkStream.AssembleReply | mlxm-qwen5bmodel/frontend/streamlit-app.py:241-256 | the turn buffer is the concatenation of the chunks, or a failure at the first chunk that is not a str |
| ChunkStream.ConcatAppend | mlxm-qwen5bmodel/frontend/streamlit-app.py:256 | the buffer of two runs of chunks is their buffers joined; it fails if either fails |
| ChunkStream.ConcatAbsorbs | mlxm-qwen5bmodel/frontend/streamlit-app.py:256 | once the buffer has failed, later chunks cannot repair it |
| ChunkStream.ConcatOfTexts | mlxm-qwen5bmodel/frontend/streamlit-app.py:256 | a str chunk extends the buffer by its text |
| Transcript.Submitted | mlxm-qwen5bmodel/frontend/streamlit-app.py:231 | a prompt counts as submitted exactly when it is not None and the str is truthy |
| Transcript.Reply | mlxm-qwen5bmodel/frontend/streamlit-app.py:256-264 | a turn fails exactly when some chunk is not a str; otherwise the recorded reply is trimmed and no longer than the text the chunks spell |
| Transcript.WithSystemPrompt | mlxm-qwen5bmodel/frontend/streamlit-app.py:217-221 | an empty prompt leaves the list alone; otherwise the first message becomes the system prompt, either inserted in front of all old messages or replacing only the first message's content |
| Transcript.WithoutLastReply | mlxm-qwen5bmodel/frontend/streamlit-app.py:269-271 | the result is a prefix of the list, at most one shorter, and differs from the list exactly when the list ends with an assistant message |
| Transcript.ChatSession.constructor | mlxm-qwen5bmodel/frontend/streamlit-app.py:24-42 | a new session has no messages, the default system prompt, no last user prompt and no stop request |
| Transcript.ChatSession.AddToHistory | mlxm-qwen5bmodel/frontend/streamlit-app.py:140-141 | exactly one entry is appended at the end, and nothing else changes |
| Transcript.ChatSession.ResetChat | mlxm-qwen5bmodel/frontend/streamlit-app.py:144-147 | the list is emptied, the last user prompt is cleared and the stop flag is cleared; the system prompt survives |
| Transcript.ChatSession.RequestStop | mlxm-qwen5bmodel/frontend/streamlit-app.py:185-186 | the stop flag is set, and nothing else changes |
| Transcript.ChatSession.EditSystemPrompt | mlxm-qwen5bmodel/frontend/streamlit-app.py:170-176 | the system prompt becomes the text typed, and nothing else changes |
| Transcript.ChatSession.EnsureSystemPromptFirst | mlxm-qwen5bmodel/frontend/streamlit-app.py:217-221 | the list becomes `WithSystemPrompt` of the old list, and nothing else changes |
| Transcript.ChatSession.SubmitPrompt | mlxm-qwen5bmodel/frontend/streamlit-app.py:231-266 | without a prompt, nothing changes. Otherwise the stop flag is cleared and the prompt is remembered. The user message is appended, then the cleaned reply, even when the reply is empty. The reply is absent when the buffer failed. After the turn the flag is set exactly when the loop met it |
| Transcript.Respond | mlxm-qwen5bmodel/frontend/streamlit-app.py:240-264 | the turn's outcome is the cleaned concatenation of exactly the chunks the request yields, or a failure when the concatenation fails |
| Transcript.ChatSession.RecordPrompt | mlxm-qwen5bmodel/frontend/streamlit-app.py:231-234 | the stop flag is cleared, the prompt is remembered and the user message is appended; the system prompt is unchanged |
| Transcript.ChatSession.RecordReply | mlxm-qwen5bmodel/frontend/streamlit-app.py:266 | the cleaned reply is appended as an assistant message, and nothing else changes |
| Transcript.ChatSession.RegenerateResponse | mlxm-qwen5bmodel/frontend/streamlit-app.py:269-271 | when a prompt was submitted and the button is clicked, a trailing assistant reply is dropped; otherwise nothing changes |
| Transcript.SystemPromptIdempotent | mlxm-qwen5bmodel/frontend/streamlit-app.py:217-221 | putting the system prompt first twice equals doing it once |
| Transcript.SystemPromptOverwritesOnlyHead | mlxm-qwen5bmodel/frontend/streamlit-app.py:220-221 | on a list that already starts with a system message, only the first message can change |
| Transcript.RegenerateUndoesReply | mlxm-qwen5bmodel/frontend/streamlit-app.py:264-271 | regenerating right after an answered turn removes exactly its reply and keeps the user message |
| Transcript.RegenerateKeepsUserMessage | mlxm-qwen5bmodel/frontend/streamlit-app.py:269-271 | a transcript ending with a user message is left as it is |
| Transcript.PlainReply | mlxm-qwen5bmodel/frontend/streamlit-app.py:264 | without a `<think>` in the stripped buffer, the reply is the stripped buffer |
| Transcript.ThinkOnlyReply | mlxm-qwen5bmodel/frontend/streamlit-app.py:264-266 | a reply that is only a think span is recorded as the empty string |

## Left out

- HTTP transport is not modelled: `requests.post`, `raise_for_status`, the timeout and the request payload (mlxm-qwen5bmodel/frontend/streamlit-app.py:96-116). This is network I/O. The response is an input instead: a sequence of lines, or a decoded body.
- The `**[Connection error]**` chunk yielded on a transport failure (mlxm-qwen5bmodel/frontend/streamlit-app.py:131-132) is not modelled. It depends on the transport.
- `json.loads` is a foreign library call. It is the parameter `decode`. NaN and Infinity literals, and the difference between JSON integers and floats, are not modelled; numbers are `real`.
- The regular-expression engine is not modelled as such. The `<think>.*?</think>` substitution with DOTALL is the scan `Think.ScanFrom` over the two tags, which is what that pattern matches.
- Streamlit rendering is not modelled: the chat bubbles, the "Thinking…" placeholder, the `_(no content)_` display, the header and the model-parameter widgets (including the seed text field). These calls are UI, and the parameters are only passed on to the transport.
- Chat export and import (mlxm-qwen5bmodel/frontend/streamlit-app.py:189-202) are not modelled. They are file I/O. Because of this, messages whose `role` or `content` is missing or not a str, which only an import can produce, are not modelled either.
- The display throttle with `time.perf_counter` (mlxm-qwen5bmodel/frontend/streamlit-app.py:242, 257-260) is not modelled. It affects only rendering, not the buffer.
- `st.rerun()` after "New chat" and after "Regenerate response" is not modelled. It restarts the script, so it is control flow of the UI framework.
- The commented-out older version of the app (mlxm-qwen5bmodel/frontend/streamlit-app.py:280 on) is not modelled. It is dead code.
- `streamlit-app copy.py`, `backcallapp.py` and the two FastAPI back ends are not part of this model. They are a duplicate, a window launcher and thin wrappers over the model library.
- ChunkStream.StreamChatCompletion: the generator is drained before the buffer is built. In the source the two loops interleave, so the stop flag may be set while earlier chunks are being rendered. That timing is the `stopRequested` flag each `Arrival` carries.
- Transcript.ChatSession.SubmitPrompt: where `assembled += chunk` raises TypeError, the source's script run ends with the exception. The model returns `Failed` instead, with the user message recorded and no reply.
- Transcript.ChatSession.SubmitPrompt: the stop flag after a turn is set only when some line arrived after Stop was pressed. A Stop pressed after the last line was read, or during a non-streaming request, where the flag is never read, is not represented, because the model sees the flag only through `Arrival` values.
- Transcript.ChatSession.EnsureSystemPromptFirst: the source overwrites the first message's dict in place, and every other reference to that dict sees the change. Messages here are values, so that aliasing is not modelled.
