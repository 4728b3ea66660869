/**
  The chat transcript kept in the session state, and the operations of one
  script run on it: the defaults of `_init_state`, `add_to_history`,
  `reset_chat`, the stop button, putting the system prompt first, a user
  turn and the regenerate button.
 */
module Transcript {
  import opened Wrappers
  import opened Text
  import opened Json
  import opened ChunkStream
  import opened Think

  /** One entry of `st.session_state.messages`: `{"role": ..., "content": ...}`. */
  datatype Message = Message(role: string, content: string)

  /** The system prompt a new session starts with. */
  const DefaultSystemPrompt: string :=
      "You are a thinking model. Your purpose is to analyze, synthesize, and "
    + "evaluate information to provide insightful and well-reasoned "
    + "responses. Focus on the core of the query, delivering clear, concise, "
    + "and creative solutions without unnecessary preamble. Prioritize "
    + "logic, evidence, and intellectual rigor in all outputs.You are a "
    + "helpful, concise assistant. Answer clearly and directly."

  /** How a run with the chat input ended. */
  datatype TurnOutcome =
    | NoPrompt                      // nothing was submitted
    | Answered(finalText: string)   // the cleaned reply was recorded
    | Failed                        // `assembled += chunk` raised: no reply was recorded

  // ----- Specification functions -----

  /**
    The list after the system prompt is put first: nothing happens for an
    empty prompt; a list that does not start with a system message gets one
    inserted in front; otherwise only the first message's content is replaced.
   */
  function WithSystemPrompt(msgs: seq<Message>, prompt: string): (r: seq<Message>)
    ensures prompt == [] ==> r == msgs
    ensures prompt != [] ==> |r| > 0 && r[0] == Message("system", prompt)
    ensures prompt != [] && (msgs == [] || msgs[0].role != "system") ==> r[1..] == msgs
    ensures msgs != [] && msgs[0].role == "system" ==> |r| == |msgs| && r[1..] == msgs[1..]
  {
    if prompt == [] then msgs
    else if msgs == [] || msgs[0].role != "system" then [Message("system", prompt)] + msgs
    else msgs[0 := msgs[0].(content := prompt)]
  }

  /** The list after the regenerate button: a trailing assistant reply is dropped. */
  function WithoutLastReply(msgs: seq<Message>): (r: seq<Message>)
    ensures r <= msgs && |msgs| - 1 <= |r|
    ensures r != msgs <==> msgs != [] && msgs[|msgs| - 1].role == "assistant"
  {
    if msgs != [] && msgs[|msgs| - 1].role == "assistant" then msgs[..|msgs| - 1] else msgs
  }

  /**
    The outcome of a submitted turn, given the chunks the request yielded:
    it fails exactly when some chunk is not a str, and otherwise records a
    reply that is trimmed and no longer than the text the chunks spell.
   */
  function Reply(chunks: seq<Json>): (r: TurnOutcome)
    ensures r.Failed? <==> exists c <- chunks :: !c.JStr?
    ensures !r.NoPrompt?
    ensures r.Answered? ==> Concat(chunks).Some? && Trimmed(r.finalText) && |r.finalText| <= |Concat(chunks).value|
  {
    match Concat(chunks)
    case None => Failed
    case Some(assembled) => Answered(CleanResponse(Trim(assembled)))
  }

  /** What a turn appends to the transcript. */
  function TurnEntries(prompt: string, outcome: TurnOutcome): seq<Message> {
    [Message("user", prompt)] + (if outcome.Answered? then [Message("assistant", outcome.finalText)] else [])
  }

  /** `if user_prompt:` and `if st.session_state.last_user`: the value is not None and the str is truthy. */
  predicate Submitted(s: Option<string>)
    ensures Submitted(s) <==> s.Some? && Truthy(JStr(s.value))
  {
    s.Some? && s.value != []
  }

  /**
    The reply a submitted prompt gets: the request's chunks, concatenated,
    then stripped and cleaned of think spans (`final_text`).
   */
  method Respond(resp: Response, decode: string -> Option<Json>) returns (outcome: TurnOutcome)
    ensures outcome == Reply(Chunks(resp, decode))
  {
    var chunks := StreamChatCompletion(resp, decode);
    var assembled := AssembleReply(chunks);
    if assembled.None? {
      return Failed;
    }
    var finalText := CleanResponse(Trim(assembled.value));
    return Answered(finalText);
  }

  // ----- The session state -----

  class ChatSession {
    var messages: seq<Message>
    var systemPrompt: string
    var lastUser: Option<string>
    var stopRequested: bool

    /** `_init_state` on a fresh session. */
    constructor ()
      ensures messages == [] && systemPrompt == DefaultSystemPrompt
      ensures lastUser == None && !stopRequested
    {
      messages := [];
      systemPrompt := DefaultSystemPrompt;
      lastUser := None;
      stopRequested := false;
    }

    /** `add_to_history`: one entry at the end, nothing else touched. */
    method AddToHistory(role: string, content: string)
      modifies this
      ensures messages == old(messages) + [Message(role, content)]
      ensures systemPrompt == old(systemPrompt) && lastUser == old(lastUser)
      ensures stopRequested == old(stopRequested)
    {
      messages := messages + [Message(role, content)];
    }

    /** `reset_chat` (the "New chat" button): the system prompt survives. */
    method ResetChat()
      modifies this
      ensures messages == [] && lastUser == None && !stopRequested
      ensures systemPrompt == old(systemPrompt)
    {
      messages := [];
      lastUser := None;
      stopRequested := false;
    }

    /** The "Stop" button. */
    method RequestStop()
      modifies this
      ensures stopRequested
      ensures messages == old(messages) && systemPrompt == old(systemPrompt) && lastUser == old(lastUser)
    {
      stopRequested := true;
    }

    /** The system-prompt text area stores whatever was typed. */
    method EditSystemPrompt(text: string)
      modifies this
      ensures systemPrompt == text
      ensures messages == old(messages) && lastUser == old(lastUser) && stopRequested == old(stopRequested)
    {
      systemPrompt := text;
    }

    /** "Ensure system prompt is first message", done in place on the list. */
    method EnsureSystemPromptFirst()
      modifies this
      ensures messages == WithSystemPrompt(old(messages), systemPrompt)
      ensures systemPrompt == old(systemPrompt) && lastUser == old(lastUser)
      ensures stopRequested == old(stopRequested)
    {
      if systemPrompt != [] {
        if messages == [] || messages[0].role != "system" {
          messages := [Message("system", systemPrompt)] + messages;
        } else {
          messages := messages[0 := messages[0].(content := systemPrompt)];
        }
      }
    }

    /**
      A run with the chat input: the stop flag is cleared, the user message is
      recorded, the request's chunks are concatenated, and the reply, with its
      think spans removed and trimmed, is recorded even when it is empty. A
      Stop pressed while the lines arrive (the flag the loop breaks on) is
      still set when the turn ends.
     */
    method SubmitPrompt(userPrompt: Option<string>, resp: Response, decode: string -> Option<Json>)
      returns (outcome: TurnOutcome)
      modifies this
      ensures !Submitted(userPrompt) ==>
        (outcome == NoPrompt && messages == old(messages) &&
         lastUser == old(lastUser) && stopRequested == old(stopRequested))
      ensures Submitted(userPrompt) ==> outcome == Reply(Chunks(resp, decode))
      ensures Submitted(userPrompt) ==> messages == old(messages) + TurnEntries(userPrompt.value, outcome)
      ensures Submitted(userPrompt) ==> lastUser == userPrompt && stopRequested == StopSeen(resp)
      ensures systemPrompt == old(systemPrompt)
    {
      if !Submitted(userPrompt) {
        return NoPrompt;
      }
      RecordPrompt(userPrompt.value);
      outcome := Respond(resp, decode);
      if StopSeen(resp) {
        RequestStop();
      }
      RecordReply(outcome);
    }

    /** The first half of a turn: the flag is cleared, the prompt remembered and appended. */
    method RecordPrompt(prompt: string)
      modifies this
      ensures messages == old(messages) + [Message("user", prompt)]
      ensures lastUser == Some(prompt) && !stopRequested && systemPrompt == old(systemPrompt)
    {
      stopRequested := false;
      lastUser := Some(prompt);
      AddToHistory("user", prompt);
    }

    /** The second half of a turn: the reply is appended unless assembling it failed. */
    method RecordReply(outcome: TurnOutcome)
      modifies this
      ensures messages == old(messages) + (if outcome.Answered? then [Message("assistant", outcome.finalText)] else [])
      ensures lastUser == old(lastUser) && stopRequested == old(stopRequested)
      ensures systemPrompt == old(systemPrompt)
    {
      if outcome.Answered? {
        AddToHistory("assistant", outcome.finalText);
      } else {
        assert messages + [] == messages;
      }
    }

    /** The "Regenerate response" button, shown only once a prompt was submitted. */
    method RegenerateResponse(clicked: bool)
      modifies this
      ensures messages == (if Submitted(old(lastUser)) && clicked then WithoutLastReply(old(messages)) else old(messages))
      ensures systemPrompt == old(systemPrompt) && lastUser == old(lastUser)
      ensures stopRequested == old(stopRequested)
    {
      if Submitted(lastUser) && clicked {
        if messages != [] && messages[|messages| - 1].role == "assistant" {
          messages := messages[..|messages| - 1];
        }
      }
    }
  }

  // ----- Properties -----

  /** Putting the system prompt first a second time changes nothing. */
  lemma {:induction false} SystemPromptIdempotent(msgs: seq<Message>, prompt: string)
    ensures WithSystemPrompt(WithSystemPrompt(msgs, prompt), prompt) == WithSystemPrompt(msgs, prompt)
  {
  }

  /** Only the first message can differ after the prompt is put first on a list that starts with one. */
  lemma {:induction false} SystemPromptOverwritesOnlyHead(msgs: seq<Message>, prompt: string)
    requires msgs != [] && msgs[0].role == "system"
    ensures forall i :: 1 <= i < |msgs| ==> WithSystemPrompt(msgs, prompt)[i] == msgs[i]
  {
  }

  /** Regenerating right after an answered turn removes exactly its reply. */
  lemma {:induction false} RegenerateUndoesReply(msgs: seq<Message>, prompt: string, text: string)
    ensures WithoutLastReply(msgs + TurnEntries(prompt, Answered(text))) == msgs + [Message("user", prompt)]
  {
  }

  /** A transcript that does not end with a reply is left as it is. */
  lemma {:induction false} RegenerateKeepsUserMessage(msgs: seq<Message>, prompt: string)
    ensures WithoutLastReply(msgs + [Message("user", prompt)]) == msgs + [Message("user", prompt)]
  {
  }

  /** Without a think tag the reply is the stripped text. */
  lemma {:induction false} PlainReply(chunks: seq<Json>)
    requires Concat(chunks).Some? && !Contains(Trim(Concat(chunks).value), Open)
    ensures Reply(chunks) == Answered(Trim(Concat(chunks).value))
  {
    CleanWithoutThink(Trim(Concat(chunks).value));
    TrimIdempotent(Concat(chunks).value);
  }

  /** A reply that is nothing but a think span is recorded as the empty string. */
  lemma {:induction false} ThinkOnlyReply(mid: string)
    requires !Contains(mid, Close)
    ensures Reply([JStr(Open + mid + Close)]) == Answered("")
  {
    var x := Open + mid + Close;
    assert [JStr(x)][..0] == [];
    assert Concat([JStr(x)]) == Some("" + x);
    assert "" + x == x;
    SpanTrimmed(mid);
    SpanAlone(mid);
  }
}
