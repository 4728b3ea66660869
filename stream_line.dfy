/**
  Decoding of one transport line into a text chunk: the `data:` prefix and
  the `[DONE]` sentinel of server-sent events, the JSON decode with its
  literal-text fallback, and the fixed-priority probe for generated text in
  a decoded value (OpenAI-style `choices`, then a few top-level keys).
 */
module StreamLine {
  import opened Wrappers
  import opened Text
  import opened Json

  /** The top-level keys probed, in priority order. */
  const ContentKeys: seq<string> := ["content", "text", "token", "response", "generated_text"]

  /** `m` holds a str under `k`: the top-level probe stops there. */
  predicate TextAt(m: map<string, Json>, k: string) {
    k in m && m[k].JStr?
  }

  /**
    The loop over the top-level keys: the value of the first key present
    whose value is a str. A lookup that raises ends the whole probe.
   */
  function FirstTextField(data: Json, keys: seq<string>): (r: Option<Json>)
    ensures r.Some? ==> data.JObj? && r.value.JStr?
    ensures r.Some? ==> exists i :: 0 <= i < |keys| && TextAt(data.fields, keys[i]) && data.fields[keys[i]] == r.value
    decreases |keys|
  {
    if keys == [] then None
    else match Member(data, keys[0])
      case Raises => None
      case Hit(v) =>
        if v.JStr? then Some(v)
        else
          var r := FirstTextField(data, keys[1..]);
          assert r.Some? ==> exists i :: 1 <= i < |keys| && TextAt(data.fields, keys[i]) && data.fields[keys[i]] == r.value by {
            if r.Some? {
              var i :| 0 <= i < |keys[1..]| && TextAt(data.fields, keys[1..][i]) && data.fields[keys[1..][i]] == r.value;
              assert keys[1..][i] == keys[i + 1];
            }
          }
          r
      case Missing =>
        var r := FirstTextField(data, keys[1..]);
        assert r.Some? ==> exists i :: 1 <= i < |keys| && TextAt(data.fields, keys[i]) && data.fields[keys[i]] == r.value by {
          if r.Some? {
            var i :| 0 <= i < |keys[1..]| && TextAt(data.fields, keys[1..][i]) && data.fields[keys[1..][i]] == r.value;
            assert keys[1..][i] == keys[i + 1];
          }
        }
        r
  }

  /** `"message" in ch0 and "content" in ch0["message"]`, then `ch0["message"]["content"]`. */
  function MessageContent(ch0: Json): (r: Lookup)
    ensures r.Hit? <==>
      ch0.JObj? && "message" in ch0.fields && ch0.fields["message"].JObj? && "content" in ch0.fields["message"].fields
    ensures r.Hit? ==> r.value == ch0.fields["message"].fields["content"]
    ensures ch0.JObj? && "message" !in ch0.fields ==> r.Missing?
  {
    match Member(ch0, "message")
    case Hit(message) => Member(message, "content")
    case other => other
  }

  /** The `choices[0]` probe: `delta.content` first, then `message.content`. */
  function ChoiceContent(ch0: Json): (r: Lookup)
    ensures ch0.JObj? && "delta" in ch0.fields && ch0.fields["delta"].JObj? && "content" in ch0.fields["delta"].fields ==>
      r == Hit(ch0.fields["delta"].fields["content"])
    ensures ch0.JObj? && "delta" !in ch0.fields ==> r == MessageContent(ch0)
    ensures r.Hit? ==> ch0.JObj?
    ensures !ch0.JObj? && !ch0.JArr? && !ch0.JStr? ==> r.Raises?
  {
    match Member(ch0, "delta")
    case Raises => Raises
    case Hit(delta) =>
      (match Member(delta, "content")
       case Missing => MessageContent(ch0)
       case found => found)
    case Missing => MessageContent(ch0)
  }

  /**
    `_extract_content_from_json`: the generated text a decoded value carries,
    or None. Any exception inside the probe makes the result None. The
    `choices` path returns the stored value whatever its type.
   */
  function ExtractContent(data: Json): (r: Option<Json>)
    ensures !data.JObj? ==> r.None?
  {
    var choices := Member(data, "choices");
    if choices.Raises? then None
    else if choices.Hit? && Truthy(choices.value) then
      match Index0(choices.value)
      case None => None
      case Some(ch0) =>
        (match ChoiceContent(ch0)
         case Raises => None
         case Hit(c) => Some(c)
         case Missing => FirstTextField(data, ContentKeys))
    else FirstTextField(data, ContentKeys)
  }

  /** The text a line is decoded from: after `data:`, stripped; otherwise the line as it came. */
  function Payload(line: string): (r: string)
    ensures |r| <= |line|
    ensures !StartsWith(line, "data:") ==> r == line
    ensures StartsWith(line, "data:") ==> Trimmed(r) && |r| <= |line| - 5
  {
    if StartsWith(line, "data:") then Trim(line[5..]) else line
  }

  /**
    `_parse_stream_line`: None for an empty line and for the `[DONE]`
    sentinel; otherwise the decoded value's content, or the payload itself
    as literal text when it does not decode as JSON.
   */
  function ParseStreamLine(line: string, decode: string -> Option<Json>): (r: Option<Json>)
    ensures r.Some? ==> line != [] && Trim(Payload(line)) != "[DONE]"
  {
    if line == [] then None
    else
      var payload := Payload(line);
      if Trim(payload) == "[DONE]" then None
      else match decode(payload)
        case Some(obj) => ExtractContent(obj)
        case None => Some(JStr(payload))
  }

  // ----- The probe order -----

  /** `choices[0].delta.content` wins over everything else, and is returned whatever its type. */
  lemma {:induction false} DeltaContentFirst(m: map<string, Json>, rest: seq<Json>, ch0: map<string, Json>, delta: map<string, Json>)
    requires "choices" in m && m["choices"] == JArr([JObj(ch0)] + rest)
    requires "delta" in ch0 && ch0["delta"] == JObj(delta) && "content" in delta
    ensures ExtractContent(JObj(m)) == Some(delta["content"])
  {
  }

  /** Without a `delta.content`, `choices[0].message.content` wins over the top-level keys. */
  lemma {:induction false} MessageContentSecond(m: map<string, Json>, rest: seq<Json>, ch0: map<string, Json>, message: map<string, Json>)
    requires "choices" in m && m["choices"] == JArr([JObj(ch0)] + rest)
    requires "delta" !in ch0 || (ch0["delta"].JObj? && "content" !in ch0["delta"].fields)
    requires "message" in ch0 && ch0["message"] == JObj(message) && "content" in message
    ensures ExtractContent(JObj(m)) == Some(message["content"])
  {
  }

  /** The top-level loop returns the value of the earliest key holding a str, even `""`. */
  lemma {:induction false} FirstTextFieldIsEarliest(m: map<string, Json>, keys: seq<string>, i: nat)
    requires i < |keys| && TextAt(m, keys[i])
    requires forall j :: 0 <= j < i ==> !TextAt(m, keys[j])
    ensures FirstTextField(JObj(m), keys) == Some(m[keys[i]])
  {
    if i > 0 {
      assert !TextAt(m, keys[0]);
      FirstTextFieldIsEarliest(m, keys[1..], i - 1);
    }
  }

  /** The top-level loop gives None when no probed key holds a str. */
  lemma {:induction false} FirstTextFieldNone(m: map<string, Json>, keys: seq<string>)
    requires forall j :: 0 <= j < |keys| ==> !TextAt(m, keys[j])
    ensures FirstTextField(JObj(m), keys) == None
  {
    if keys != [] {
      assert !TextAt(m, keys[0]);
      FirstTextFieldNone(m, keys[1..]);
    }
  }

  /**
    With no usable `choices` (absent or falsy), the result is the value of
    the first of content, text, token, response, generated_text that holds
    a str, and None when none does.
   */
  lemma {:induction false} TopLevelPriority(m: map<string, Json>)
    requires "choices" !in m || !Truthy(m["choices"])
    ensures forall i :: 0 <= i < |ContentKeys| && TextAt(m, ContentKeys[i]) && (forall j :: 0 <= j < i ==> !TextAt(m, ContentKeys[j]))
              ==> ExtractContent(JObj(m)) == Some(m[ContentKeys[i]])
    ensures (forall j :: 0 <= j < |ContentKeys| ==> !TextAt(m, ContentKeys[j])) ==> ExtractContent(JObj(m)) == None
  {
    forall i | 0 <= i < |ContentKeys| && TextAt(m, ContentKeys[i]) && (forall j :: 0 <= j < i ==> !TextAt(m, ContentKeys[j]))
      ensures ExtractContent(JObj(m)) == Some(m[ContentKeys[i]])
    {
      FirstTextFieldIsEarliest(m, ContentKeys, i);
    }
    if forall j :: 0 <= j < |ContentKeys| ==> !TextAt(m, ContentKeys[j]) {
      FirstTextFieldNone(m, ContentKeys);
    }
  }

  /**
    A `choices[0]` that carries neither `delta.content` nor `message.content`
    falls through to the top-level keys.
   */
  lemma {:induction false} ChoiceWithoutContentFallsThrough(m: map<string, Json>, rest: seq<Json>, ch0: map<string, Json>)
    requires "choices" in m && m["choices"] == JArr([JObj(ch0)] + rest)
    requires "delta" !in ch0 && "message" !in ch0
    ensures ExtractContent(JObj(m)) == FirstTextField(JObj(m), ContentKeys)
  {
  }

  /**
    A non-empty str under `choices` also falls through: `choices[0]` is then
    a one-character str, which contains neither "delta" nor "message".
   */
  lemma {:induction false} TextChoicesFallThrough(m: map<string, Json>, s: string)
    requires "choices" in m && m["choices"] == JStr(s) && s != []
    ensures ExtractContent(JObj(m)) == FirstTextField(JObj(m), ContentKeys)
  {
    assert !Contains(s[..1], "delta") && !Contains(s[..1], "message");
  }

  // ----- Shape errors end the probe -----

  /** A value that is not a JSON object never yields content. */
  lemma {:induction false} NonObjectYieldsNothing(data: Json)
    requires !data.JObj?
    ensures ExtractContent(data) == None
  {
  }

  /**
    `choices[0]` on a non-empty object raises (KeyError), and the probe ends
    with None without trying the top-level keys.
   */
  lemma {:induction false} ObjectChoicesAbort(m: map<string, Json>)
    requires "choices" in m && m["choices"].JObj? && m["choices"].fields != map[]
    ensures ExtractContent(JObj(m)) == None
  {
  }

  /**
    A number, bool or null as `choices[0]` makes `"delta" in ch0` raise, and
    the probe ends with None without trying the top-level keys.
   */
  lemma {:induction false} ScalarChoiceAborts(m: map<string, Json>, ch0: Json, rest: seq<Json>)
    requires "choices" in m && m["choices"] == JArr([ch0] + rest)
    requires ch0.JNum? || ch0.JBool? || ch0.JNull?
    ensures ExtractContent(JObj(m)) == None
  {
  }

  // ----- Line handling -----

  /** The sentinel as a bare line, padded with whitespace, gives no chunk. */
  lemma {:induction false} DoneLineSkipped(lead: string, trail: string, decode: string -> Option<Json>)
    requires AllSpace(lead) && AllSpace(trail)
    ensures ParseStreamLine(lead + "[DONE]" + trail, decode) == None
  {
    TrimOfPadded(lead, "[DONE]", trail);
    var line := lead + "[DONE]" + trail;
    assert line[0] == (if lead != [] then lead[0] else '[');
    BarePayload(line);
    SentinelSkipped(lead + "[DONE]" + trail, decode);
  }

  /** The sentinel after `data:`, padded with whitespace, gives no chunk. */
  lemma {:induction false} DoneEventSkipped(lead: string, trail: string, decode: string -> Option<Json>)
    requires AllSpace(lead) && AllSpace(trail)
    ensures ParseStreamLine("data:" + lead + "[DONE]" + trail, decode) == None
  {
    var padded := lead + "[DONE]" + trail;
    assert "data:" + lead + "[DONE]" + trail == "data:" + padded;
    assert Trim(Payload("data:" + padded)) == "[DONE]" by {
      TrimOfPadded(lead, "[DONE]", trail);
      PrefixedPayload(padded);
      TrimIdempotent(padded);
    }
    SentinelSkipped("data:" + padded, decode);
  }

  lemma {:induction false} SentinelSkipped(line: string, decode: string -> Option<Json>)
    requires line != [] && Trim(Payload(line)) == "[DONE]"
    ensures ParseStreamLine(line, decode) == None
  {
  }

  lemma {:induction false} PrefixedPayload(rest: string)
    ensures Payload("data:" + rest) == Trim(rest)
  {
    var line := "data:" + rest;
    assert line[..5] == "data:";
    assert line[5..] == rest;
  }

  /** A line that starts with whitespace or `[` has no `data:` prefix: its payload is the whole line. */
  lemma {:induction false} BarePayload(line: string)
    requires line != [] && (IsSpace(line[0]) || line[0] == '[')
    ensures Payload(line) == line
  {
  }

  /** A bare line that is not valid JSON comes back whole, as literal text. */
  lemma {:induction false} UndecodableLineKept(line: string, decode: string -> Option<Json>)
    requires line != [] && !StartsWith(line, "data:") && Trim(line) != "[DONE]"
    requires decode(line).None?
    ensures ParseStreamLine(line, decode) == Some(JStr(line))
  {
  }

  /** After `data:`, an undecodable payload comes back stripped, as literal text. */
  lemma {:induction false} UndecodableEventKept(rest: string, decode: string -> Option<Json>)
    requires Trim(rest) != "[DONE]" && decode(Trim(rest)).None?
    ensures ParseStreamLine("data:" + rest, decode) == Some(JStr(Trim(rest)))
  {
    PrefixedPayload(rest);
    TrimIdempotent(rest);
  }

  /**
    A line that decodes is never returned literally: the result is what the
    probe finds in the decoded value, so a decoded number, null, list or
    string gives no chunk.
   */
  lemma {:induction false} DecodedLineProbed(line: string, decode: string -> Option<Json>, j: Json)
    requires line != [] && Trim(Payload(line)) != "[DONE]"
    requires decode(Payload(line)) == Some(j)
    ensures ParseStreamLine(line, decode) == ExtractContent(j)
    ensures !j.JObj? ==> ParseStreamLine(line, decode) == None
  {
  }
}
