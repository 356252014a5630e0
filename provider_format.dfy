/**
 * Model.build_prompt and the provider variants' bedrock_format on message values: the
 * scaffold messages put at both ends of the caller's list, the Llama2 special tokens, the
 * Cohere role table and "ROLE: message" prompt, the Claude system split, and the request
 * bodies with their settings fallbacks.
 */
module ProviderFormat {
  import opened Messages
  import opened MessageNormalizer
  import opened Settings

  datatype Result<T, E> = Ok(value: T) | Err(error: E)

  /** Model (the abstract base) and its concrete subclasses. */
  datatype Provider = Generic | Llama2 | CohereCommand | CohereCommandR | Claude

  /** The class attributes that steer normalisation. */
  datatype Capabilities = Capabilities(systemRoleSupported: bool, addLlamaSpecialTokens: bool)

  /**
   * Model sets both attributes to True and no subclass turns either off (Claude sets
   * system_role_supported = True again), so every variant keeps the system role.
   */
  function CapabilitiesOf(p: Provider): Capabilities
  {
    Capabilities(true, true)
  }

  /** The `params` of build_prompt: a schema mapping, or the name of a free-form type. */
  datatype ReturnType = Schema | TypeName(name: string)

  /** The `return_type` the templates are rendered with. */
  function ReturnTypeName(rt: ReturnType): (name: string)
    ensures name == "json" <==> rt.Schema? || rt.name == "json"
  {
    match rt
    case Schema => "json"
    case TypeName(name) => name
  }

  /**
   * The stripped assistant hint: a fence opener tagged with the return type when that
   * type is "json" (always so in schema mode), and empty otherwise.
   */
  function AssistantHint(rt: ReturnType): (hint: string)
    ensures hint == "" || hint == "```json"
    ensures hint != "" <==> rt.Schema? || rt.name == "json"
  {
    if ReturnTypeName(rt) == "json" then "```" + ReturnTypeName(rt) else ""
  }

  /** The caller's list after build_prompt's insert(0, system) and append(assistant). */
  function Framed(msgs: seq<Msg>, instruction: string, hint: string): seq<Msg>
  {
    [Msg(System, instruction)] + msgs + [Msg(Assistant, hint)]
  }

  // ---------------------------------------------------------------------------
  // Llama2 special tokens

  const SysOpen: string := "<<SYS>> "
  const SysClose: string := " <</SYS>>"
  const InstOpen: string := "[INST] "
  const InstClose: string := " [/INST]"

  /** Llama2's rewrite of one merged message: system and user content get their tokens. */
  function LlamaWrap(m: Msg): Msg
  {
    match m.role
    case System => Msg(System, SysOpen + m.content + SysClose)
    case User => Msg(User, InstOpen + m.content + InstClose)
    case Assistant => m
  }

  function LlamaTokens(s: seq<Msg>): (r: seq<Msg>)
    ensures |r| == |s|
  {
    seq(|s|, i requires 0 <= i < |s| => LlamaWrap(s[i]))
  }

  /** Strips the tokens LlamaWrap adds (the inverse used to state that nothing is lost). */
  function LlamaUnwrap(m: Msg): Msg
  {
    var c := m.content;
    match m.role
    case System =>
      if |c| >= |SysOpen| + |SysClose| then Msg(System, c[|SysOpen|..|c| - |SysClose|]) else m
    case User =>
      if |c| >= |InstOpen| + |InstClose| then Msg(User, c[|InstOpen|..|c| - |InstClose|]) else m
    case Assistant => m
  }

  /** Unwrapping a wrapped message gives the message back. */
  lemma LlamaUnwrapWrap(m: Msg)
    ensures LlamaUnwrap(LlamaWrap(m)) == m
  {
    var w := LlamaWrap(m).content;
    match m.role
    case System =>
      assert w[|SysOpen|..|w| - |SysClose|] == m.content;
    case User =>
      assert w[|InstOpen|..|w| - |InstClose|] == m.content;
    case Assistant =>
  }

  /**
   * The token pass keeps the length and every role, so the list still alternates, and
   * every original message is recovered by unwrapping.
   */
  lemma LlamaTokensKeepShape(s: seq<Msg>)
    ensures |LlamaTokens(s)| == |s|
    ensures forall i :: 0 <= i < |s| ==> LlamaTokens(s)[i].role == s[i].role
    ensures forall i :: 0 <= i < |s| ==> LlamaUnwrap(LlamaTokens(s)[i]) == s[i]
    ensures Alternating(s) ==> Alternating(LlamaTokens(s))
  {
    forall i | 0 <= i < |s| ensures LlamaUnwrap(LlamaTokens(s)[i]) == s[i] {
      LlamaUnwrapWrap(s[i]);
    }
  }

  // ---------------------------------------------------------------------------
  // build_prompt

  /** fix_and_merge_messages as the variant defines it: Llama2 adds its token pass. */
  function FixAndMerge(p: Provider, s: seq<Msg>): seq<Msg>
  {
    var merged := Normalize(s, CapabilitiesOf(p).systemRoleSupported);
    if p == Llama2 && CapabilitiesOf(p).addLlamaSpecialTokens then LlamaTokens(merged) else merged
  }

  /**
   * No variant turns either attribute off: the base pass never demotes a role, so the
   * variant's fix_and_merge_messages is the plain merge, plus the token pass for Llama2.
   */
  lemma NoVariantDemotes(p: Provider, s: seq<Msg>)
    ensures CapabilitiesOf(p).systemRoleSupported && CapabilitiesOf(p).addLlamaSpecialTokens
    ensures Normalize(s, CapabilitiesOf(p).systemRoleSupported) == Merge(s)
    ensures FixAndMerge(p, s) == if p == Llama2 then LlamaTokens(Merge(s)) else Merge(s)
  {
    assert DemoteAll(s, true) == s;
  }

  /** Model.build_prompt, with the rendered instruction text taken as an input. */
  function BuildPrompt(p: Provider, msgs: seq<Msg>, rt: ReturnType, instruction: string): seq<Msg>
  {
    FixAndMerge(p, Framed(msgs, instruction, AssistantHint(rt)))
  }

  /**
   * Where runs open in a framed list: the caller's first message opens one unless it is a
   * system message, and each later one exactly when its role differs from its predecessor's.
   */
  lemma FramedRunStarts(msgs: seq<Msg>, instruction: string, hint: string)
    ensures var f := Framed(msgs, instruction, hint);
      && (msgs != [] ==> (1 in RunStarts(f, |f|, true) <==> msgs[0].role != System))
      && forall j, i :: 0 <= j && i == j + 1 && i < |msgs| ==>
           ((i + 1) in RunStarts(f, |f|, true) <==> msgs[j].role != msgs[i].role)
  {
    var f := Framed(msgs, instruction, hint);
    if msgs != [] {
      RunStartsAt(f, |f|, 1, true);
      assert f[0].role == System && f[1] == msgs[0];
    }
    forall j, i | 0 <= j && i == j + 1 && i < |msgs|
      ensures (i + 1) in RunStarts(f, |f|, true) <==> msgs[j].role != msgs[i].role
    {
      RunStartsAt(f, |f|, i + 1, true);
      assert f[i] == msgs[j] && f[i + 1] == msgs[i];
    }
  }

  /**
   * Framing of build_prompt before any token pass: the first message is the system one and
   * starts with the instruction; the last is the assistant one and ends with the hint, which
   * follows the content of a trailing caller assistant message after the separator.
   */
  lemma MergeFramed(msgs: seq<Msg>, instruction: string, hint: string)
    ensures var r := Merge(Framed(msgs, instruction, hint));
      && r[0].role == System
      && instruction <= r[0].content
      && r[|r| - 1].role == Assistant
      && (if msgs != [] && msgs[|msgs| - 1].role == Assistant
          then EndsWith(r[|r| - 1].content, msgs[|msgs| - 1].content + Separator + hint)
          else r[|r| - 1].content == hint)
  {
    var front := [Msg(System, instruction)] + msgs;
    var f := Framed(msgs, instruction, hint);
    assert f == front + [Msg(Assistant, hint)];
    MergeFirst(f);
    assert front[|front| - 1] == if msgs == [] then Msg(System, instruction) else msgs[|msgs| - 1];
    MergeEnds(front, Msg(Assistant, hint));
  }

  /** build_prompt puts a system message first and an assistant message last, for every variant. */
  lemma BuildPromptFraming(p: Provider, msgs: seq<Msg>, rt: ReturnType, instruction: string)
    ensures var r := BuildPrompt(p, msgs, rt, instruction);
      && r != []
      && Alternating(r)
      && r[0].role == System
      && r[|r| - 1].role == Assistant
      && (p != Llama2 ==> instruction <= r[0].content)
      && (p == Llama2 ==> SysOpen + instruction <= r[0].content)
      && (if msgs != [] && msgs[|msgs| - 1].role == Assistant
          then EndsWith(r[|r| - 1].content, msgs[|msgs| - 1].content + Separator + AssistantHint(rt))
          else r[|r| - 1].content == AssistantHint(rt))
  {
    var hint := AssistantHint(rt);
    var f := Framed(msgs, instruction, hint);
    NormalizeRoles(f, true);
    MergeAlternates(f);
    MergeFramed(msgs, instruction, hint);
    var merged := Merge(f);
    if p == Llama2 {
      LlamaTokensKeepShape(merged);
      var c := merged[0].content;
      assert LlamaTokens(merged)[0].content == SysOpen + c + SysClose;
      assert (SysOpen + c + SysClose)[..|SysOpen| + |instruction|] == SysOpen + instruction;
    }
  }

  /** `[a] + parts` joins as a, the separator, then the parts joined. */
  lemma {:induction false} JoinCons(a: string, parts: seq<string>, sep: string)
    requires parts != []
    ensures Join([a] + parts, sep) == a + sep + Join(parts, sep)
  {
    var n := |parts| - 1;
    if n == 0 {
      assert [a] + parts == [a] + [parts[0]];
      JoinSnoc([a], parts[0], sep);
    } else {
      assert [a] + parts == ([a] + parts[..n]) + [parts[n]];
      JoinCons(a, parts[..n], sep);
      JoinSnoc([a] + parts[..n], parts[n], sep);
      JoinSnoc(parts[..n], parts[n], sep);
      assert parts[..n] + [parts[n]] == parts;
    }
  }

  /** The framed list joined: the instruction, the caller's messages, then the hint. */
  lemma JoinFramed(msgs: seq<Msg>, instruction: string, hint: string)
    ensures Join(Contents(Framed(msgs, instruction, hint)), Separator) ==
      instruction + Separator
      + (if msgs == [] then "" else Join(Contents(msgs), Separator) + Separator)
      + hint
  {
    var front := [Msg(System, instruction)] + msgs;
    assert Framed(msgs, instruction, hint) == front + [Msg(Assistant, hint)];
    ContentsSnoc(front, Msg(Assistant, hint));
    JoinSnoc(Contents(front), hint, Separator);
    if msgs != [] {
      assert Contents(front) == [instruction] + Contents(msgs);
      JoinCons(instruction, Contents(msgs), Separator);
    } else {
      assert Contents(front) == [instruction];
    }
  }

  /**
   * build_prompt loses nothing: outside Llama2, the messages joined by the separator are the
   * instruction, the caller's messages and the hint joined the same way.
   */
  lemma BuildPromptKeepsContent(p: Provider, msgs: seq<Msg>, rt: ReturnType, instruction: string)
    requires p != Llama2
    ensures Join(Contents(BuildPrompt(p, msgs, rt, instruction)), Separator) ==
      instruction + Separator
      + (if msgs == [] then "" else Join(Contents(msgs), Separator) + Separator)
      + AssistantHint(rt)
  {
    var f := Framed(msgs, instruction, AssistantHint(rt));
    NormalizeRoles(f, true);
    MergeKeepsJoinedContent(f);
    JoinFramed(msgs, instruction, AssistantHint(rt));
  }

  /** Strips the Llama2 tokens from every message. */
  function LlamaUnwrapAll(s: seq<Msg>): seq<Msg>
  {
    seq(|s|, i requires 0 <= i < |s| => LlamaUnwrap(s[i]))
  }

  /**
   * Llama2 loses nothing either: with the tokens stripped, its messages joined by the
   * separator are the instruction, the caller's messages and the hint joined the same way.
   */
  lemma LlamaBuildPromptKeepsContent(msgs: seq<Msg>, rt: ReturnType, instruction: string)
    ensures Join(Contents(LlamaUnwrapAll(BuildPrompt(Llama2, msgs, rt, instruction))), Separator) ==
      instruction + Separator
      + (if msgs == [] then "" else Join(Contents(msgs), Separator) + Separator)
      + AssistantHint(rt)
  {
    var f := Framed(msgs, instruction, AssistantHint(rt));
    NormalizeRoles(f, true);
    var merged := Merge(f);
    LlamaTokensKeepShape(merged);
    assert LlamaUnwrapAll(LlamaTokens(merged)) == merged;
    MergeKeepsJoinedContent(f);
    JoinFramed(msgs, instruction, AssistantHint(rt));
  }

  // ---------------------------------------------------------------------------
  // Cohere Command and Command-R

  /** One entry of format_messages' output: {"role": ..., "message": ...}. */
  datatype Turn = Turn(role: string, message: string)

  const InstructionsPrefix: string := "## Instructions\n"

  /** The role_converter table; it maps every role. */
  function CohereRole(r: Role): (name: string)
    ensures name == "CHATBOT" <==> r == Assistant
    ensures name == "USER" || name == "CHATBOT"
  {
    match r
    case User => "USER"
    case System => "USER"
    case Assistant => "CHATBOT"
  }

  /** format_messages' rewrite of the message itself: system content gets the prefix. */
  function Instructed(m: Msg): (r: Msg)
    ensures r.role == m.role
    ensures m.role == System ==> InstructionsPrefix <= r.content && r.content[|InstructionsPrefix|..] == m.content
    ensures m.role != System ==> r == m
  {
    if m.role == System then Msg(System, InstructionsPrefix + m.content) else m
  }

  function InstructAll(s: seq<Msg>): seq<Msg>
  {
    seq(|s|, i requires 0 <= i < |s| => Instructed(s[i]))
  }

  function CohereTurn(m: Msg): Turn
  {
    Turn(CohereRole(m.role), Instructed(m).content)
  }

  /** CohereCommand.format_messages on values. */
  function CohereTurns(s: seq<Msg>): (r: seq<Turn>)
    ensures |r| == |s|
  {
    seq(|s|, i requires 0 <= i < |s| => CohereTurn(s[i]))
  }

  /**
   * format_messages keeps one entry per message, in order; only assistant messages become
   * CHATBOT, and the original content is the message with the prefix removed for system
   * messages and the message itself otherwise.
   */
  lemma CohereTurnsFaithful(s: seq<Msg>)
    ensures |CohereTurns(s)| == |s|
    ensures forall i :: 0 <= i < |s| ==>
      (CohereTurns(s)[i].role == "CHATBOT" <==> s[i].role == Assistant)
    ensures forall i :: 0 <= i < |s| ==>
      CohereTurns(s)[i].role == "CHATBOT" || CohereTurns(s)[i].role == "USER"
    ensures forall i :: 0 <= i < |s| ==>
      if s[i].role == System
      then InstructionsPrefix <= CohereTurns(s)[i].message
           && CohereTurns(s)[i].message[|InstructionsPrefix|..] == s[i].content
      else CohereTurns(s)[i].message == s[i].content
  {
  }

  /** One prompt line: "ROLE: message". */
  function TurnLine(t: Turn): (line: string)
    ensures |line| == |t.role| + 2 + |t.message|
    ensures line[..|t.role|] == t.role && line[|t.role|..|t.role| + 2] == ": "
    ensures line[|t.role| + 2..] == t.message
  {
    t.role + ": " + t.message
  }

  /** The Cohere prompt: one line per turn, joined by newlines. */
  function CoherePrompt(turns: seq<Turn>): string
  {
    Join(seq(|turns|, i requires 0 <= i < |turns| => TurnLine(turns[i])), "\n")
  }

  // ---------------------------------------------------------------------------
  // Request bodies

  /** The fields of the JSON body each variant sends, by name. */
  datatype Body =
    | LlamaBody(maxGenLen: Value, prompt: string, temperature: Value)
    | CohereBody(prompt: string, stopSequences: Value, temperature: Value)
    | CohereRBody(message: string, maxTokens: Value, stopSequences: Value, temperature: Value)
    | ClaudeBody(system: string, maxTokens: Value, messages: seq<Msg>, temperature: Value,
                 anthropicVersion: Value)

  /** NotImplementedError from the abstract Model; IndexError from Claude's pop(0). */
  datatype Error = NotImplemented | PopFromEmptyList

  /** `settings.get("temperature") or uniform(0, 1)`, with the drawn number as `sample`. */
  function Temperature(settings: Config, sample: real): (r: Value)
    ensures r == Real(sample) || ("temperature" in settings && r == settings["temperature"] && Truthy(r))
  {
    Setting(settings, "temperature", Real(sample))
  }

  /** Llama2.bedrock_format. */
  function LlamaFormat(msgs: seq<Msg>, settings: Config, sample: real): Body
  {
    LlamaBody(Setting(settings, "max_gen_len", MaxGenLenDefault),
              Join(Contents(msgs), "\n"),
              Temperature(settings, sample))
  }

  /** CohereCommand.bedrock_format, from the entries format_messages produced. */
  function CohereFormat(turns: seq<Turn>, settings: Config, sample: real): Body
  {
    CohereBody(CoherePrompt(turns),
               Setting(settings, "stop_sequences", StopSequencesDefault),
               Temperature(settings, sample))
  }

  /** CohereCommandR.bedrock_format, from the entries format_messages produced. */
  function CohereRFormat(turns: seq<Turn>, settings: Config, sample: real): Body
  {
    CohereRBody(CoherePrompt(turns),
                CommandRMaxTokens,
                Setting(settings, "stop_sequences", StopSequencesDefault),
                Temperature(settings, sample))
  }

  /** Claude.bedrock_format: the first message becomes `system`, the rest `messages`. */
  function ClaudeFormat(msgs: seq<Msg>, settings: Config, sample: real): Result<Body, Error>
  {
    if msgs == [] then Err(PopFromEmptyList)
    else
      Ok(ClaudeBody(msgs[0].content,
                    Setting(settings, "max_tokens", ClaudeMaxTokensDefault),
                    msgs[1..],
                    Temperature(settings, sample),
                    Setting(settings, "anthropic_version", AnthropicVersionDefault)))
  }

  /** bedrock_format as each variant defines it. */
  function BedrockFormat(p: Provider, msgs: seq<Msg>, settings: Config, sample: real): Result<Body, Error>
  {
    match p
    case Generic => Err(NotImplemented)
    case Llama2 => Ok(LlamaFormat(msgs, settings, sample))
    case CohereCommand => Ok(CohereFormat(CohereTurns(msgs), settings, sample))
    case CohereCommandR => Ok(CohereRFormat(CohereTurns(msgs), settings, sample))
    case Claude => ClaudeFormat(msgs, settings, sample)
  }

  /** bedrock_format fails exactly for the abstract base and for Claude on an empty list. */
  lemma BedrockFormatErrors(p: Provider, msgs: seq<Msg>, settings: Config, sample: real)
    ensures BedrockFormat(p, msgs, settings, sample) == Err(NotImplemented) <==> p == Generic
    ensures BedrockFormat(p, msgs, settings, sample) == Err(PopFromEmptyList) <==>
      p == Claude && msgs == []
    ensures BedrockFormat(p, msgs, settings, sample).Err? <==>
      p == Generic || (p == Claude && msgs == [])
  {
  }

  /** Claude's body loses nothing: its system text and messages rebuild the input list. */
  lemma ClaudeSplitRoundTrip(msgs: seq<Msg>, settings: Config, sample: real)
    requires msgs != []
    ensures var b := ClaudeFormat(msgs, settings, sample);
      b.Ok? && b.value.ClaudeBody? && [Msg(msgs[0].role, b.value.system)] + b.value.messages == msgs
  {
  }

  /**
   * Every optional field follows `or`: a configured truthy value is sent as it is, anything
   * else sends the default; Command-R's max_tokens ignores the settings.
   */
  lemma SettingsFallback(p: Provider, msgs: seq<Msg>, settings: Config, sample: real)
    requires p != Generic && !(p == Claude && msgs == [])
    ensures var b := BedrockFormat(p, msgs, settings, sample).value;
      && b.temperature == (if Truthy(Get(settings, "temperature")) then settings["temperature"] else Real(sample))
      && (p == Llama2 ==>
            b.maxGenLen == (if Truthy(Get(settings, "max_gen_len")) then settings["max_gen_len"] else Int(2048)))
      && (p == CohereCommand || p == CohereCommandR ==>
            b.stopSequences == (if Truthy(Get(settings, "stop_sequences")) then settings["stop_sequences"]
                                else List([Str("User:")])))
      && (p == CohereCommandR ==> b.maxTokens == Int(20000))
      && (p == Claude ==>
            b.maxTokens == (if Truthy(Get(settings, "max_tokens")) then settings["max_tokens"] else Int(8000)))
      && (p == Claude ==>
            b.anthropicVersion == (if Truthy(Get(settings, "anthropic_version")) then settings["anthropic_version"]
                                   else Str("bedrock-2023-05-31")))
  {
  }

  /**
   * The body's temperature is the sampled number exactly when no truthy temperature is
   * configured, or the configured one is that same number.
   */
  lemma TemperatureIsSample(settings: Config, sample: real)
    ensures Temperature(settings, sample) == Real(sample) <==>
      !Truthy(Get(settings, "temperature")) || settings["temperature"] == Real(sample)
  {
  }

  /**
   * Llama2's constructor passes no settings to Model's, which stores an empty mapping, so a
   * constructed Llama2 always sends the default max_gen_len and the sampled temperature.
   */
  lemma LlamaConstructedDefaults(msgs: seq<Msg>, sample: real)
    ensures LlamaFormat(msgs, map[], sample) == LlamaBody(Int(2048), Join(Contents(msgs), "\n"), Real(sample))
  {
  }

  // ---------------------------------------------------------------------------
  // From the caller's messages to the request body

  /** bedrock_format applied to build_prompt's result. */
  function Request(p: Provider, msgs: seq<Msg>, rt: ReturnType, instruction: string,
                   settings: Config, sample: real): Result<Body, Error>
  {
    BedrockFormat(p, BuildPrompt(p, msgs, rt, instruction), settings, sample)
  }

  /** After build_prompt only the abstract base fails: Claude always has a message to pop. */
  lemma RequestFailsOnlyForGeneric(p: Provider, msgs: seq<Msg>, rt: ReturnType, instruction: string,
                                   settings: Config, sample: real)
    ensures Request(p, msgs, rt, instruction, settings, sample).Err? <==> p == Generic
  {
    BuildPromptFraming(p, msgs, rt, instruction);
  }

  /**
   * Claude's request: `system` starts with the instruction, `messages` alternate and end
   * with the assistant hint, and hold no system message unless the caller sent one.
   */
  lemma ClaudeRequestShape(msgs: seq<Msg>, rt: ReturnType, instruction: string,
                           settings: Config, sample: real)
    ensures var b := Request(Claude, msgs, rt, instruction, settings, sample);
      && b.Ok? && b.value.ClaudeBody?
      && instruction <= b.value.system
      && Alternating(b.value.messages)
      && b.value.messages != []
      && b.value.messages[|b.value.messages| - 1].role == Assistant
      && ((forall i :: 0 <= i < |msgs| ==> msgs[i].role != System) ==>
            forall i :: 0 <= i < |b.value.messages| ==> b.value.messages[i].role != System)
  {
    var f := Framed(msgs, instruction, AssistantHint(rt));
    var r := BuildPrompt(Claude, msgs, rt, instruction);
    BuildPromptFraming(Claude, msgs, rt, instruction);
    assert |r| >= 2 by {
      assert r[0].role != r[|r| - 1].role;
    }
    var b := Request(Claude, msgs, rt, instruction, settings, sample);
    assert b.Ok? && b.value.ClaudeBody? && b.value.system == r[0].content && b.value.messages == r[1..];
    AlternatingTail(r);
    if forall i :: 0 <= i < |msgs| ==> msgs[i].role != System {
      NormalizeRoles(f, true);
      FramedSystemOnlyFirst(msgs, instruction, AssistantHint(rt));
      MergeKeepsRoleOutOfTail(f, System);
      RoleOutOfTail(r, System);
    }
  }

  /** Dropping the first message of an alternating list leaves it alternating. */
  lemma AlternatingTail(s: seq<Msg>)
    requires Alternating(s) && s != []
    ensures Alternating(s[1..])
  {
    var t := s[1..];
    forall i, j | 0 <= i < j < |t| && j == i + 1 ensures t[i].role != t[j].role {
      assert t[i] == s[i + 1] && t[j] == s[j + 1];
    }
  }

  lemma RoleOutOfTail(s: seq<Msg>, role: Role)
    requires s != []
    requires forall i :: 1 <= i < |s| ==> s[i].role != role
    ensures forall i :: 0 <= i < |s[1..]| ==> s[1..][i].role != role
  {
    forall i | 0 <= i < |s[1..]| ensures s[1..][i].role != role {
      assert s[1..][i] == s[i + 1];
    }
  }

  /** Framing puts the only system message first when the caller sent none. */
  lemma FramedSystemOnlyFirst(msgs: seq<Msg>, instruction: string, hint: string)
    requires forall i :: 0 <= i < |msgs| ==> msgs[i].role != System
    ensures var f := Framed(msgs, instruction, hint);
      forall i :: 1 <= i < |f| ==> f[i].role != System
  {
    var f := Framed(msgs, instruction, hint);
    forall i | 1 <= i < |f| ensures f[i].role != System {
      if i <= |msgs| {
        assert f[i] == msgs[i - 1];
      }
    }
  }

  // ---------------------------------------------------------------------------
  // The prompt strings of the Llama2 and Cohere requests

  /** A join starts with its first part. */
  lemma {:induction false} JoinFirst(parts: seq<string>, sep: string)
    requires parts != []
    ensures parts[0] <= Join(parts, sep)
  {
    var n := |parts| - 1;
    if n > 0 {
      JoinFirst(parts[..n], sep);
      assert Join(parts, sep) == Join(parts[..n], sep) + sep + parts[n];
    }
  }

  /** A prefix stays a prefix behind a common head. */
  lemma PrefixBehind(head: string, a: string, b: string)
    requires a <= b
    ensures head + a <= head + b
  {
    assert (head + b)[..|head + a|] == head + b[..|a|];
  }

  /** Llama2's prompt opens with the instruction inside the system tokens. */
  lemma LlamaRequestShape(msgs: seq<Msg>, rt: ReturnType, instruction: string,
                          settings: Config, sample: real)
    ensures var b := Request(Llama2, msgs, rt, instruction, settings, sample);
      b.Ok? && b.value.LlamaBody? && SysOpen + instruction <= b.value.prompt
  {
    var r := BuildPrompt(Llama2, msgs, rt, instruction);
    BuildPromptFraming(Llama2, msgs, rt, instruction);
    var lines := Contents(r);
    JoinFirst(lines, "\n");
    assert lines[0] == r[0].content;
  }

  /** A Cohere prompt whose first message is a system one opens with its prefixed content. */
  lemma CoherePromptOpens(s: seq<Msg>)
    requires s != [] && s[0].role == System
    ensures "USER: " + InstructionsPrefix + s[0].content <= CoherePrompt(CohereTurns(s))
  {
    var turns := CohereTurns(s);
    var lines := seq(|turns|, i requires 0 <= i < |turns| => TurnLine(turns[i]));
    JoinFirst(lines, "\n");
    assert lines[0] == "USER: " + (InstructionsPrefix + s[0].content);
  }

  /**
   * Both Cohere prompts open with a USER line holding the prefixed instruction: the
   * instruction's system message is first after build_prompt.
   */
  lemma CohereRequestShape(p: Provider, msgs: seq<Msg>, rt: ReturnType, instruction: string,
                           settings: Config, sample: real)
    requires p == CohereCommand || p == CohereCommandR
    ensures var b := Request(p, msgs, rt, instruction, settings, sample);
      && b.Ok?
      && (p == CohereCommand ==> b.value.CohereBody? && "USER: " + InstructionsPrefix + instruction <= b.value.prompt)
      && (p == CohereCommandR ==> b.value.CohereRBody? && "USER: " + InstructionsPrefix + instruction <= b.value.message)
  {
    var r := BuildPrompt(p, msgs, rt, instruction);
    BuildPromptFraming(p, msgs, rt, instruction);
    CoherePromptOpens(r);
    var head := "USER: " + InstructionsPrefix;
    PrefixBehind(head, instruction, r[0].content);
    assert head + instruction <= CoherePrompt(CohereTurns(r));
  }

  // ---------------------------------------------------------------------------
  // Worked examples

  /** The merge of the framed list [system "A", user "B"]: the two system messages join. */
  lemma MergeExample(instruction: string, hint: string)
    ensures Merge([Msg(System, instruction), Msg(System, "A"), Msg(User, "B"), Msg(Assistant, hint)])
         == [Msg(System, instruction + Separator + "A"), Msg(User, "B"), Msg(Assistant, hint)]
  {
    var s1 := [Msg(System, instruction)];
    var s2 := s1 + [Msg(System, "A")];
    var s3 := s2 + [Msg(User, "B")];
    var s4 := s3 + [Msg(Assistant, hint)];
    MergeSnoc([], Msg(System, instruction));
    assert [] + [Msg(System, instruction)] == s1;
    MergeSnoc(s1, Msg(System, "A"));
    var m2 := [Msg(System, instruction + Separator + "A")];
    assert Merge(s2) == m2;
    MergeSnoc(s2, Msg(User, "B"));
    assert Merge(s3) == m2 + [Msg(User, "B")];
    MergeSnoc(s3, Msg(Assistant, hint));
    assert s4 == [Msg(System, instruction), Msg(System, "A"), Msg(User, "B"), Msg(Assistant, hint)];
  }

  /**
   * Claude on a caller system message "A" and a user message "B": the instruction and "A"
   * merge into `system`, and `messages` holds "B" followed by the assistant hint.
   */
  lemma ClaudeExample(rt: ReturnType, instruction: string, settings: Config, sample: real)
    ensures var b := Request(Claude, [Msg(System, "A"), Msg(User, "B")], rt, instruction, settings, sample);
      && b.Ok? && b.value.ClaudeBody?
      && b.value.system == instruction + Separator + "A"
      && b.value.messages == [Msg(User, "B"), Msg(Assistant, AssistantHint(rt))]
  {
    var hint := AssistantHint(rt);
    var f := Framed([Msg(System, "A"), Msg(User, "B")], instruction, hint);
    assert f == [Msg(System, instruction), Msg(System, "A"), Msg(User, "B"), Msg(Assistant, hint)];
    NormalizeRoles(f, true);
    MergeExample(instruction, hint);
    var r := [Msg(System, instruction + Separator + "A"), Msg(User, "B"), Msg(Assistant, hint)];
    assert BuildPrompt(Claude, [Msg(System, "A"), Msg(User, "B")], rt, instruction) == r;
    assert r[1..] == [Msg(User, "B"), Msg(Assistant, hint)];
  }

  /** build_prompt for Llama2 on one user message with a plain return type. */
  lemma LlamaExamplePrompt(text: string, instruction: string)
    ensures BuildPrompt(Llama2, [Msg(User, text)], TypeName("text"), instruction)
         == [Msg(System, SysOpen + instruction + SysClose), Msg(User, InstOpen + text + InstClose),
             Msg(Assistant, "")]
  {
    var hint := AssistantHint(TypeName("text"));
    assert hint == "" by {
      assert ReturnTypeName(TypeName("text")) != "json";
    }
    var f := Framed([Msg(User, text)], instruction, hint);
    assert f == [Msg(System, instruction), Msg(User, text), Msg(Assistant, "")];
    NormalizeRoles(f, true);
    MergeOfAlternating(f);
    assert Normalize(f, true) == f;
    assert FixAndMerge(Llama2, f) == LlamaTokens(f);
  }

  /** Three parts joined. */
  lemma JoinThree(a: string, b: string, c: string, sep: string)
    ensures Join([a, b, c], sep) == a + sep + b + sep + c
  {
    JoinSnoc([a], b, sep);
    assert [a] + [b] == [a, b];
    JoinSnoc([a, b], c, sep);
    assert [a, b] + [c] == [a, b, c];
  }

  /**
   * Llama2 on one user message (such as "Summarize X") with the plain return type "text":
   * one system block, one instruction block holding the message, and the empty hint after the last newline.
   */
  lemma LlamaExample(text: string, instruction: string, settings: Config, sample: real)
    ensures var b := Request(Llama2, [Msg(User, text)], TypeName("text"), instruction, settings, sample);
      && b.Ok? && b.value.LlamaBody?
      && b.value.prompt == SysOpen + instruction + SysClose + "\n" + InstOpen + text + InstClose + "\n"
  {
    var sys := SysOpen + instruction + SysClose;
    var inst := InstOpen + text + InstClose;
    var r := BuildPrompt(Llama2, [Msg(User, text)], TypeName("text"), instruction);
    LlamaExamplePrompt(text, instruction);
    assert Contents(r) == [sys, inst, ""];
    JoinThree(sys, inst, "", "\n");
    assert Request(Llama2, [Msg(User, text)], TypeName("text"), instruction, settings, sample)
        == Ok(LlamaFormat(r, settings, sample));
  }

  /** Cohere turns a system message "A" into a USER entry with the instructions heading. */
  lemma CohereExample()
    ensures CohereTurns([Msg(System, "A")]) == [Turn("USER", "## Instructions\nA")]
  {
    assert InstructionsPrefix + "A" == "## Instructions\nA";
  }

  /** Outside Llama2, build_prompt leaves a framed list that already alternates as it is. */
  lemma BuildPromptOfAlternating(p: Provider, msgs: seq<Msg>, rt: ReturnType, instruction: string)
    requires p != Llama2
    requires Alternating(Framed(msgs, instruction, AssistantHint(rt)))
    ensures BuildPrompt(p, msgs, rt, instruction) == Framed(msgs, instruction, AssistantHint(rt))
  {
    var f := Framed(msgs, instruction, AssistantHint(rt));
    NormalizeRoles(f, true);
    MergeOfAlternating(f);
  }

  /** build_prompt for a Cohere variant on one user message: the framed list as it is. */
  lemma CohereUserExamplePrompt(text: string, rt: ReturnType, instruction: string)
    ensures BuildPrompt(CohereCommand, [Msg(User, text)], rt, instruction)
         == [Msg(System, instruction), Msg(User, text), Msg(Assistant, AssistantHint(rt))]
  {
    var hint := AssistantHint(rt);
    var f := Framed([Msg(User, text)], instruction, hint);
    assert f == [Msg(System, instruction), Msg(User, text), Msg(Assistant, hint)];
    assert Alternating(f) by {
      assert f[0].role != f[1].role && f[1].role != f[2].role;
    }
    BuildPromptOfAlternating(CohereCommand, [Msg(User, text)], rt, instruction);
  }

  /**
   * Cohere on one user message: the system role is kept through the merge, so the
   * instruction and the caller's message become two USER turns in a row.
   */
  lemma CohereUserExample(text: string, rt: ReturnType, instruction: string)
    ensures CohereTurns(BuildPrompt(CohereCommand, [Msg(User, text)], rt, instruction))
         == [Turn("USER", InstructionsPrefix + instruction), Turn("USER", text), Turn("CHATBOT", AssistantHint(rt))]
  {
    var r := [Msg(System, instruction), Msg(User, text), Msg(Assistant, AssistantHint(rt))];
    CohereUserExamplePrompt(text, rt, instruction);
    assert CohereTurns(r) == [CohereTurn(r[0]), CohereTurn(r[1]), CohereTurn(r[2])];
  }
}
