# pydantic-prompter: message normalisation and provider formatting

This project models how pydantic-prompter turns a caller's chat messages into the request
body for a Bedrock-hosted model (`src/pydantic_prompter/llm_providers/model.py`). There
are three stages:

- **`build_prompt`** puts a system message holding the rendered instruction at the front of
  the caller's list. It appends an assistant message holding the hint (a ```` ```json ````
  fence opener or nothing).
- **`fix_and_merge_messages`** makes one left-to-right pass. It demotes `system` to `user`
  when the variant has no system role. It appends each message's content to the previously
  accepted message, after `"\n\n"`, when the two share a role.
- **`bedrock_format`** builds the body of each variant:
  - Llama2 wraps system and user content in its special tokens and joins the lines with
    `"\n"`.
  - Cohere Command and Command-R map roles through a fixed table, prefix system content
    with `"## Instructions\n"`, and join `"ROLE: message"` lines.
  - Claude pops the first message into a `system` field and sends the rest as `messages`.
  - Optional settings follow Python's `settings.get(key) or default`. The Llama2
    constructor (model.py:107-108) passes no settings to `Model.__init__`, which then stores
    an empty mapping. A Llama2 built that way always sends the default `max_gen_len` 2048
    and the sampled temperature (`ProviderFormat.LlamaConstructedDefaults`). A configured
    value reaches its body only if `model_settings` is reassigned after construction.

The files:

- `messages.dfy` (module `Messages`): roles, message values, `str.join`.
- `settings.dfy` (module `Settings`): the settings mapping, Python truthiness and the `or`
  fallback.
- `normalizer.dfy` (module `MessageNormalizer`): the pass on values, as a left fold
  (`Merge`, `Normalize`). It is characterised by maximal same-role runs and comes with its
  alternation, role, content and idempotence lemmas.
- `provider_format.dfy` (module `ProviderFormat`): the variants as a datatype, plus:
  - `build_prompt` on values;
  - the Llama2 token pass;
  - the Cohere role table and prompt;
  - the request bodies as a datatype with named fields;
  - the framing, round-trip, fallback and request-shape lemmas, and worked examples.
- `model.dfy` (module `Model`): `Message` as a class with mutable `role` and `content`, and
  the loops of the source as methods that rewrite those objects in place.
  - On lists of distinct objects, each method is proved to give its result the values the
    value-level definition prescribes for the values before the call: `Normalize` for the
    base pass, the `ProviderFormat` definitions for the variants and build_prompt.
  - The passes that return a sublist (fix_and_merge_messages, its variants and
    build_prompt) also return distinct objects again, say which objects: the first object of
    each run of equal (demoted) roles, in input order (`RunStarts`), and say which value
    every object they drop ends with. For build_prompt that includes the two objects it
    adds to the caller's list.
  - The pass is tracked by a ghost `Progress` (all values, plus the positions accepted so
    far). Its step function `Step` is proved to act as `MergeInto` on the accepted values.

Python list mutation (`insert`, `append`, `pop`) is modelled by returning the caller's list
after the call (`callerList`, `remaining`). The variant's class attributes appear as
`CapabilitiesOf`.

How the code behaves where one might expect otherwise (the model follows the code):

- No variant demotes the system role. `Model` sets `system_role_supported = True`, Claude
  sets it to `True` again, and no Cohere class overrides it. Cohere maps `system` to `USER`
  only in `format_messages`. The instruction message and a leading caller user message
  therefore become two `USER` turns in a row (`ProviderFormat.CohereUserExample`).
- Claude's `messages` field holds every message after the first, including the trailing
  assistant hint. A caller's leading system message is merged into the instruction, so
  `system` is the instruction, `"\n\n"`, then that message's content
  (`ProviderFormat.ClaudeExample`).
- The hint is a ```` ```json ```` fence both in schema mode and when the free-form type name
  is the string `"json"`, because the template compares `return_type == 'json'`
  (`ProviderFormat.AssistantHint`).
- With an empty hint, the Llama2 prompt still ends with the `"\n"` before the empty
  assistant line (`ProviderFormat.LlamaExample`).

## Model

| member | source | states |
|---|---|---|
| Messages.Join | src/pydantic_prompter/llm_providers/model.py:121 | Python's `sep.join(parts)`: no parts give `""`, one part gives itself, and each further part adds the separator and the part at the end (`Messages.JoinSnoc`); a newline join starts with its first line (`ProviderFormat.JoinFirst`) |
| Settings.Truthy | src/pydantic_prompter/llm_providers/model.py:127 | Python truthiness of a setting value: `None`, `False`, `0`, `0.0`, `""` and `[]` are falsy and everything else is truthy; it decides whether `Setting` falls back |
| Settings.Get | src/pydantic_prompter/llm_providers/model.py:127 | `dict.get`: the configured value, or `None` for a missing key, so a missing key always falls back (`Settings.Setting`) |
| Settings.Setting | src/pydantic_prompter/llm_providers/model.py:127-129 | `get(key) or default`: a truthy configured value is returned as it is; a missing key gives the default; otherwise the result is the default or the configured value, which is then truthy; a truthy default always gives a truthy result |
| MessageNormalizer.DemoteRole | src/pydantic_prompter/llm_providers/model.py:32-33 | the role rewrite of the loop: only `system` changes, to `user`, and only when the variant has no system role; its effect on the pass is `NormalizeRoles` |
| MessageNormalizer.Demote | src/pydantic_prompter/llm_providers/model.py:32-33 | a message with its role rewritten by `DemoteRole` and its content kept |
| MessageNormalizer.DemoteAll | src/pydantic_prompter/llm_providers/model.py:31-33 | every message demoted, in order; the pass compares and merges these values |
| MessageNormalizer.MergeInto | src/pydantic_prompter/llm_providers/model.py:34-37 | one loop step on the accepted list: a message whose role equals the last accepted one is appended to its content after `"\n\n"`, any other message is appended to the list; `MergeIntoAlternates`, `JoinMergeInto` and `Model.StepPicked` pin it down |
| MessageNormalizer.Normalize | src/pydantic_prompter/llm_providers/model.py:28-38 | fix_and_merge_messages on values, the left fold of `MergeInto` over the demoted list; `MergeIsCollapsedRuns` gives its output run by run, `NormalizeRoles`, `MergeKeepsJoinedContent` and `NormalizeIdempotent` its roles, content and idempotence, and `Model.FixAndMerge` realises it on objects |
| MessageNormalizer.Merge | src/pydantic_prompter/llm_providers/model.py:30-38 | the pass never lengthens the list, and its output is empty exactly when its input is |
| MessageNormalizer.MergeAlternates | src/pydantic_prompter/llm_providers/model.py:34-37 | after the pass no two neighbours share a role, and the last output carries the last input's role |
| MessageNormalizer.MergeIntoAlternates | src/pydantic_prompter/llm_providers/model.py:34-37 | one merge-or-append step keeps an alternating list alternating and leaves the new message's role last |
| MessageNormalizer.MergeKeepsRoles | src/pydantic_prompter/llm_providers/model.py:30-38 | the output carries exactly the set of roles of the input |
| MessageNormalizer.NormalizeSnoc | src/pydantic_prompter/llm_providers/model.py:31-37 | the pass with demotion is a left fold: one more input is one more step on its demoted value |
| MessageNormalizer.PassPrefixIsNormalize | src/pydantic_prompter/llm_providers/model.py:31-37 | the accepted list after visiting the first n inputs is the pass over those n inputs |
| MessageNormalizer.PassIsNormalize | src/pydantic_prompter/llm_providers/model.py:30-38 | the loop run over the whole list is the pass over the whole list |
| MessageNormalizer.StartsRun | src/pydantic_prompter/llm_providers/model.py:34-37 | message j opens a run: it is first, or its demoted role differs from its predecessor's; these are exactly the messages the loop appends instead of merging (`Model.PassAtStarts`) |
| MessageNormalizer.RunStarts | src/pydantic_prompter/llm_providers/model.py:31-37 | the positions below n where a run opens, in increasing order; each listed position is below n |
| MessageNormalizer.RunStartsMembers | src/pydantic_prompter/llm_providers/model.py:34-37 | a position below n is listed exactly when a run opens there |
| MessageNormalizer.NormalizeRoles | src/pydantic_prompter/llm_providers/model.py:32-33 | without a system role no output is `system`; with one the roles are untouched; the output roles are exactly the demoted input roles |
| MessageNormalizer.MergeKeepsJoinedContent | src/pydantic_prompter/llm_providers/model.py:34-37 | no content is lost or reordered: outputs joined with `"\n\n"` equal inputs joined with `"\n\n"` |
| MessageNormalizer.JoinMergeInto | src/pydantic_prompter/llm_providers/model.py:34-37 | one step adds exactly the separator and the new content to the joined text |
| MessageNormalizer.Runs | src/pydantic_prompter/llm_providers/model.py:30-38 | every list splits, in order, into maximal blocks of consecutive same-role messages |
| MessageNormalizer.MergeIsCollapsedRuns | src/pydantic_prompter/llm_providers/model.py:30-38 | for any such split, output message k is run k's role with run k's contents joined by `"\n\n"` |
| MessageNormalizer.MergeOfAlternating | src/pydantic_prompter/llm_providers/model.py:34-37 | a list that already alternates passes through unchanged |
| MessageNormalizer.NormalizeIdempotent | src/pydantic_prompter/llm_providers/model.py:28-38 | running the pass on its own output changes nothing, with or without a system role |
| MessageNormalizer.MergeFirst | src/pydantic_prompter/llm_providers/model.py:34-37 | the first output keeps the first input's role and starts with its content |
| MessageNormalizer.MergeLastEndsWith | src/pydantic_prompter/llm_providers/model.py:34-35 | the last output ends with the last input's content |
| MessageNormalizer.MergeEnds | src/pydantic_prompter/llm_providers/model.py:34-37 | a message appended to a non-empty list gives the last output its role; that output is the message alone when the previous last input has another role, and otherwise ends with that input's content, `"\n\n"` and the message |
| MessageNormalizer.MergeKeepsRoleOutOfTail | src/pydantic_prompter/llm_providers/model.py:34-37 | a role absent from every input after the first is absent from every output after the first |
| ProviderFormat.Framed | src/pydantic_prompter/llm_providers/model.py:91-92 | the list after `insert(0, system instruction)` and `append(assistant hint)`: the caller's messages between the two |
| ProviderFormat.CapabilitiesOf | src/pydantic_prompter/llm_providers/model.py:16-17 | the class attributes: every variant keeps the system role and has the Llama token switch on (`Model` sets both, line 32 is the only reader of the first, and Claude sets it again at line 238); `NoVariantDemotes` states the consequence |
| ProviderFormat.NoVariantDemotes | src/pydantic_prompter/llm_providers/model.py:28-38 | for every variant both attributes hold, the base pass demotes nothing and equals the plain merge, and the variant's fix_and_merge_messages is that merge, followed by the token pass exactly for Llama2 |
| ProviderFormat.FixAndMerge | src/pydantic_prompter/llm_providers/model.py:110-118 | each variant's fix_and_merge_messages on values: the pass with the variant's capabilities, then for Llama2 the token pass; `Model.FixAndMergeFor` realises it on objects |
| ProviderFormat.BuildPrompt | src/pydantic_prompter/llm_providers/model.py:66-95 | build_prompt on values: the variant's pass over the framed list; `BuildPromptFraming`, `BuildPromptKeepsContent`, `LlamaBuildPromptKeepsContent` and `BuildPromptOfAlternating` pin it down, and `Model.BuildPrompt` realises it on objects |
| ProviderFormat.AssistantHint | src/pydantic_prompter/llm_providers/model.py:78-89 | the hint is empty or the json fence opener, and non-empty exactly in schema mode or when the type name is `"json"` |
| ProviderFormat.ReturnTypeName | src/pydantic_prompter/llm_providers/model.py:75-87 | the `return_type` the templates see: it is `"json"` exactly in schema mode or when the given type name is `"json"` |
| ProviderFormat.LlamaWrap | src/pydantic_prompter/llm_providers/model.py:113-117 | system content between `<<SYS>> ` and ` <</SYS>>`, user content between `[INST] ` and ` [/INST]`, assistant messages as they are; `LlamaUnwrapWrap` shows `LlamaUnwrap` undoes it |
| ProviderFormat.LlamaTokens | src/pydantic_prompter/llm_providers/model.py:112-117 | the token loop on values: one message for each message; `LlamaTokensKeepShape` shows each is the wrapped message with its role |
| ProviderFormat.LlamaUnwrapWrap | src/pydantic_prompter/llm_providers/model.py:114-117 | the special tokens around system and user content can be stripped again to give the message back |
| ProviderFormat.LlamaTokensKeepShape | src/pydantic_prompter/llm_providers/model.py:112-118 | the token pass keeps the length and every role (so alternation), and every message is recovered by unwrapping |
| ProviderFormat.MergeFramed | src/pydantic_prompter/llm_providers/model.py:91-93 | after framing and merging, the first message is `system` and starts with the instruction; the last is `assistant` and is the hint, or ends with a trailing caller assistant message's content, `"\n\n"` and the hint |
| ProviderFormat.BuildPromptFraming | src/pydantic_prompter/llm_providers/model.py:66-95 | for every variant the prompt is non-empty and alternates, starts with a system message beginning with the instruction (behind `<<SYS>> ` for Llama2) and ends with the assistant hint as above |
| ProviderFormat.JoinFramed | src/pydantic_prompter/llm_providers/model.py:91-92 | the framed list joined is the instruction, the caller's contents and the hint, joined with `"\n\n"` |
| ProviderFormat.BuildPromptKeepsContent | src/pydantic_prompter/llm_providers/model.py:91-93 | outside Llama2 the prompt loses nothing: its contents joined are the instruction, the caller's contents and the hint joined |
| ProviderFormat.LlamaBuildPromptKeepsContent | src/pydantic_prompter/llm_providers/model.py:110-118 | Llama2 loses nothing either: with the tokens stripped, its contents joined are the instruction, the caller's contents and the hint joined |
| ProviderFormat.BuildPromptOfAlternating | src/pydantic_prompter/llm_providers/model.py:91-93 | outside Llama2, a framed list that already alternates is the prompt as it is |
| ProviderFormat.FramedRunStarts | src/pydantic_prompter/llm_providers/model.py:91-93 | in a framed list the caller's first message opens a run exactly when it is not a system message, and every later one exactly when its role differs from its predecessor's |
| ProviderFormat.CohereRole | src/pydantic_prompter/llm_providers/model.py:185 | the role table: `CHATBOT` exactly for assistant messages and `USER` for the other two roles |
| ProviderFormat.Instructed | src/pydantic_prompter/llm_providers/model.py:188-189 | keeps the role; a system message's content gains the prefix, and removing it gives the content back; any other message is unchanged |
| ProviderFormat.CohereTurn | src/pydantic_prompter/llm_providers/model.py:190 | one entry: the mapped role and the message's content after `Instructed` |
| ProviderFormat.TurnLine | src/pydantic_prompter/llm_providers/model.py:164 | one prompt line: the role, then `": "`, then the message, each recoverable from its position in the line |
| ProviderFormat.CohereTurns | src/pydantic_prompter/llm_providers/model.py:184-191 | format_messages on values: one entry for each message; `CohereTurnsFaithful` pins each entry's role and message |
| ProviderFormat.CoherePrompt | src/pydantic_prompter/llm_providers/model.py:164 | the `"ROLE: message"` lines joined by `"\n"`; `CoherePromptOpens` and `CohereRequestShape` give how it opens |
| ProviderFormat.CohereTurnsFaithful | src/pydantic_prompter/llm_providers/model.py:184-191 | one entry per message in order; the role is `CHATBOT` exactly for assistant messages and `USER` otherwise; only system content carries the prefix, and the prefix stripped gives the content back |
| ProviderFormat.LlamaFormat | src/pydantic_prompter/llm_providers/model.py:120-132 | Llama2's body: `max_gen_len` with its fallback, the contents joined by `"\n"`, the temperature; `SettingsFallback`, `LlamaConstructedDefaults` and `LlamaRequestShape` pin it down |
| ProviderFormat.CohereFormat | src/pydantic_prompter/llm_providers/model.py:162-173 | Command's body: the prompt of the entries, `stop_sequences` with its fallback, the temperature; `SettingsFallback` and `CohereRequestShape` pin it down |
| ProviderFormat.CohereRFormat | src/pydantic_prompter/llm_providers/model.py:221-234 | Command-R's body: the prompt as `message`, `max_tokens` fixed at 20000, `stop_sequences` with its fallback, the temperature; `SettingsFallback` and `CohereRequestShape` pin it down |
| ProviderFormat.ClaudeFormat | src/pydantic_prompter/llm_providers/model.py:240-254 | Claude's body: the pop error on an empty list, otherwise the first content as `system` and the rest as `messages`, with the fallbacks; `ClaudeSplitRoundTrip` and `SettingsFallback` pin it down |
| ProviderFormat.BedrockFormat | src/pydantic_prompter/llm_providers/model.py:25-26 | bedrock_format by variant, with NotImplementedError for the base class; `BedrockFormatErrors` says exactly when it fails |
| ProviderFormat.Temperature | src/pydantic_prompter/llm_providers/model.py:129 | the body's temperature is the sampled number, or a configured temperature that is truthy |
| ProviderFormat.BedrockFormatErrors | src/pydantic_prompter/llm_providers/model.py:240-241 | bedrock_format fails with NotImplementedError exactly on the abstract base and with the pop error exactly for Claude on an empty list |
| ProviderFormat.ClaudeSplitRoundTrip | src/pydantic_prompter/llm_providers/model.py:241-247 | Claude's `system` is the first message's content and `messages` the rest in order, so together they rebuild the list |
| ProviderFormat.SettingsFallback | src/pydantic_prompter/llm_providers/model.py:221-254 | each optional field is the configured value when truthy and otherwise its default (2048, `["User:"]`, 8000, `"bedrock-2023-05-31"`, the sampled temperature); Command-R's max_tokens is always 20000 |
| ProviderFormat.TemperatureIsSample | src/pydantic_prompter/llm_providers/model.py:129 | the body's temperature is the sampled number exactly when no truthy temperature is configured, or the configured one equals that number |
| ProviderFormat.LlamaConstructedDefaults | src/pydantic_prompter/llm_providers/model.py:106-132 | with the empty mapping the Llama2 constructor leaves, the body is max_gen_len 2048, the newline-joined contents and the sampled temperature |
| ProviderFormat.RequestFailsOnlyForGeneric | src/pydantic_prompter/llm_providers/model.py:240-241 | after build_prompt only the abstract base fails: Claude always has a message to pop |
| ProviderFormat.ClaudeRequestShape | src/pydantic_prompter/llm_providers/model.py:240-254 | Claude's `system` starts with the instruction; `messages` is non-empty, alternates, ends with an assistant message and holds no system message unless the caller sent one |
| ProviderFormat.FramedSystemOnlyFirst | src/pydantic_prompter/llm_providers/model.py:91-92 | when the caller sends no system message, framing puts the only one first |
| ProviderFormat.JoinFirst | src/pydantic_prompter/llm_providers/model.py:121 | a newline join starts with its first line |
| ProviderFormat.LlamaRequestShape | src/pydantic_prompter/llm_providers/model.py:120-132 | Llama2's prompt opens with `<<SYS>> ` and the instruction |
| ProviderFormat.CoherePromptOpens | src/pydantic_prompter/llm_providers/model.py:164 | a Cohere prompt whose first message is a system one opens with `USER: ## Instructions\n` and its content |
| ProviderFormat.CohereRequestShape | src/pydantic_prompter/llm_providers/model.py:162-173 | both Cohere prompts (`prompt`, Command-R's `message`) open with `USER: ## Instructions\n` and the instruction |
| ProviderFormat.MergeExample | src/pydantic_prompter/llm_providers/model.py:34-37 | framing `[system "A", user "B"]` merges the instruction and "A" and keeps the rest |
| ProviderFormat.ClaudeExample | src/pydantic_prompter/llm_providers/model.py:240-254 | Claude on `[system "A", user "B"]`: `system` is the instruction, `"\n\n"`, "A"; `messages` is user "B" then the assistant hint |
| ProviderFormat.LlamaExamplePrompt | src/pydantic_prompter/llm_providers/model.py:110-118 | Llama2's build_prompt on one user message with type "text": one token-wrapped system message, one token-wrapped user message, an empty assistant message |
| ProviderFormat.LlamaExample | src/pydantic_prompter/llm_providers/model.py:120-132 | the same request's prompt is the system block, `"\n"`, the instruction block holding the message, `"\n"` |
| ProviderFormat.CohereExample | src/pydantic_prompter/llm_providers/model.py:184-191 | a system message "A" becomes the entry USER / `"## Instructions\nA"` |
| ProviderFormat.CohereUserExamplePrompt | src/pydantic_prompter/llm_providers/model.py:91-93 | build_prompt on one user message leaves the instruction, the message and the hint as three messages |
| ProviderFormat.CohereUserExample | src/pydantic_prompter/llm_providers/model.py:184-191 | on one user message the Cohere entries are the prefixed instruction as USER, the message as USER, the hint as CHATBOT |
| Model.Step | src/pydantic_prompter/llm_providers/model.py:31-37 | one iteration keeps the number of values and the accepted positions ascending, now below i + 1 |
| Model.PassAt | src/pydantic_prompter/llm_providers/model.py:30-38 | after i iterations the values keep their number and the accepted positions are ascending below i |
| Model.StepFrame | src/pydantic_prompter/llm_providers/model.py:32-37 | an iteration gives input i its demoted role, leaves later inputs alone, changes no other role, and leaves unaccepted earlier inputs untouched |
| Model.StepPicked | src/pydantic_prompter/llm_providers/model.py:34-37 | on the accepted values, an iteration is exactly the merge-or-append step |
| Model.AbsorbPicked | src/pydantic_prompter/llm_providers/model.py:34-35 | when roles agree, the accepted values change as the merge step prescribes |
| Model.AcceptPicked | src/pydantic_prompter/llm_providers/model.py:36-37 | when roles differ, the accepted values grow by the demoted message |
| Model.StepPickedReaches | src/pydantic_prompter/llm_providers/model.py:31-37 | an iteration on an untouched input extends the pass over the prefix by one message |
| Model.StepFrameReaches | src/pydantic_prompter/llm_providers/model.py:31-37 | an iteration keeps later inputs untouched, earlier ones demoted and unaccepted ones with their own content |
| Model.PassAtUntouched | src/pydantic_prompter/llm_providers/model.py:30-38 | after i iterations, inputs from i on are untouched; earlier ones carry their demoted role and, unless accepted, their content |
| Model.PassAtPicked | src/pydantic_prompter/llm_providers/model.py:30-38 | after i iterations the accepted values are the pass over the first i inputs |
| Model.LastAcceptedRole | src/pydantic_prompter/llm_providers/model.py:34-37 | after i > 0 iterations the last accepted value carries the demoted role of input i - 1, the role the next input is compared with |
| Model.PassAtStarts | src/pydantic_prompter/llm_providers/model.py:30-38 | the positions the loop accepts (appends rather than merges) are exactly `RunStarts`, the positions where a run opens |
| Model.StepStarts | src/pydantic_prompter/llm_providers/model.py:34-37 | an iteration accepts its input exactly when a run opens there |
| Model.KeptAtRunStarts | src/pydantic_prompter/llm_providers/model.py:30-38 | on distinct objects, an object is among those selected at the run starts exactly when its position is a run start |
| Model.MirrorsWrite | src/pydantic_prompter/llm_providers/model.py:33-35 | a write to one object of a list of distinct objects changes that position's value only |
| Model.AtSnoc | src/pydantic_prompter/llm_providers/model.py:37 | appending the object at position i to the accepted list records position i |
| Model.MergeStep | src/pydantic_prompter/llm_providers/model.py:32-37 | one loop iteration on the objects: the accepted list stays within the input and grows by at most one, and on distinct objects it does to their values what `Step` does |
| Model.MergeAll | src/pydantic_prompter/llm_providers/model.py:30-38 | the loop leaves accepted objects from the input and, on distinct objects, the values and positions of `PassAt` over the whole list |
| Model.PassOutcome | src/pydantic_prompter/llm_providers/model.py:30-38 | the whole loop on values: the accepted values are the pass, every value has its demoted role, and unaccepted inputs keep their content |
| Model.WrittenInPlace | src/pydantic_prompter/llm_providers/model.py:32-35 | the role and content facts of the loop, read off the objects |
| Model.PassOnObjects | src/pydantic_prompter/llm_providers/model.py:30-38 | on distinct objects the loop returns distinct objects: the ones at the run starts, in input order, whose values are the pass; every input carries its demoted role and each merged-away input keeps its content |
| Model.FixAndMerge | src/pydantic_prompter/llm_providers/model.py:28-38 | returns at most as many objects, all from the input. On distinct objects they stay distinct and are exactly the inputs where a run of equal demoted roles opens, in input order (`RunStarts`: the first input, and each whose demoted role differs from its predecessor's). Their values are the pass over the values before the call, every input has its demoted role, and a merged-away input keeps its content |
| Model.LlamaFixAndMerge | src/pydantic_prompter/llm_providers/model.py:110-118 | never longer than its input and drawn from it; on distinct objects the result is distinct objects, the inputs where a run opens, in input order; their values are the pass followed by the token pass; roles are unchanged and merged-away inputs keep their content |
| Model.FixAndMergeFor | src/pydantic_prompter/llm_providers/model.py:93 | the variant's fix_and_merge_messages on objects: never longer than its input and drawn from it; on distinct objects the result is distinct objects, the run-start objects in input order, with the values of the variant's pass, and every merged-away input keeps the value it had before the call |
| Model.AddSpecialTokens | src/pydantic_prompter/llm_providers/model.py:113-117 | the loop leaves every role as it was and, on distinct objects, each value wrapped in its tokens |
| Model.FormatMessages | src/pydantic_prompter/llm_providers/model.py:184-191 | one entry per message; on distinct objects the entries are the Cohere turns of the values before the call, and every system message now holds the prefixed content |
| Model.Frame | src/pydantic_prompter/llm_providers/model.py:91-92 | the insert and append of build_prompt: the caller's objects between two fresh ones, with the framed values, distinct when the caller's are |
| Model.FramedSnapshot | src/pydantic_prompter/llm_providers/model.py:91-92 | the list after insert and append holds the caller's objects between the two new ones, with the framed values |
| Model.FramedDistinct | src/pydantic_prompter/llm_providers/model.py:91-92 | inserting and appending two fresh objects keeps a list of distinct objects distinct |
| Model.FramedKept | src/pydantic_prompter/llm_providers/model.py:91-93 | a caller's message is kept in the prompt exactly when its role differs from its predecessor's, the instruction's `system` for the first message |
| Model.BuildPrompt | src/pydantic_prompter/llm_providers/model.py:66-95 | the caller's list gains a fresh object at each end, and the prompt's objects come from that list. On distinct objects: the prompt is distinct objects whose values are build_prompt on the values before the call; the prompt is the framed list's run-start objects in order; caller message i is in it exactly when its role differs from message i - 1's (for the first message, when it is not `system`); and every object of the caller's list that is merged away, including the appended hint object, ends with its framed value (a caller message keeps its value) |
| Model.BedrockFormat | src/pydantic_prompter/llm_providers/model.py:240-254 | Claude's list loses its first object and every other list stays; for the base class, Llama2 and Claude the body is the variant's body on the values and no value changes, for any list; for the Cohere variants the same holds on distinct objects, whose system contents gain the prefix |

## Left out

- Jinja2 rendering and `inspect.cleandoc` (model.py:40-64, 71-89): the rendered instruction
  is an input string. The hint is modelled by the template's single branch:
  ```` ```json ```` when the return type is `json`, empty otherwise.
- `json.dumps` of the schema and of the request bodies: a body is a datatype with one field
  per JSON key, and setting values are a small dynamic value type.
- `uniform(0, 1)`: the drawn number is the parameter `sample`; floating point is modelled
  by `real`.
- The `GPT` class (model.py:98-103), whose templates return `None`; `model_name`, the
  module logger, and `__init__`'s `None` to `{}` step (settings are always a map here).
- `pydantic_prompter.common.Message` is not part of this model. Its role is an enumeration
  of the three values the code compares against, and pydantic's `.dict()` is the message
  value.
- Model.MergeStep: says nothing about values when the list holds the same `Message` object
  twice (its link to `Step` is guarded by `Linked`, which requires distinct objects).
- Model.MergeAll: the same restriction, through `Linked`.
- Model.FixAndMerge: says nothing about values when the list holds the same `Message`
  object twice. The Python loop then reads contents that an earlier iteration already
  rewrote, and the model states only that the result is drawn from the input.
- Model.LlamaFixAndMerge: the same restriction to lists of distinct objects.
- Model.FixAndMergeFor: the same restriction to lists of distinct objects.
- Model.AddSpecialTokens: the same restriction; its role guarantee holds for every list.
- Model.FormatMessages: the same restriction; its length guarantee holds for every list.
- Model.BuildPrompt: the same restriction for the caller's objects. The two objects it
  creates are fresh, so they never alias the caller's.
- Model.BedrockFormat: the same restriction, for the Cohere variants only (through
  format_messages).
- Exceptions: `NotImplementedError` and Claude's `pop(0)` become `Err` values
  (`NotImplemented`, `PopFromEmptyList`). Apart from `json.dumps` and template rendering,
  which are left out, nothing else in the core raises. The model does not capture a
  `json.dumps` failure, either on a schema (model.py:75) or on a setting value that cannot
  be serialised (model.py:125, 165, 224, 243), nor a rendering error (model.py:71-89).
- Llama2's constructor (model.py:107-108) is not modelled as an object. Its effect on
  settings is stated by `ProviderFormat.LlamaConstructedDefaults`. Passing settings to it
  would raise a TypeError, which is not modelled.
