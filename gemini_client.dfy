/**
 * The prompt and response shaping of
 * backend/src/infrastructure/gemini/client.rs: the requirement table per
 * difficulty and its injection into a custom scenario, the list of available
 * components spliced into the evaluation prompt, the chat prompt built from
 * a conversation, and the reply text picked out of a model response.
 *
 * The HTTP exchange with the model is not modelled: its status and decoded
 * body are inputs. The prompt template and the component definitions, which
 * the program embeds at compile time, are parameters, as is the rendering of
 * a JSON value as text.
 */
module GeminiClient {
  import opened Wrappers
  import opened Json
  import opened StrUtil
  import opened SeqUtil

  // ---------------------------------------------------------------------
  // Requirements by difficulty (get_difficulty_specs)
  // ---------------------------------------------------------------------

  /** The four requirement fields, in the order the table lists them. */
  datatype Spec = Spec(users: string, traffic: string, budget: string, availability: string)

  const SmallSpec: Spec :=
    Spec("50〜100人程度",
         "運用コストをかけられないため、メンテナンスフリーな構成を好む",
         "月額5,000円以内 (可能な限り安く)",
         "Best Effort (夜間停止可)")
  const MediumSpec: Spec :=
    Spec("10万DAU, ピーク時秒間100リクエスト",
         "急激なアクセス増に耐えられるスケーラビリティが必須",
         "月額50万円〜100万円",
         "High (Multi-AZ推奨)")
  const LargeSpec: Spec :=
    Spec("1000万ユーザー, グローバル展開",
         "単一障害点(SPOF)の完全排除と、データロス発生時の法的リスク回避",
         "無制限（可用性とレイテンシが最優先）",
         "Critical (24/7)")
  const DefaultSpec: Spec :=
    Spec("10万DAU",
         "Standard",
         "Standard",
         "High")

  /** The record for a difficulty: the three named levels have their own,
      every other string gets the default one. */
  function SpecFor(difficulty: string): (s: Spec)
    ensures difficulty == "small" ==> s == SmallSpec
    ensures difficulty == "medium" ==> s == MediumSpec
    ensures difficulty == "large" ==> s == LargeSpec
    ensures difficulty != "small" && difficulty != "medium" && difficulty != "large" ==> s == DefaultSpec
  {
    match difficulty
    case "small" => SmallSpec
    case "medium" => MediumSpec
    case "large" => LargeSpec
    case _ => DefaultSpec
  }

  /** The record as the JSON object `get_difficulty_specs` returns. */
  function SpecJson(s: Spec): (j: Json)
    ensures j.JObject? && j.fields.Keys == {"users", "traffic", "budget", "availability"}
  {
    JObject(map["users" := JString(s.users), "traffic" := JString(s.traffic),
                "budget" := JString(s.budget), "availability" := JString(s.availability)])
  }

  function DifficultySpecs(difficulty: string): (j: Json)
    ensures j.JObject? && j.fields.Keys == {"users", "traffic", "budget", "availability"}
    ensures j == SpecJson(SmallSpec) <==> difficulty == "small"
    ensures j == SpecJson(MediumSpec) <==> difficulty == "medium"
    ensures j == SpecJson(LargeSpec) <==> difficulty == "large"
  {
    SpecsDistinct();
    SpecJsonInjectiveAt(SmallSpec, SpecFor(difficulty));
    SpecJsonInjectiveAt(MediumSpec, SpecFor(difficulty));
    SpecJsonInjectiveAt(LargeSpec, SpecFor(difficulty));
    SpecJson(SpecFor(difficulty))
  }

  /** `SpecJsonInjective` as an equivalence, for any two records. */
  lemma SpecJsonInjectiveAt(a: Spec, b: Spec)
    ensures SpecJson(a) == SpecJson(b) <==> a == b
  {
    if a != b {
      SpecJsonInjective(a, b);
    }
  }

  /** The four records are pairwise different, so the difficulty is never
      lost in the table. */
  lemma SpecsDistinct()
    ensures SmallSpec != MediumSpec && SmallSpec != LargeSpec && SmallSpec != DefaultSpec
    ensures MediumSpec != LargeSpec && MediumSpec != DefaultSpec && LargeSpec != DefaultSpec
  {
    assert SmallSpec.availability[0] == 'B' && MediumSpec.availability[0] == 'H';
    assert LargeSpec.availability[0] == 'C' && |DefaultSpec.availability| == 4;
    assert |MediumSpec.availability| > 4;
  }

  /** Different records give different JSON objects. */
  lemma SpecJsonInjective(a: Spec, b: Spec)
    requires a != b
    ensures SpecJson(a) != SpecJson(b)
  {
    var ja, jb := SpecJson(a), SpecJson(b);
    if a.users != b.users {
      assert ja.fields["users"] != jb.fields["users"];
    } else if a.traffic != b.traffic {
      assert ja.fields["traffic"] != jb.fields["traffic"];
    } else if a.budget != b.budget {
      assert ja.fields["budget"] != jb.fields["budget"];
    } else {
      assert ja.fields["availability"] != jb.fields["availability"];
    }
  }

  // ---------------------------------------------------------------------
  // Requirement override (evaluate_with_gemini)
  // ---------------------------------------------------------------------

  /** `scenario.get("isCustom").and_then(as_bool).unwrap_or(false)`. */
  predicate IsCustom(scenario: Json) {
    Get(scenario, "isCustom") == Some(JBool(true))
  }

  /** `scenario.get("difficulty").and_then(as_str).unwrap_or("medium")`. */
  function DifficultyOf(scenario: Json): string {
    match Get(scenario, "difficulty")
    case Some(JString(d)) => d
    case _ => "medium"
  }

  /** The payload sent to the model: in a custom scenario that has a
      `requirements` entry, the entry is replaced by the record for its
      difficulty; anything else is sent as received. */
  function InjectCustomRequirements(payload: Json): (r: Json)
    ensures r.JObject? <==> payload.JObject?
    ensures forall k :: k != "scenario" ==> Get(r, k) == Get(payload, k)
    ensures Get(r, "scenario").Some? <==> Get(payload, "scenario").Some?
  {
    match Get(payload, "scenario")
    case Some(sc) =>
      if IsCustom(sc) && Get(sc, "requirements").Some? then
        JObject(payload.fields["scenario" := JObject(sc.fields["requirements" := DifficultySpecs(DifficultyOf(sc))])])
      else payload
    case None => payload
  }

  /** Only a custom scenario is touched. */
  lemma NonCustomUnchanged(payload: Json)
    requires Get(payload, "scenario").None? || !IsCustom(Get(payload, "scenario").value)
    ensures InjectCustomRequirements(payload) == payload
  {
  }

  /** A custom scenario without a `requirements` entry is not given one. */
  lemma MissingRequirementsNotAdded(payload: Json)
    requires Get(payload, "scenario").Some? && Get(Get(payload, "scenario").value, "requirements").None?
    ensures InjectCustomRequirements(payload) == payload
  {
  }

  /** In a custom scenario with requirements, exactly the requirements
      change: they become the record for the scenario's difficulty ("medium"
      when it is missing or not a string). */
  lemma CustomRequirementsReplaced(payload: Json)
    requires Get(payload, "scenario").Some?
    requires var sc := Get(payload, "scenario").value;
             IsCustom(sc) && Get(sc, "requirements").Some?
    ensures var sc := Get(payload, "scenario").value;
            var sc' := Index(InjectCustomRequirements(payload), "scenario");
            && Get(sc', "requirements") == Some(DifficultySpecs(DifficultyOf(sc)))
            && (forall k :: k != "requirements" ==> Get(sc', k) == Get(sc, k))
            && (Get(sc, "difficulty").None? ==> Get(sc', "requirements") == Some(SpecJson(MediumSpec)))
  {
  }

  /** Injecting twice is injecting once. */
  lemma InjectIdempotent(payload: Json)
    ensures InjectCustomRequirements(InjectCustomRequirements(payload)) == InjectCustomRequirements(payload)
  {
    var r := InjectCustomRequirements(payload);
    var s := Get(payload, "scenario");
    if s.Some? && IsCustom(s.value) && Get(s.value, "requirements").Some? {
      var sc := s.value;
      var sc' := JObject(sc.fields["requirements" := DifficultySpecs(DifficultyOf(sc))]);
      assert Get(r, "scenario") == Some(sc');
      assert IsCustom(sc') && DifficultyOf(sc') == DifficultyOf(sc);
      assert sc'.fields["requirements" := DifficultySpecs(DifficultyOf(sc'))] == sc'.fields;
      assert r.fields["scenario" := sc'] == r.fields;
    }
  }

  // ---------------------------------------------------------------------
  // Available components (build_system_prompt)
  // ---------------------------------------------------------------------

  const Placeholder: string := "{{AVAILABLE_COMPONENTS}}"

  /** One list entry, `    - "<type>"` and a newline. */
  function ItemLine(typeName: string): string {
    "    - \"" + typeName + "\"\n"
  }

  /** The entries for a list of types, in order. */
  function ItemLines(types: seq<string>): string {
    if types == [] then "" else ItemLines(types[..|types| - 1]) + ItemLine(types[|types| - 1])
  }

  /** The item types of every category, category by category. */
  function AllTypes(categories: seq<seq<string>>): seq<string> {
    if categories == [] then [] else AllTypes(categories[..|categories| - 1]) + categories[|categories| - 1]
  }

  lemma ItemLinesSnoc(types: seq<string>, t: string)
    ensures ItemLines(types + [t]) == ItemLines(types) + ItemLine(t)
  {
    assert (types + [t])[..|types|] == types;
  }

  lemma {:induction false} ItemLinesAppend(a: seq<string>, b: seq<string>)
    ensures ItemLines(a + b) == ItemLines(a) + ItemLines(b)
    decreases |b|
  {
    if b == [] {
      assert a + b == a;
    } else {
      var init, last := b[..|b| - 1], b[|b| - 1];
      SplitLast(b);
      ItemLinesAppend(a, init);
      ItemLinesAppendStep(a, init, last);
    }
  }

  /** The inductive step of `ItemLinesAppend`: one more type at the end. */
  lemma ItemLinesAppendStep(a: seq<string>, init: seq<string>, last: string)
    requires ItemLines(a + init) == ItemLines(a) + ItemLines(init)
    ensures ItemLines(a + (init + [last])) == ItemLines(a) + ItemLines(init + [last])
  {
    SnocAssoc(a, init, last);
    ItemLinesSnoc(a + init, last);
    ItemLinesSnoc(init, last);
    ConcatAssoc(ItemLines(a), ItemLines(init), ItemLine(last));
  }

  lemma AllTypesPrefixStep(categories: seq<seq<string>>, i: nat)
    requires i < |categories|
    ensures AllTypes(categories[..i + 1]) == AllTypes(categories[..i]) + categories[i]
  {
    assert categories[..i + 1][..i] == categories[..i];
  }

  /** The nested loops of `build_system_prompt` that fill `components`. */
  method BuildComponentList(categories: seq<seq<string>>) returns (components: string)
    ensures components == ItemLines(AllTypes(categories))
  {
    components := "";
    var i := 0;
    while i < |categories|
      invariant 0 <= i <= |categories|
      invariant components == ItemLines(AllTypes(categories[..i]))
    {
      var items := categories[i];
      var done := AllTypes(categories[..i]);
      var j := 0;
      assert done + items[..0] == done;
      while j < |items|
        invariant 0 <= j <= |items|
        invariant components == ItemLines(done + items[..j])
      {
        PrefixSnoc(items, j);
        SnocAssoc(done, items[..j], items[j]);
        ItemLinesSnoc(done + items[..j], items[j]);
        components := components + ItemLine(items[j]);
        j := j + 1;
      }
      assert items[..j] == items;
      AllTypesPrefixStep(categories, i);
      i := i + 1;
    }
    assert categories[..i] == categories;
  }

  /** The number of times `c` occurs in `s`. */
  function Count(s: string, c: char): nat {
    if s == [] then 0 else Count(s[..|s| - 1], c) + (if s[|s| - 1] == c then 1 else 0)
  }

  lemma {:induction false} CountAppend(a: string, b: string, c: char)
    ensures Count(a + b, c) == Count(a, c) + Count(b, c)
    decreases |b|
  {
    if b != [] {
      assert (a + b)[..|a + b| - 1] == a + b[..|b| - 1];
      CountAppend(a, b[..|b| - 1], c);
    } else {
      assert a + b == a;
    }
  }

  lemma {:induction false} CountAbsent(s: string, c: char)
    requires forall i :: 0 <= i < |s| ==> s[i] != c
    ensures Count(s, c) == 0
    decreases |s|
  {
    if s != [] {
      CountAbsent(s[..|s| - 1], c);
    }
  }

  /** Exactly one line per item: when no type name holds a newline, the list
      has as many newlines as items. */
  lemma {:induction false} OneLinePerItem(types: seq<string>)
    requires forall k, i :: 0 <= k < |types| && 0 <= i < |types[k]| ==> types[k][i] != '\n'
    ensures Count(ItemLines(types), '\n') == |types|
    decreases |types|
  {
    if types != [] {
      var t := types[|types| - 1];
      OneLinePerItem(types[..|types| - 1]);
      CountAppend(ItemLines(types[..|types| - 1]), ItemLine(t), '\n');
      CountAppend("    - \"" + t, "\"\n", '\n');
      CountAppend("    - \"", t, '\n');
      CountAbsent("    - \"", '\n');
      CountAbsent(t, '\n');
      assert Count("\"\n", '\n') == 1 by {
        assert "\"\n"[..1] == "\"";
        CountAbsent("\"", '\n');
      }
    }
  }

  /** The system prompt: every placeholder of the template replaced by the
      component list. */
  function SystemPrompt(template: string, categories: seq<seq<string>>): (r: string)
    ensures !Contains(template, Placeholder) ==> r == template
  {
    ReplaceAllWhenAbsent(template, Placeholder, ItemLines(AllTypes(categories)));
    ReplaceAll(template, Placeholder, ItemLines(AllTypes(categories)))
  }

  /** A template with one placeholder, and no `{` before it, becomes the text
      around it with the list in its place. */
  lemma SystemPromptFillsPlaceholder(before: string, after: string, categories: seq<seq<string>>)
    requires forall i :: 0 <= i < |before| ==> before[i] != '{'
    requires !Contains(after, Placeholder)
    ensures SystemPrompt(before + Placeholder + after, categories) == before + ItemLines(AllTypes(categories)) + after
  {
    var list := ItemLines(AllTypes(categories));
    var rest := Placeholder + after;
    assert before + Placeholder + after == before + rest;
    ReplaceAllSkip(before, rest, Placeholder, list);
    assert rest[..|Placeholder|] == Placeholder && rest[|Placeholder|..] == after;
    ReplaceAllAbsent(after, Placeholder, list);
  }

  /** `format!("{}\nUser Design Data:\n{}", system_prompt, final_json)`;
      `render` stands for the `Display` of a JSON value. */
  function EvaluationPrompt(template: string, categories: seq<seq<string>>, payload: Json, render: Json -> string): (r: string)
    ensures |r| >= |SystemPrompt(template, categories)| + |render(InjectCustomRequirements(payload))|
    ensures r[..|SystemPrompt(template, categories)|] == SystemPrompt(template, categories)
    ensures r[|r| - |render(InjectCustomRequirements(payload))|..] == render(InjectCustomRequirements(payload))
  {
    SystemPrompt(template, categories) + "\nUser Design Data:\n" + render(InjectCustomRequirements(payload))
  }

  // ---------------------------------------------------------------------
  // Chat prompt (chat_with_customer)
  // ---------------------------------------------------------------------

  datatype ChatLog = ChatLog(role: string, content: string)

  datatype ChatRequest = ChatRequest(scenarioId: string, messages: seq<ChatLog>)

  const FallbackInstruction: string := "あなたはシステムアーキテクチャのクライアントです。"
  const HistoryHeader: string := "\n\n--- 会話履歴 ---\n"
  const ReplyCue: string := "Client: "

  const InternalToolContext: string :=
    "\n                あなたは「社内勤怠管理ツール」の発注担当者（総務部）です。\n                ITには詳しくありません。\n                【裏要件】\n                - 予算はとにかく安く済ませたい。\n                - 朝9時に社員50人が一斉にアクセスするが、それ以外は誰も使わない。\n                - データは消えると困るが、数分止まるくらいなら許容できる。\n            "
  const SnsAppContext: string :=
    "\n                あなたは「次世代SNSアプリ」のスタートアップCEOです。\n                野心的で、急成長を想定しています。\n                【裏要件】\n                - 世界中からアクセスがある想定。\n                - とにかく「サクサク動く」ことが最重要。\n                - 24時間365日止まってはいけない。\n            "
  const GenericContext: string := "あなたは一般的なシステムの顧客です。"
  const InstructionHead: string := "\n            "
  const InstructionTail: string :=
    "\n            ユーザー（システムアーキテクト）からの質問に対して、上記の立場・要件に基づいて回答してください。\n            回答は短潔に、かつ自然な会話口調で行ってください。\n            "

  /** The server's own brief for a fixed scenario. */
  function HiddenContext(scenarioId: string): (r: string)
    ensures r == InternalToolContext <==> scenarioId == "internal_tool"
    ensures r == SnsAppContext <==> scenarioId == "sns_app"
    ensures r == GenericContext <==> scenarioId != "internal_tool" && scenarioId != "sns_app"
  {
    match scenarioId
    case "internal_tool" => InternalToolContext
    case "sns_app" => SnsAppContext
    case _ => GenericContext
  }

  /** A custom chat whose first message is a system message. */
  predicate LeadingSystem(req: ChatRequest) {
    req.scenarioId == "custom" && |req.messages| > 0 && req.messages[0].role == "system"
  }

  /** The instruction that opens the prompt. A custom chat uses its leading
      system message, or the fallback when there is none or it is empty; a
      fixed scenario uses the server's brief for its id. */
  function Instruction(req: ChatRequest): (s: string)
    ensures req.scenarioId == "custom" ==> s != ""
    ensures LeadingSystem(req) && req.messages[0].content != "" ==> s == req.messages[0].content
    ensures req.scenarioId == "custom" && !(LeadingSystem(req) && req.messages[0].content != "") ==>
              s == FallbackInstruction
    ensures req.scenarioId != "custom" ==> s == InstructionHead + HiddenContext(req.scenarioId) + InstructionTail
  {
    if req.scenarioId == "custom" then
      if LeadingSystem(req) && req.messages[0].content != "" then req.messages[0].content else FallbackInstruction
    else InstructionHead + HiddenContext(req.scenarioId) + InstructionTail
  }

  /** `user` speaks as the architect, every other role as the client. */
  function Speaker(role: string): (s: string)
    ensures s == "Architect" <==> role == "user"
    ensures s == "Client" <==> role != "user"
  {
    if role == "user" then "Architect" else "Client"
  }

  function HistoryLine(m: ChatLog): string {
    Speaker(m.role) + ": " + m.content + "\n"
  }

  /** The conversation as the prompt shows it: one `Speaker: content` line
      per message, in order, leaving out every system message. */
  function Transcript(msgs: seq<ChatLog>): (r: string)
    ensures r == [] <==> forall k :: 0 <= k < |msgs| ==> msgs[k].role == "system"
  {
    if msgs == [] then ""
    else Transcript(msgs[..|msgs| - 1]) + Shown(msgs[|msgs| - 1])
  }

  /** What one message adds to the transcript. */
  function Shown(m: ChatLog): string {
    if m.role == "system" then "" else HistoryLine(m)
  }

  lemma TranscriptSnoc(msgs: seq<ChatLog>, m: ChatLog)
    ensures Transcript(msgs + [m]) == Transcript(msgs) + Shown(m)
  {
    assert (msgs + [m])[..|msgs|] == msgs;
  }

  lemma {:induction false} TranscriptAppend(a: seq<ChatLog>, b: seq<ChatLog>)
    ensures Transcript(a + b) == Transcript(a) + Transcript(b)
    decreases |b|
  {
    if b == [] {
      assert a + b == a;
    } else {
      var init, last := b[..|b| - 1], b[|b| - 1];
      assert b == init + [last];
      TranscriptAppend(a, init);
      TranscriptAppendStep(a, init, last);
    }
  }

  /** The inductive step of `TranscriptAppend`: one more message at the end. */
  lemma TranscriptAppendStep(a: seq<ChatLog>, init: seq<ChatLog>, last: ChatLog)
    requires Transcript(a + init) == Transcript(a) + Transcript(init)
    ensures Transcript(a + (init + [last])) == Transcript(a) + Transcript(init + [last])
  {
    SnocAssoc(a, init, last);
    TranscriptSnoc(a + init, last);
    TranscriptSnoc(init, last);
    ConcatAssoc(Transcript(a), Transcript(init), Shown(last));
  }

  /** The transcript of a prefix one message longer. */
  lemma TranscriptPrefixStep(msgs: seq<ChatLog>, i: nat)
    requires i < |msgs|
    ensures Transcript(msgs[..i + 1]) == Transcript(msgs[..i]) + Shown(msgs[i])
  {
    assert msgs[..i + 1] == msgs[..i] + [msgs[i]];
    TranscriptSnoc(msgs[..i], msgs[i]);
  }

  /** A system message anywhere in the history contributes nothing. */
  lemma {:induction false} TranscriptDropsSystem(a: seq<ChatLog>, content: string, b: seq<ChatLog>)
    ensures Transcript(a + [ChatLog("system", content)] + b) == Transcript(a + b)
  {
    var m := ChatLog("system", content);
    assert Transcript([m]) == "" by {
      assert [m][..0] == [];
    }
    TranscriptAppend(a + [m], b);
    TranscriptAppend(a, [m]);
    TranscriptAppend(a, b);
  }

  /** The messages that are not system messages. */
  function NonSystem(msgs: seq<ChatLog>): seq<ChatLog> {
    if msgs == [] then []
    else NonSystem(msgs[..|msgs| - 1]) + (if msgs[|msgs| - 1].role == "system" then [] else [msgs[|msgs| - 1]])
  }

  /** The transcript is that of the non-system messages. */
  lemma {:induction false} TranscriptLines(msgs: seq<ChatLog>)
    ensures Transcript(msgs) == Transcript(NonSystem(msgs))
    ensures forall i :: 0 <= i < |NonSystem(msgs)| ==> NonSystem(msgs)[i].role != "system"
    decreases |msgs|
  {
    if msgs != [] {
      var init, last := msgs[..|msgs| - 1], msgs[|msgs| - 1];
      TranscriptLines(init);
      var tail := if last.role == "system" then [] else [last];
      TranscriptAppend(NonSystem(init), tail);
      if tail != [] {
        assert tail[..0] == [];
      }
    }
  }

  /** A shown message whose content holds no newline is exactly one line. */
  lemma HistoryLineCount(m: ChatLog)
    requires forall i :: 0 <= i < |m.content| ==> m.content[i] != '\n'
    ensures Count(HistoryLine(m), '\n') == 1
  {
    var who := Speaker(m.role) + ": ";
    CountAppend(who + m.content, "\n", '\n');
    CountAppend(who, m.content, '\n');
    CountAbsent(who, '\n');
    CountAbsent(m.content, '\n');
    assert "\n"[..0] == "";
  }

  /** One line per non-system message: when no content holds a newline, the
      transcript has exactly as many newlines as there are non-system
      messages. */
  lemma {:induction false} TranscriptLineCount(msgs: seq<ChatLog>)
    requires forall k, i :: 0 <= k < |msgs| && 0 <= i < |msgs[k].content| ==> msgs[k].content[i] != '\n'
    ensures Count(Transcript(msgs), '\n') == |NonSystem(msgs)|
    decreases |msgs|
  {
    if msgs != [] {
      var init, last := msgs[..|msgs| - 1], msgs[|msgs| - 1];
      assert forall k :: 0 <= k < |init| ==> init[k] == msgs[k];
      TranscriptLineCount(init);
      CountAppend(Transcript(init), Shown(last), '\n');
      if last.role != "system" {
        HistoryLineCount(last);
      }
    }
  }

  /** The index of the first message the history loop shows. */
  function StartIndex(req: ChatRequest): nat {
    if LeadingSystem(req) then 1 else 0
  }

  /** Skipping the leading system message is already done by dropping all
      system messages: the history is the same from either index. */
  lemma StartIndexRedundant(req: ChatRequest)
    ensures StartIndex(req) <= |req.messages|
    ensures Transcript(req.messages[StartIndex(req)..]) == Transcript(req.messages)
  {
    if StartIndex(req) == 1 {
      var m := req.messages;
      assert m == [m[0]] + m[1..];
      TranscriptDropsSystem([], m[0].content, m[1..]);
      assert [] + [ChatLog("system", m[0].content)] + m[1..] == m;
      assert [] + m[1..] == m[1..];
    }
  }

  /** The opening of `chat_with_customer`: the instruction and the index
      the history starts from. */
  method ChooseInstruction(req: ChatRequest) returns (instruction: string, start: nat)
    ensures instruction == Instruction(req) && start == StartIndex(req)
  {
    instruction := "";
    start := 0;
    if req.scenarioId == "custom" {
      if |req.messages| > 0 {
        var first := req.messages[0];
        if first.role == "system" {
          instruction := first.content;
          start := 1;
        }
      }
      if instruction == "" {
        instruction := FallbackInstruction;
      }
    } else {
      instruction := InstructionHead + HiddenContext(req.scenarioId) + InstructionTail;
    }
  }

  /** The prompt assembly of `chat_with_customer`: the instruction, the
      history heading, the transcript, and the cue for the client's reply.
      The leading system message of a custom chat is not repeated in the
      history. */
  method BuildChatPrompt(req: ChatRequest) returns (prompt: string)
    ensures prompt == Instruction(req) + HistoryHeader + Transcript(req.messages) + ReplyCue
    ensures LeadingSystem(req) ==>
              prompt == Instruction(req) + HistoryHeader + Transcript(req.messages[1..]) + ReplyCue
  {
    var systemInstruction, start := ChooseInstruction(req);
    prompt := AppendHistory(systemInstruction + HistoryHeader, req.messages, start);
    prompt := prompt + ReplyCue;
    StartIndexRedundant(req);
  }

  /** The history loop of `chat_with_customer`: from `start` on, every
      message that is not a system message adds its line. */
  method AppendHistory(head: string, msgs: seq<ChatLog>, start: nat) returns (prompt: string)
    requires start <= |msgs|
    requires forall k :: 0 <= k < start ==> msgs[k].role == "system"
    ensures prompt == head + Transcript(msgs)
  {
    prompt := head;
    var i := 0;
    while i < |msgs|
      invariant 0 <= i <= |msgs|
      invariant prompt == head + Transcript(msgs[..i])
    {
      TranscriptPrefixStep(msgs, i);
      if i < start {
        assert msgs[i].role == "system";
      } else if msgs[i].role == "system" {
      } else {
        ConcatAssoc(head, Transcript(msgs[..i]), HistoryLine(msgs[i]));
        prompt := prompt + HistoryLine(msgs[i]);
      }
      i := i + 1;
    }
    assert msgs[..i] == msgs;
  }

  // ---------------------------------------------------------------------
  // Model response
  // ---------------------------------------------------------------------

  datatype PartResponse = PartResponse(text: string)
  datatype CandidateContent = CandidateContent(parts: Option<seq<PartResponse>>)
  datatype Candidate = Candidate(content: Option<CandidateContent>)
  datatype GeminiResponse = GeminiResponse(candidates: Option<seq<Candidate>>)

  /** The text of the first part of the first candidate, when the response
      has one. */
  function FirstPartText(r: GeminiResponse): (t: Option<string>)
    ensures t.Some? <==>
              && r.candidates.Some? && |r.candidates.value| > 0
              && r.candidates.value[0].content.Some?
              && r.candidates.value[0].content.value.parts.Some?
              && |r.candidates.value[0].content.value.parts.value| > 0
    ensures t.Some? ==> t.value == r.candidates.value[0].content.value.parts.value[0].text
  {
    match r.candidates
    case None => None
    case Some(cs) =>
      if |cs| == 0 then None
      else match cs[0].content
        case None => None
        case Some(c) =>
          match c.parts
          case None => None
          case Some(ps) => if |ps| == 0 then None else Some(ps[0].text)
  }

  /** The reply of a model call: `status` is the HTTP status, `body` the
      decoded response (`None` when the body is not a response). A status
      outside 200..299 or a response without text is an error. */
  function ModelReply(status: int, body: Option<GeminiResponse>): (r: Option<string>)
    ensures !(200 <= status <= 299) ==> r.None?
    ensures 200 <= status <= 299 && body.Some? ==> r == FirstPartText(body.value)
    ensures body.None? ==> r.None?
  {
    if !(200 <= status <= 299) then None
    else match body
      case None => None
      case Some(b) => FirstPartText(b)
  }
}
