/**
 * The response shaping of the HTTP handlers in backend/src/main.rs: cleaning
 * the evaluation text the model returns, the fallback objects when that text
 * is not JSON or the model call fails, and the chat and mock-save replies.
 *
 * The model call itself is `GeminiClient.ModelReply` over the HTTP status and
 * decoded body, which are inputs; the JSON parser is a parameter.
 */
module Server {
  import opened Wrappers
  import opened Json
  import opened StrUtil
  import GeminiClient

  const Fence: string := "```"
  const JsonFence: string := "```json"

  // ---------------------------------------------------------------------
  // Clean-up of the model's text (evaluate_architecture)
  // ---------------------------------------------------------------------

  /** `.replace("```json", "").replace("```", "").trim()`. */
  function CleanModelText(s: string): (r: string)
    ensures r == [] || (!IsRustWhitespace(r[0]) && !IsRustWhitespace(r[|r| - 1]))
  {
    TrimWith(ReplaceAll(ReplaceAll(s, JsonFence, ""), Fence, ""), IsRustWhitespace)
  }

  predicate StartsWithFence(t: string) {
    |t| >= 3 && t[..3] == Fence
  }

  predicate StartsWithTwoTicks(t: string) {
    |t| >= 2 && t[0] == '`' && t[1] == '`'
  }

  /** Removing fences from a text that does not start with one keeps its
      first character. */
  lemma RemovalKeepsFirst(u: string)
    requires |u| > 0 && !StartsWithFence(u)
    ensures |ReplaceAll(u, Fence, "")| > 0 && ReplaceAll(u, Fence, "")[0] == u[0]
  {
  }

  /** Removing fences from a text that does not start with one cannot make
      it start with two backticks. */
  lemma RemovalLeadingTicks(t: string)
    requires !StartsWithFence(t)
    ensures StartsWithTwoTicks(ReplaceAll(t, Fence, "")) ==> StartsWithTwoTicks(t)
  {
    if |t| >= 3 && StartsWithTwoTicks(ReplaceAll(t, Fence, "")) {
      var u := t[1..];
      assert t[..3] == [t[0]] + u[..2];
      RemovalKeepsFirst(u);
    }
  }

  /** No fence survives the removal: removing an occurrence never joins the
      text around it into a new one. */
  lemma {:induction false} NoFenceAfterRemoval(s: string)
    ensures !Contains(ReplaceAll(s, Fence, ""), Fence)
    decreases |s|
  {
    var r := ReplaceAll(s, Fence, "");
    if |s| < 3 {
      assert forall i :: !OccursAt(r, Fence, i);
    } else if s[..3] == Fence {
      NoFenceAfterRemoval(s[3..]);
      assert r == ReplaceAll(s[3..], Fence, "");
    } else {
      var rest := ReplaceAll(s[1..], Fence, "");
      NoFenceAfterRemoval(s[1..]);
      assert r == [s[0]] + rest;
      forall i | 0 <= i <= |r| ensures !OccursAt(r, Fence, i) {
        if i > 0 {
          if i + 3 <= |r| {
            assert r[i..i + 3] == rest[i - 1..i + 2];
          }
          assert !OccursAt(rest, Fence, i - 1);
        } else if s[0] == '`' {
          assert s[..3] == [s[0]] + s[1..][..2];
          RemovalLeadingTicks(s[1..]);
        }
      }
    }
  }

  /** A text without a backtick holds no fence. */
  lemma NoTickNoFence(s: string)
    requires forall i :: 0 <= i < |s| ==> s[i] != '`'
    ensures !Contains(s, Fence)
  {
    forall i | 0 <= i <= |s| ensures !OccursAt(s, Fence, i) {
      if i + 3 <= |s| {
        assert s[i..i + 3][0] == s[i];
      }
    }
  }

  /** A slice of a text without a fence holds none. */
  lemma NoFenceInSlice(t: string, k: int, r: string)
    requires 0 <= k <= |t| - |r| && r == t[k..k + |r|]
    requires !Contains(t, Fence)
    ensures !Contains(r, Fence)
  {
    forall i | 0 <= i <= |r| ensures !OccursAt(r, Fence, i) {
      if i + 3 <= |r| {
        assert forall j :: i <= j < i + 3 ==> r[j] == t[k + j];
        assert !OccursAt(t, Fence, k + i);
      }
    }
  }

  /** The cleaned text holds no triple backtick at all. */
  lemma CleanHasNoFence(s: string)
    ensures !Contains(CleanModelText(s), Fence)
  {
    NoFenceAfterRemoval(ReplaceAll(s, JsonFence, ""));
    TrimKeepsNoFence(ReplaceAll(ReplaceAll(s, JsonFence, ""), Fence, ""));
  }

  lemma TrimKeepsNoFence(t: string)
    requires !Contains(t, Fence)
    ensures !Contains(TrimWith(t, IsRustWhitespace), Fence)
  {
    var r := TrimWith(t, IsRustWhitespace);
    var k :| SliceBetweenRuns(t, r, IsRustWhitespace, k);
    NoFenceInSlice(t, k, r);
  }

  /** A reply wrapped in a ```json fence, with no backtick inside, cleans to
      its inner text trimmed. */
  lemma CleanFencedJson(inner: string)
    requires forall i :: 0 <= i < |inner| ==> inner[i] != '`'
    ensures CleanModelText(JsonFence + inner + Fence) == TrimWith(inner, IsRustWhitespace)
  {
    var x := inner + Fence;
    assert JsonFence + inner + Fence == JsonFence + x;
    StripLeading(x);
    ReplaceAllSkip(inner, Fence, JsonFence, "");
    assert ReplaceAll(Fence, JsonFence, "") == Fence;
    var a := ReplaceAll(JsonFence + x, JsonFence, "");
    assert a == inner + Fence;
    ReplaceAllSkip(inner, Fence, Fence, "");
    RemoveFence();
    var b := ReplaceAll(a, Fence, "");
    assert b == inner;
  }

  /** A leading ```json is removed and removal continues after it. */
  lemma StripLeading(x: string)
    ensures ReplaceAll(JsonFence + x, JsonFence, "") == ReplaceAll(x, JsonFence, "")
  {
    var s := JsonFence + x;
    assert s[..7] == JsonFence && s[7..] == x;
  }

  lemma RemoveFence()
    ensures ReplaceAll(Fence, Fence, "") == ""
  {
    assert Fence[..3] == Fence && Fence[3..] == "";
  }

  // ---------------------------------------------------------------------
  // Responses
  // ---------------------------------------------------------------------

  function Object3(k1: string, v1: Json, k2: string, v2: Json, k3: string, v3: Json): Json {
    JObject(map[k1 := v1, k2 := v2, k3 := v3])
  }

  /** The object returned when the model call fails. */
  const EvaluationError: Json :=
    Object3("score", JNumber(0), "feedback", JString("Error"), "status", JString("error"))

  /** The object returned when the cleaned text is not JSON. */
  function PartialSuccess(clean: string): Json {
    Object3("score", JNumber(0), "feedback", JString(clean), "status", JString("partial_success"))
  }

  /** `evaluate_architecture`'s body for a model outcome (`None` when the call
      failed). Text that parses is passed through as parsed. */
  function EvaluateResponse(reply: Option<string>, parse: string -> Option<Json>): (r: Json)
    ensures reply.None? ==> r == EvaluationError
    ensures reply.Some? && parse(CleanModelText(reply.value)).Some? ==> r == parse(CleanModelText(reply.value)).value
    ensures reply.Some? && parse(CleanModelText(reply.value)).None? ==> r == PartialSuccess(CleanModelText(reply.value))
  {
    match reply
    case None => EvaluationError
    case Some(text) =>
      var clean := CleanModelText(text);
      match parse(clean)
      case Some(j) => j
      case None => PartialSuccess(clean)
  }

  /** Whatever the model does, the response that is not the model's own JSON
      scores 0, says why in its status, and carries no fence in its feedback. */
  lemma EvaluateFallbackShape(reply: Option<string>, parse: string -> Option<Json>)
    requires reply.None? || parse(CleanModelText(reply.value)).None?
    ensures var r := EvaluateResponse(reply, parse);
            && Get(r, "score") == Some(JNumber(0))
            && (Get(r, "status") == Some(JString("error")) <==> reply.None?)
            && (Get(r, "status") == Some(JString("partial_success")) <==> reply.Some?)
            && Get(r, "feedback").Some? && Get(r, "feedback").value.JString?
            && !Contains(Get(r, "feedback").value.str, Fence)
  {
    if reply.Some? {
      CleanHasNoFence(reply.value);
    } else {
      NoTickNoFence("Error");
    }
  }

  /** `evaluate_architecture` end to end, over the HTTP status and decoded
      body of the model call. */
  function EvaluateArchitecture(status: int, body: Option<GeminiClient.GeminiResponse>, parse: string -> Option<Json>): (r: Json)
    ensures !(200 <= status <= 299) ==> r == EvaluationError
  {
    EvaluateResponse(GeminiClient.ModelReply(status, body), parse)
  }

  /** `handle_chat`'s body for a model outcome. */
  function ChatResponse(reply: Option<string>): (r: Json)
    ensures Get(r, "status") == Some(JString(if reply.Some? then "success" else "error"))
    ensures Get(r, "reply") == Some(JString(if reply.Some? then reply.value else "Error"))
    ensures r.JObject? && r.fields.Keys == {"reply", "status"}
  {
    match reply
    case Some(text) => JObject(map["reply" := JString(text), "status" := JString("success")])
    case None => JObject(map["reply" := JString("Error"), "status" := JString("error")])
  }

  /** `mock_save_project`: reports success and echoes the payload's `id`
      (`null` when it has none); nothing is stored. */
  function MockSaveResponse(payload: Json): (r: Json)
    ensures Get(r, "status") == Some(JString("success"))
    ensures Get(r, "id") == Some(Index(payload, "id"))
    ensures Get(payload, "id").None? ==> Get(r, "id") == Some(JNull)
    ensures Get(r, "message") == Some(JString("Saved to session (mock)"))
  {
    Object3("status", JString("success"), "id", Index(payload, "id"), "message", JString("Saved to session (mock)"))
  }
}
