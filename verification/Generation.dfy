/** Generation with the deterministic client: the token accounting of a whole request. */
module Generation {
  import opened Options
  import opened Text
  import opened Tokens
  import opened ContextWindow

  datatype Response = Response(content: string, promptTokens: nat, completionTokens: nat, totalTokens: nat)

  /** The content up to the first listed stop sequence that occurs in it. */
  function CutAtStop(content: string, stops: seq<string>): string {
    if stops == [] then content else
      match Find(content, stops[0], 0)
      case Some(i) => content[..i]
      case None => CutAtStop(content, stops[1..])
  }

  function LastUser(ms: seq<Message>): Message
    requires ms != []
  {
    LastIs(ms, User, |ms|);
    match LastUserIndex(ms)
    case Some(i) => ms[i]
    case None => ms[|ms| - 1]
  }

  function PromptTokens(ms: seq<Message>): nat {
    if ms == [] then 0 else MessageTokens(ms[0]) + PromptTokens(ms[1..])
  }

  /** The answer of the deterministic client: the newest user message, cut at a stop sequence. */
  function Echo(model: string, ms: seq<Message>, stops: seq<string>): string
    requires ms != []
  {
    CutAtStop("[" + model + "] " + Strip(LastUser(ms).content), stops)
  }

  predicate NoneOccurs(content: string, stops: seq<string>) {
    forall k :: 0 <= k < |stops| ==> Find(content, stops[k], 0) == None
  }

  /** The cut is a prefix of the answer, and all of it exactly when no stop sequence occurs. */
  lemma {:induction false} CutIsPrefix(content: string, stops: seq<string>)
    requires forall k :: 0 <= k < |stops| ==> stops[k] != ""
    ensures CutAtStop(content, stops) <= content
    ensures CutAtStop(content, stops) == content <==> NoneOccurs(content, stops)
    decreases |stops|
  {
    if stops != [] {
      CutIsPrefix(content, stops[1..]);
      assert forall k :: 1 <= k < |stops| ==> stops[k] == stops[1..][k - 1];
      var found := Find(content, stops[0], 0);
      if found.Some? {
        assert OccursAt(content, stops[0], found.value) && |content[..found.value]| < |content|;
      }
    }
  }

  /** The first listed stop sequence that occurs decides, at its first occurrence. */
  lemma {:induction false} CutAtFirstListed(content: string, stops: seq<string>, k: nat, i: nat)
    requires k < |stops| && OccursAt(content, stops[k], i) && forall j: nat :: j < i ==> !OccursAt(content, stops[k], j)
    requires forall j, at: nat :: 0 <= j < k ==> !OccursAt(content, stops[j], at)
    ensures CutAtStop(content, stops) == content[..i]
    decreases |stops|
  {
    if k > 0 {
      assert Find(content, stops[0], 0) == None;
      assert forall j :: 0 <= j < k - 1 ==> stops[1..][j] == stops[j + 1];
      CutAtFirstListed(content, stops[1..], k - 1, i);
    }
  }

  /** What is echoed, before any cut: the model's name and the newest user message, or the last message if there is none. */
  lemma EchoIs(model: string, ms: seq<Message>, i: nat)
    requires i < |ms|
    requires if exists k :: 0 <= k < |ms| && ms[k].role == User then ms[i].role == User && forall k :: i < k < |ms| ==> ms[k].role != User
             else i == |ms| - 1
    ensures Echo(model, ms, []) == "[" + model + "] " + Strip(ms[i].content)
  {
    LastIs(ms, User, |ms|);
  }

  method Complete(model: string, ms: seq<Message>, maxOutput: nat, stops: seq<string>) returns (r: Response)
    requires ms != []
    ensures r.content == Echo(model, ms, stops)
    ensures r.completionTokens == if Estimate(r.content) <= maxOutput then Estimate(r.content) else maxOutput
    ensures r.promptTokens == PromptTokens(ms) && r.totalTokens == r.promptTokens + r.completionTokens
  {
    var content := "[" + model + "] " + Strip(LastUser(ms).content);
    ghost var whole := content;
    var k := 0;
    while k < |stops|
      invariant k <= |stops| && content == whole
      invariant CutAtStop(whole, stops) == CutAtStop(whole, stops[k..])
    {
      assert stops[k..][1..] == stops[k + 1..];
      var index := Find(content, stops[k], 0);
      if index.Some? {
        content := content[..index.value];
        break;
      }
      k := k + 1;
    }
    var completion: nat := if Estimate(content) < maxOutput then Estimate(content) else maxOutput;
    var prompt := PromptTokens(ms);
    r := Response(content, prompt, completion, prompt + completion);
  }

  function Contents(chosen: seq<Chosen>): seq<Message> {
    if chosen == [] then [] else [chosen[0].message] + Contents(chosen[1..])
  }

  lemma {:induction false} ContentsTokens(chosen: seq<Chosen>)
    ensures PromptTokens(Contents(chosen)) == TotalTokens(chosen) && |Contents(chosen)| == |chosen|
    decreases |chosen|
  {
    if chosen != [] {
      ContentsTokens(chosen[1..]);
      assert Contents(chosen)[1..] == Contents(chosen[1..]);
    }
  }

  /** What a request demands of itself: a model, a message, a temperature from 0 to 2, and no empty stop sequence. */
  predicate IsValidRequest(model: string, ms: seq<Message>, temperature: real, stops: seq<string>) {
    Strip(model) != "" && ms != [] && 0.0 <= temperature <= 2.0 && forall k :: 0 <= k < |stops| ==> stops[k] != ""
  }

  const INVALID_REQUEST := "request validation failed"

  /** The result of a request: every error in its case, and otherwise the echo of the fitted messages. */
  ghost predicate IsCompletion(model: string, ms: seq<Message>, contextWindow: int, maxOutput: int, temperature: real,
                               stops: seq<string>, r: Result<Response>)
  {
    match Fit(ms, contextWindow, maxOutput)
    case ValueError(reason) => r == ValueError(reason)
    case Hangs => r == Hangs
    case Ok(f) =>
      var messages := Contents(f.messages);
      if !IsValidRequest(model, messages, temperature, stops) then r == ValueError(INVALID_REQUEST) else
        && r.Ok? && r.value.content == Echo(model, messages, stops)
        && r.value.promptTokens == f.promptTokens
        && r.value.completionTokens == (if Estimate(r.value.content) <= maxOutput then Estimate(r.value.content) else maxOutput)
        && r.value.totalTokens == r.value.promptTokens + r.value.completionTokens
  }

  /**
   Fit, validate, then complete: the tokens of the completion and of the prompt together stay within the
   context window.
   */
  method GenerateCompletion(model: string, ms: seq<Message>, contextWindow: int, maxOutput: int, temperature: real,
                            stops: seq<string>) returns (r: Result<Response>)
    ensures IsCompletion(model, ms, contextWindow, maxOutput, temperature, stops, r)
    ensures r.Ok? ==> r.value.totalTokens <= contextWindow
    ensures Fit(ms, contextWindow, maxOutput).Ok? ==>
              (r.Ok? <==> && Strip(model) != "" && Fit(ms, contextWindow, maxOutput).value.messages != []
                          && 0.0 <= temperature <= 2.0 && forall k :: 0 <= k < |stops| ==> stops[k] != "")
  {
    var fitted := FitContextWindow(ms, contextWindow, maxOutput);
    match fitted {
      case ValueError(reason) => return ValueError(reason);
      case Hangs => return Hangs;
      case Ok(f) =>
        var messages := Contents(f.messages);
        ContentsTokens(f.messages);
        if !IsValidRequest(model, messages, temperature, stops) {
          return ValueError(INVALID_REQUEST);
        }
        PromptFits(ms, contextWindow, maxOutput);
        var response := Complete(model, messages, maxOutput, stops);
        return Ok(response);
    }
  }
}
