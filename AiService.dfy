/**
 * `OpenAIService` (app/ai_service.py): the list of models to try, the fallback
 * loop of `generate_mom` and `test_connection`. The chat API is replaced by a
 * transport that says what the i-th request came back with.
 */
module AiService {
  import opened Wrappers
  import opened MomText
  import opened MomPrompt

  /** What one `chat.completions.create` call came back with. */
  datatype Attempt =
    | Raise(message: string)          // the call raised; `message` is `str(e)`
    | NoChoices                       // a response whose `choices` list is empty
    | Reply(content: Option<string>)  // the content of the first choice, possibly `None`

  datatype Message = Message(role: string, content: string)

  /** The arguments of one chat request; the temperature is not modelled. */
  datatype Request = Request(model: string, maxTokens: nat, messages: seq<Message>)

  /** How the fallback loop ended. */
  datatype Outcome =
    | Answered(content: string)  // a reply with content, returned after clean-up
    | Reported(error: string)    // a failure judged to be on the last model, returned as the diagnostic
    | Exhausted                  // the loop ran off the end of the list

  /** Where a run of the fallback loop ended, and how many requests it sent. */
  datatype Run = Run(outcome: Outcome, requests: nat)

  /** What `generate_mom` returns for each way the loop can end. */
  function ResultOf(outcome: Outcome, models: seq<string>, projectName: string, today: string): Option<string> {
    match outcome
    case Answered(content) => Some(Sanitize(content, projectName, today))
    case Reported(error) => Some(DiagnosticDocument(projectName, today, error, models))
    case Exhausted => None
  }

  function MomRequest(model: string, systemPrompt: string, userPrompt: string): Request {
    Request(model, MomMaxTokens, [Message("system", systemPrompt), Message("user", userPrompt)])
  }

  /** The attempt raised inside the `try` block: the call itself, or `.strip()` on a `None` reply. */
  predicate Failed(a: Attempt) {
    a.Raise? || a == Reply(None)
  }

  /** `str(e)` for a failed attempt. */
  function ErrorText(a: Attempt): string
    requires Failed(a)
  {
    if a.Raise? then a.message else NoneStripError
  }

  /**
   * Attempt `i` lets the loop go on: its response had no choices, or it failed on a
   * model whose name differs from the name of the last entry.
   */
  predicate Continues(models: seq<string>, transport: nat -> Attempt, i: nat)
    requires i < |models|
  {
    transport(i).NoChoices? || (Failed(transport(i)) && models[i] != models[|models| - 1])
  }

  /**
   * The fallback loop from entry `i` on: it stops at the first reply with content,
   * or at the first failure on a model named like the last entry, or at the end.
   */
  function RunFrom(models: seq<string>, transport: nat -> Attempt, i: nat): (r: Run)
    requires i <= |models|
    ensures i <= r.requests <= |models|
    ensures i < |models| ==> i < r.requests
    ensures r.outcome.Exhausted? ==> r.requests == |models|
    decreases |models| - i
  {
    if i == |models| then Run(Exhausted, i)
    else
      var a := transport(i);
      if a.Reply? && a.content.Some? then Run(Answered(a.content.value), i + 1)
      else if !Failed(a) || models[i] != models[|models| - 1] then RunFrom(models, transport, i + 1)
      else Run(Reported(ErrorText(a)), i + 1)
  }

  /** One attempt that lets the loop go on hands over to the next entry. */
  lemma RunStep(models: seq<string>, transport: nat -> Attempt, i: nat)
    requires i < |models| && Continues(models, transport, i)
    ensures RunFrom(models, transport, i) == RunFrom(models, transport, i + 1)
  {
  }

  /** What one attempt does to the run: it ends it with an answer or a report, or hands over. */
  lemma RunAt(models: seq<string>, transport: nat -> Attempt, i: nat)
    requires i < |models|
    ensures var a := transport(i);
            && (a.Reply? && a.content.Some? ==> RunFrom(models, transport, i) == Run(Answered(a.content.value), i + 1))
            && (Failed(a) && models[i] == models[|models| - 1] ==> RunFrom(models, transport, i) == Run(Reported(ErrorText(a)), i + 1))
            && (a.NoChoices? || (Failed(a) && models[i] != models[|models| - 1]) ==> RunFrom(models, transport, i) == RunFrom(models, transport, i + 1))
  {
  }

  /** Attempts that let the loop go on only move it forward. */
  lemma {:induction false} RunSkips(models: seq<string>, transport: nat -> Attempt, i: nat, k: nat)
    requires i <= k <= |models|
    requires forall j :: i <= j < k ==> Continues(models, transport, j)
    ensures RunFrom(models, transport, i) == RunFrom(models, transport, k)
    decreases k - i
  {
    if i < k {
      RunStep(models, transport, i);
      RunSkips(models, transport, i + 1, k);
    }
  }

  /**
   * How every run ends: all attempts before the last one sent let the loop go on,
   * and the last one sent either stopped it or was the final entry.
   */
  lemma {:induction false} RunStops(models: seq<string>, transport: nat -> Attempt, i: nat)
    requires i <= |models|
    ensures var r := RunFrom(models, transport, i);
            && (forall j :: i <= j < r.requests - 1 ==> Continues(models, transport, j))
            && (r.requests < |models| ==> !Continues(models, transport, r.requests - 1))
    decreases |models| - i
  {
    if i < |models| && Continues(models, transport, i) {
      RunStep(models, transport, i);
      RunStops(models, transport, i + 1);
    }
  }

  /** The first attempt with content ends the loop, and its content is what is returned. */
  lemma FirstReplyWins(models: seq<string>, transport: nat -> Attempt, k: nat, content: string)
    requires k < |models|
    requires forall j :: 0 <= j < k ==> Continues(models, transport, j)
    requires transport(k) == Reply(Some(content))
    ensures RunFrom(models, transport, 0) == Run(Answered(content), k + 1)
  {
    RunSkips(models, transport, 0, k);
  }

  /** A failure on a model named like the last entry reports its error at once. */
  lemma FailureOnLastNameReports(models: seq<string>, transport: nat -> Attempt, k: nat)
    requires k < |models|
    requires forall j :: 0 <= j < k ==> Continues(models, transport, j)
    requires Failed(transport(k)) && models[k] == models[|models| - 1]
    ensures RunFrom(models, transport, 0) == Run(Reported(ErrorText(transport(k))), k + 1)
  {
    RunSkips(models, transport, 0, k);
  }

  /** When every attempt lets the loop go on, every entry is tried and nothing is returned. */
  lemma ExhaustedGivesNone(models: seq<string>, transport: nat -> Attempt)
    requires forall j :: 0 <= j < |models| ==> Continues(models, transport, j)
    ensures RunFrom(models, transport, 0) == Run(Exhausted, |models|)
  {
    RunSkips(models, transport, 0, |models|);
  }

  /**
   * The loop of `generate_mom`: one request per entry of `models`, in order, until a
   * reply with content, a failure on a model named like the last entry, or the end.
   */
  method SendRequests(models: seq<string>, systemPrompt: string, userPrompt: string, transport: nat -> Attempt)
    returns (outcome: Outcome, sent: seq<Request>)
    ensures var run := RunFrom(models, transport, 0);
            outcome == run.outcome && |sent| == run.requests
    ensures forall j :: 0 <= j < |sent| ==> sent[j] == MomRequest(models[j], systemPrompt, userPrompt)
  {
    ghost var run := RunFrom(models, transport, 0);
    sent := [];
    var i := 0;
    while i < |models|
      invariant 0 <= i <= |models| && |sent| == i
      invariant forall j :: 0 <= j < i ==> sent[j] == MomRequest(models[j], systemPrompt, userPrompt)
      invariant run == RunFrom(models, transport, i)
    {
      var current := models[i];
      sent := sent + [MomRequest(current, systemPrompt, userPrompt)];
      RunAt(models, transport, i);
      match transport(i) {
        case Raise(e) =>
          if current == models[|models| - 1] {
            return Reported(e), sent;
          }
        case NoChoices =>
        case Reply(content) =>
          if content.Some? {
            return Answered(content.value), sent;
          } else if current == models[|models| - 1] {
            return Reported(NoneStripError), sent;
          }
      }
      i := i + 1;
    }
    outcome := Exhausted;
  }

  class OpenAIService {
    /** The primary model. */
    const model: string
    /** The models tried after the primary, in order. */
    const fallbackModels: seq<string> := FallbackModels

    /** `OpenAIService(api_key, model)`, the model defaulting to "gpt-4o-mini"; the API client is not modelled. */
    constructor(model: string := DefaultModel)
      ensures this.model == model
    {
      this.model := model;
    }

    /** `[self.model] + self.fallback_models`, duplicates kept. */
    function ModelsToTry(): (r: seq<string>)
      ensures |r| == 4 && r[0] == model
      ensures r[1] == "gpt-4o-mini" && r[2] == "gpt-4o" && r[3] == "gpt-3.5-turbo"
    {
      [model] + fallbackModels
    }

    /**
     * `generate_mom`: one request per entry of `ModelsToTry()`, in order, until a
     * reply with content, a failure judged to be on the last model, or the end of
     * the list. `sent` lists the requests in the order they went out.
     */
    method GenerateMom(transcript: string, projectContext: string, projectName: string, today: string, transport: nat -> Attempt)
      returns (result: Option<string>, sent: seq<Request>)
      ensures var run := RunFrom(ModelsToTry(), transport, 0);
              && |sent| == run.requests
              && result == ResultOf(run.outcome, ModelsToTry(), projectName, today)
      ensures forall j :: 0 <= j < |sent| ==>
                sent[j] == MomRequest(ModelsToTry()[j], SystemPrompt(projectName, today, projectContext), UserPrompt(transcript))
    {
      var models := ModelsToTry();
      var outcome;
      outcome, sent := SendRequests(models, SystemPrompt(projectName, today, projectContext), UserPrompt(transcript), transport);
      match outcome {
        case Answered(content) =>
          var cleaned := RemovePrefixes(content, UnwantedPrefixes);
          result := Some(Substitute(cleaned, projectName, today));
        case Reported(error) =>
          result := Some(DiagnosticDocument(projectName, today, error, models));
        case Exhausted =>
          result := None;
      }
    }

    /**
     * `test_connection`: one short request to the primary model; true exactly when
     * it returned at least one choice, false when it raised or returned none.
     */
    method TestConnection(outcome: Attempt) returns (ok: bool, request: Request)
      ensures request == Request(model, PingMaxTokens, [Message("user", PingText)])
      ensures ok <==> outcome.Reply?
    {
      request := Request(model, PingMaxTokens, [Message("user", PingText)]);
      match outcome {
        case Raise(_) => ok := false;
        case NoChoices => ok := false;
        case Reply(_) => ok := true;
      }
    }

    /**
     * A primary named "gpt-3.5-turbo" that fails ends the run after one request
     * with the diagnostic, though three fallbacks were left.
     */
    lemma PrimaryNamedLastSkipsFallbacks(transport: nat -> Attempt)
      requires model == "gpt-3.5-turbo" && Failed(transport(0))
      ensures RunFrom(ModelsToTry(), transport, 0) == Run(Reported(ErrorText(transport(0))), 1)
    {
      FailureOnLastNameReports(ModelsToTry(), transport, 0);
    }

    /**
     * With any other primary, failures on every entry try all four models and
     * report the error of the fourth.
     */
    lemma AllFailuresTryEveryModel(transport: nat -> Attempt)
      requires model != "gpt-3.5-turbo"
      requires forall j :: 0 <= j < 4 ==> Failed(transport(j))
      ensures RunFrom(ModelsToTry(), transport, 0) == Run(Reported(ErrorText(transport(3))), 4)
    {
      var models := ModelsToTry();
      assert forall j :: 0 <= j < 3 ==> Continues(models, transport, j);
      FailureOnLastNameReports(models, transport, 3);
    }

    /** No choices from the last entry, after the others let the loop go on, returns `None`. */
    lemma NoChoicesAtEndGivesNone(transport: nat -> Attempt)
      requires forall j :: 0 <= j < 3 ==> Continues(ModelsToTry(), transport, j)
      requires transport(3) == NoChoices
      ensures RunFrom(ModelsToTry(), transport, 0) == Run(Exhausted, 4)
    {
      ExhaustedGivesNone(ModelsToTry(), transport);
    }
  }
}
