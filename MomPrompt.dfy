/**
 * The text side of `OpenAIService.generate_mom`: the Minutes-of-Meeting template,
 * the system and user prompts, the clean-up of a model reply (boilerplate prefixes,
 * then the three placeholders) and the diagnostic document returned when the
 * last model fails.
 */
module MomPrompt {
  import opened Text
  import opened MomText

  /** `project_name or "Meeting Project"` */
  function DisplayName(projectName: string): (r: string)
    ensures r != ""
    ensures projectName != "" ==> r == projectName
  {
    if projectName == "" then DefaultProjectName else projectName
  }

  /** A date as `strftime('%Y-%m-%d')` writes it for a four-digit year. */
  predicate IsIsoDate(d: string) {
    && |d| == 10
    && d[4] == '-' && d[7] == '-'
    && forall i :: 0 <= i < 10 && i != 4 && i != 7 ==> '0' <= d[i] <= '9'
  }

  // ---------------------------------------------------------------- prompts

  /** The system prompt up to the optional prior-meeting context. */
  function PromptHead(projectName: string, today: string): string {
    PromptIntro + DisplayName(projectName) + DateGuideline + today + OrganizerGuideline
  }

  /** The prior-meeting block, present only for a non-empty context. */
  function ContextBlock(projectContext: string): string {
    if projectContext == "" then "" else ContextMarker + projectContext
  }

  function SystemPrompt(projectName: string, today: string, projectContext: string): string {
    PromptHead(projectName, today) + ContextBlock(projectContext) + PromptTail
  }

  /** The user message: the fixed instruction, a blank line, then the whole transcript. */
  function UserPrompt(transcript: string): (r: string)
    ensures |r| == |UserInstruction| + 2 + |transcript|
    ensures StartsWith(r, UserInstruction + "\n\n")
    ensures r[|r| - |transcript|..] == transcript
  {
    UserInstruction + "\n\n" + transcript
  }

  /** The system prompt tells the model the date it was given. */
  lemma SystemPromptHasDate(projectName: string, today: string, projectContext: string)
    ensures Contains(SystemPrompt(projectName, today, projectContext), DateGuideline + today)
  {
    ContainsPairedPieces(PromptIntro + DisplayName(projectName), DateGuideline, today, OrganizerGuideline, ContextBlock(projectContext), PromptTail);
  }

  /** The system prompt names the project, as "Meeting Project" when no name was given. */
  lemma SystemPromptNamesProject(projectName: string, today: string, projectContext: string)
    ensures Contains(SystemPrompt(projectName, today, projectContext), PromptIntro + DisplayName(projectName))
    ensures projectName == "" ==> Contains(SystemPrompt(projectName, today, projectContext), PromptIntro + DefaultProjectName)
  {
    ContainsFirstPiece(PromptIntro + DisplayName(projectName), DateGuideline, today, OrganizerGuideline, ContextBlock(projectContext), PromptTail);
  }

  /**
   * The prior-meeting block is there exactly when a context was given: a non-empty
   * context appears after the marker, and only an empty one leaves the prompt as
   * it is without context.
   */
  lemma SystemPromptContext(projectName: string, today: string, projectContext: string)
    ensures projectContext != "" ==> Contains(SystemPrompt(projectName, today, projectContext), ContextMarker + projectContext)
    ensures SystemPrompt(projectName, today, projectContext) == SystemPrompt(projectName, today, "") <==> projectContext == ""
  {
    if projectContext != "" {
      ContainsMiddle(PromptHead(projectName, today), ContextMarker + projectContext, PromptTail);
      MiddleDiffers(PromptHead(projectName, today), ContextBlock(projectContext), ContextBlock(""), PromptTail);
    }
  }

  // ---------------------------------------------------------------- reply clean-up

  /**
   * One turn of the prefix loop: if the stripped content starts with `prefix`,
   * the content becomes the stripped remainder; otherwise it stays as it was,
   * surrounding whitespace included.
   */
  function DropPrefix(content: string, prefix: string): (r: string)
    ensures r == content || Trimmed(r)
  {
    var s := Strip(content);
    if StartsWith(s, prefix) then Strip(s[|prefix|..]) else content
  }

  /** The whole prefix loop: every prefix is tried in turn, with no early exit. */
  function DropPrefixes(content: string, prefixes: seq<string>): string
    decreases |prefixes|
  {
    if prefixes == [] then content else DropPrefixes(DropPrefix(content, prefixes[0]), prefixes[1..])
  }

  /** The prefix loop as the source runs it, reassigning `content` on each match. */
  method RemovePrefixes(content: string, prefixes: seq<string>) returns (cleaned: string)
    ensures cleaned == DropPrefixes(content, prefixes)
  {
    cleaned := content;
    var k := 0;
    while k < |prefixes|
      invariant 0 <= k <= |prefixes|
      invariant DropPrefixes(content, prefixes) == DropPrefixes(cleaned, prefixes[k..])
    {
      var prefix := prefixes[k];
      assert prefixes[k..][1..] == prefixes[k + 1..];
      if StartsWith(Strip(cleaned), prefix) {
        cleaned := Strip(Strip(cleaned)[|prefix|..]);
      }
      k := k + 1;
    }
  }

  /** A reply that starts with none of the prefixes keeps its whitespace and text. */
  lemma {:induction false} DropPrefixesNoMatch(content: string, prefixes: seq<string>)
    requires forall j :: 0 <= j < |prefixes| ==> !StartsWith(Strip(content), prefixes[j])
    ensures DropPrefixes(content, prefixes) == content
    decreases |prefixes|
  {
    if prefixes != [] {
      DropPrefixesNoMatch(content, prefixes[1..]);
    }
  }

  /** The loop either leaves the reply untouched or returns it stripped. */
  lemma {:induction false} DropPrefixesShape(content: string, prefixes: seq<string>)
    ensures DropPrefixes(content, prefixes) == content || Trimmed(DropPrefixes(content, prefixes))
    decreases |prefixes|
  {
    if prefixes != [] {
      var next := DropPrefix(content, prefixes[0]);
      DropPrefixesShape(next, prefixes[1..]);
    }
  }

  /** One prefix step on a matching reply leaves the stripped rest. */
  lemma DropPrefixMatched(content: string, prefix: string, rest: string)
    requires Strip(content) == prefix + rest
    ensures DropPrefix(content, prefix) == Strip(rest)
  {
    var s := Strip(content);
    assert s[..|prefix|] == prefix;
    assert s[|prefix|..] == rest;
  }

  /** A prefix that does not match leaves the reply as it was for the prefixes after it. */
  lemma DropFirstMiss(content: string, prefixes: seq<string>)
    requires prefixes != [] && !StartsWith(Strip(content), prefixes[0])
    ensures DropPrefixes(content, prefixes) == DropPrefixes(content, prefixes[1..])
  {
  }

  /**
   * The loop does not stop at a match: when the stripped reply is `prefixes[k] + rest`
   * and no earlier prefix matches it, the later prefixes go on to work on the
   * stripped `rest`.
   */
  lemma {:induction false} DropPrefixesGoesOn(content: string, prefixes: seq<string>, k: nat, rest: string)
    requires k < |prefixes|
    requires Strip(content) == prefixes[k] + rest
    requires forall j :: 0 <= j < k ==> !StartsWith(Strip(content), prefixes[j])
    ensures DropPrefixes(content, prefixes) == DropPrefixes(Strip(rest), prefixes[k + 1..])
    decreases k
  {
    if k == 0 {
      DropPrefixMatched(content, prefixes[0], rest);
    } else {
      DropFirstMiss(content, prefixes);
      var tail := prefixes[1..];
      assert tail[k - 1] == prefixes[k];
      assert tail[k..] == prefixes[k + 1..];
      forall j | 0 <= j < k - 1 ensures !StartsWith(Strip(content), tail[j]) {
        assert tail[j] == prefixes[j + 1];
      }
      DropPrefixesGoesOn(content, tail, k - 1, rest);
    }
  }

  /**
   * The loop removes a matched prefix: when the stripped reply is `prefixes[k] + rest`,
   * no earlier prefix matches it and no later prefix matches the stripped `rest`,
   * the result is the stripped `rest`.
   */
  lemma DropPrefixesRemovesMatch(content: string, prefixes: seq<string>, k: nat, rest: string)
    requires k < |prefixes|
    requires Strip(content) == prefixes[k] + rest
    requires forall j :: 0 <= j < k ==> !StartsWith(Strip(content), prefixes[j])
    requires forall j :: k < j < |prefixes| ==> !StartsWith(Strip(rest), prefixes[j])
    ensures DropPrefixes(content, prefixes) == Strip(rest)
  {
    DropPrefixesGoesOn(content, prefixes, k, rest);
    StripTrimmed(Strip(rest));
    var later := prefixes[k + 1..];
    forall j | 0 <= j < |later| ensures !StartsWith(Strip(Strip(rest)), later[j]) {
      assert later[j] == prefixes[k + 1 + j];
    }
    DropPrefixesNoMatch(Strip(rest), later);
  }

  /** `content.replace("{project_name}", …).replace("{meeting_date}", …).replace("[Name]", "MoM Agent")` */
  function Substitute(content: string, projectName: string, today: string): string {
    var a := Replace(content, ProjectToken, DisplayName(projectName));
    var b := Replace(a, DateToken, today);
    Replace(b, NameToken, AgentName)
  }

  /** What a successful reply is turned into before it is returned. */
  function Sanitize(content: string, projectName: string, today: string): string {
    Substitute(DropPrefixes(content, UnwantedPrefixes), projectName, today)
  }

  /** The agent name can never help spell any of the three placeholders. */
  lemma AgentNameFormsNoToken()
    ensures Unformable(NameToken, AgentName)
    ensures Unformable(DateToken, AgentName)
    ensures Unformable(ProjectToken, AgentName)
  {
    AgentNameFormsNoNameToken();
    AgentNameFormsNoBraceToken(DateToken);
    AgentNameFormsNoBraceToken(ProjectToken);
  }

  lemma AgentNameFormsNoNameToken()
    ensures Unformable(NameToken, AgentName)
  {
    UnformableByHeads(NameToken, AgentName);
  }

  lemma AgentNameFormsNoBraceToken(q: string)
    requires q == DateToken || q == ProjectToken
    ensures Unformable(q, AgentName)
  {
    assert q[0] == '{' && 'M' !in q[1..];
    UnformableByHeads(q, AgentName);
  }

  /** A well-formed date can never help spell either brace placeholder. */
  lemma IsoDateFormsNoToken(d: string)
    requires IsIsoDate(d)
    ensures Unformable(DateToken, d)
    ensures Unformable(ProjectToken, d)
  {
    IsoDateFormsNoBraceToken(d, DateToken);
    IsoDateFormsNoBraceToken(d, ProjectToken);
  }

  lemma IsoDateFormsNoBraceToken(d: string, q: string)
    requires IsIsoDate(d) && (q == DateToken || q == ProjectToken)
    ensures Unformable(q, d)
  {
    assert q[0] == '{' && '{' !in d;
    assert forall j :: 1 <= j < |q| ==> !('0' <= q[j] <= '9');
    assert d[0] !in q[1..];
    UnformableByHeads(q, d);
  }

  /** After substitution no `[Name]` is left, whatever the reply and the arguments. */
  lemma SubstituteResolvesName(content: string, projectName: string, today: string)
    ensures !Contains(Substitute(content, projectName, today), NameToken)
  {
    AgentNameFormsNoToken();
    var b := Replace(Replace(content, ProjectToken, DisplayName(projectName)), DateToken, today);
    ReplaceAvoids(b, NameToken, AgentName, NameToken);
  }

  /** With a well-formed date, no `{meeting_date}` is left. */
  lemma SubstituteResolvesDate(content: string, projectName: string, today: string)
    requires IsIsoDate(today)
    ensures !Contains(Substitute(content, projectName, today), DateToken)
  {
    AgentNameFormsNoToken();
    IsoDateFormsNoToken(today);
    var a := Replace(content, ProjectToken, DisplayName(projectName));
    ReplaceAvoids(a, DateToken, today, DateToken);
    ReplaceAvoids(Replace(a, DateToken, today), NameToken, AgentName, DateToken);
  }

  /**
   * No `{project_name}` is left when the project name cannot help spell it
   * (the default "Meeting Project" cannot); the name "p" shows the condition is needed.
   */
  lemma SubstituteResolvesProject(content: string, projectName: string, today: string)
    requires IsIsoDate(today)
    requires Unformable(ProjectToken, DisplayName(projectName))
    ensures !Contains(Substitute(content, projectName, today), ProjectToken)
  {
    AgentNameFormsNoToken();
    IsoDateFormsNoToken(today);
    var a := Replace(content, ProjectToken, DisplayName(projectName));
    ReplaceAvoids(content, ProjectToken, DisplayName(projectName), ProjectToken);
    ReplaceAvoids(a, DateToken, today, ProjectToken);
    ReplaceAvoids(Replace(a, DateToken, today), NameToken, AgentName, ProjectToken);
  }

  lemma DefaultNameFormsNoToken()
    ensures Unformable(ProjectToken, DisplayName(""))
  {
    UnformableByHeads(ProjectToken, DefaultProjectName);
  }

  /** Substitution changes nothing in text that holds none of the three placeholders. */
  lemma SubstituteWithoutTokens(content: string, projectName: string, today: string)
    requires !Contains(content, ProjectToken) && !Contains(content, DateToken) && !Contains(content, NameToken)
    ensures Substitute(content, projectName, today) == content
  {
  }

  /** A second substitution pass is a no-op once the first resolved every placeholder. */
  lemma SubstituteIdempotent(content: string, projectName: string, today: string)
    requires IsIsoDate(today)
    requires Unformable(ProjectToken, DisplayName(projectName))
    ensures Substitute(Substitute(content, projectName, today), projectName, today) == Substitute(content, projectName, today)
  {
    SubstituteResolvesName(content, projectName, today);
    SubstituteResolvesDate(content, projectName, today);
    SubstituteResolvesProject(content, projectName, today);
    SubstituteWithoutTokens(Substitute(content, projectName, today), projectName, today);
  }

  // ---------------------------------------------------------------- failure report

  /** The document returned when the model judged to be the last one fails. */
  function DiagnosticDocument(projectName: string, today: string, lastError: string, models: seq<string>): string {
    DiagnosticHead + DisplayName(projectName)
    + DiagnosticDate + today
    + DiagnosticError + lastError
    + DiagnosticModels + Join(", ", models)
    + DiagnosticAdvice
  }

  /** Where the pieces of the diagnostic sit, stated for any nine pieces. */
  lemma DocumentPieces(h: string, n: string, dd: string, t: string, de: string, e: string, dm: string, m: string, da: string)
    ensures var doc := h + n + dd + t + de + e + dm + m + da;
            && StartsWith(doc, h)
            && Contains(doc, h + n)
            && Contains(doc, dd + t)
            && Contains(doc, de + e)
            && Contains(doc, dm + m)
  {
    var d1 := h + n;
    var d2 := d1 + dd + t;
    var d3 := d2 + de + e;
    var d4 := d3 + dm + m;
    ContainsAt(d1, d1, 0);
    ContainsExtend(d1, dd, d1);
    ContainsExtend(d1 + dd, t, d1);
    ContainsExtend(d2, de, d1);
    ContainsExtend(d2 + de, e, d1);
    ContainsExtend(d3, dm, d1);
    ContainsExtend(d3 + dm, m, d1);
    ContainsExtend(d4, da, d1);
    ContainsLastTwo(d1, dd, t);
    ContainsExtend(d2, de, dd + t);
    ContainsExtend(d2 + de, e, dd + t);
    ContainsExtend(d3, dm, dd + t);
    ContainsExtend(d3 + dm, m, dd + t);
    ContainsExtend(d4, da, dd + t);
    ContainsLastTwo(d2, de, e);
    ContainsExtend(d3, dm, de + e);
    ContainsExtend(d3 + dm, m, de + e);
    ContainsExtend(d4, da, de + e);
    ContainsLastTwo(d3, dm, m);
    ContainsExtend(d4, da, dm + m);
    assert (d4 + da)[..|h|] == h;
  }

  /** The diagnostic names the project, the date, the error and every model tried, in order. */
  lemma DiagnosticContents(projectName: string, today: string, lastError: string, models: seq<string>)
    ensures var doc := DiagnosticDocument(projectName, today, lastError, models);
            && StartsWith(doc, DiagnosticHead)
            && Contains(doc, DiagnosticHead + DisplayName(projectName))
            && Contains(doc, DiagnosticDate + today)
            && Contains(doc, DiagnosticError + lastError)
            && Contains(doc, DiagnosticModels + Join(", ", models))
  {
    DocumentPieces(DiagnosticHead, DisplayName(projectName), DiagnosticDate, today, DiagnosticError, lastError,
                   DiagnosticModels, Join(", ", models), DiagnosticAdvice);
  }
}
