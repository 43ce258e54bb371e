/** The fixed texts and request settings of `OpenAIService`. */
module MomText {

  const ProjectToken := "{project_name}"
  const DateToken := "{meeting_date}"
  const NameToken := "[Name]"
  const AgentName := "MoM Agent"
  const DefaultProjectName := "Meeting Project"

  /** The skeleton the model is asked to fill in, already stripped of surrounding whitespace. */
  const MomTemplate :=
    "**Minutes of Meeting**\n\n**Project Name:** {project_name}\n**Meeting Date:** {meeting_date}\n"
    + "**Meeting Attendees:**\n-\n\n**Discussion Points:**\n1.\n\n**Decisions Made:**\n1.\n\n"
    + "**Action Items:**\n\n**Client Team:**\n- [ ]\n\n**Spikra Team:**\n- [ ]\n\n**Prepared by:** [Name]"

  const UserInstruction := "Please analyze this meeting transcript and generate a structured Minutes of Meeting:"

  const ContextMarker := "Previous meeting context for this project: "

  /** The system prompt up to the project name in guideline 7. */
  const PromptIntro :=
    "You are an AI assistant specialized in generating structured Minutes of Meeting (MoM) from meeting transcripts.\n\n"
    + "Your task is to analyze the provided meeting transcript and generate a well-structured MoM using the following template:\n\n"
    + MomTemplate
    + "\n\nGuidelines:\n"
    + "1. Extract key discussion points from the transcript\n"
    + "2. Identify clear decisions that were made during the meeting\n"
    + "3. Separate action items between Client Team and Spikra Team based on context\n"
    + "4. Use all the attendee names mentioned in the transcript\n"
    + "5. Keep the content concise but comprehensive\n"
    + "6. Use bullet points and numbered lists for clarity\n"
    + "7. Replace {project_name} with the actual project name: "

  const DateGuideline := "\n8. Replace {meeting_date} with today's date: "

  const OrganizerGuideline :=
    "\n9. For \"Prepared by\", try to identify who might be the meeting organizer/facilitator from the transcript, or use \"MoM Agent\" if unclear\n\n"

  const PromptTail :=
    "\n\nIMPORTANT:\n"
    + "- Start your response directly with \"**Minutes of Meeting**\"\n"
    + "- Do NOT include any introductory text like \"Here are the Minutes...\" or \"Based on the transcript...\"\n"
    + "- Generate the MoM in markdown format following the template structure exactly\n"
    + "- Extract real content from the transcript, not placeholder text"

  /** Introductory phrases removed from a reply, checked in this order. */
  const UnwantedPrefixes: seq<string> := [
    "Here are the Minutes of Meeting based on the provided transcript:",
    "Based on the provided transcript, here are the Minutes of Meeting:",
    "Here is the structured Minutes of Meeting:",
    "Based on the transcript:",
    "Here are the minutes:"
  ]

  const DiagnosticHead := "**Minutes of Meeting**\n\n**Project Name:** "
  const DiagnosticDate := "\n**Meeting Date:** "
  const DiagnosticError := "\n\n**Error:** All OpenAI models failed\n**Last Error:** "
  const DiagnosticModels := "\n\n**Tried Models:** "
  const DiagnosticAdvice := "\n\nPlease check your API key or try again later."

  /** The model used when none is given, and the fallbacks tried after the primary, in order. */
  const DefaultModel := "gpt-4o-mini"
  const FallbackModels: seq<string> := ["gpt-4o-mini", "gpt-4o", "gpt-3.5-turbo"]

  const MomMaxTokens := 2000
  const PingMaxTokens := 10
  const PingText := "Hello, please respond with 'OK'"

  /** What `str(e)` reads when `.strip()` is called on a `None` reply. */
  const NoneStripError := "'NoneType' object has no attribute 'strip'"
}
