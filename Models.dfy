/**
 * The project and meeting store of app/models.py. The data directory is a map
 * from project name to the project's directory: its metadata and its meeting
 * files, keyed by meeting id (`meeting_<id>.json`).
 */
module Models {
  import opened Wrappers
  import opened Text

  /** A meeting record; a key missing from a stored record reads as "". */
  datatype Meeting = Meeting(
    id: string,
    title: string,
    date: string,
    transcript: string,
    draftMom: string,
    finalMom: string,
    attendees: seq<string>)

  datatype Project = Project(name: string, createdDate: string, meetings: seq<Meeting>)

  /** A meeting file: a record that parses, or one that does not. */
  datatype MeetingFile = Readable(record: Meeting) | Unreadable

  datatype ProjectDir = ProjectDir(metadata: Project, files: map<string, MeetingFile>)

  /** `Meeting(id=…, title=…, date=…)`: the remaining fields take their defaults. */
  function NewMeeting(id: string, title: string, date: string): (m: Meeting)
    ensures m.id == id && m.title == title && m.date == date
    ensures m.transcript == "" && m.draftMom == "" && m.finalMom == "" && m.attendees == []
  {
    Meeting(id, title, date, "", "", "", [])
  }

  /** `Project(name=…, created_date=…)`: a project starts with no meetings. */
  function NewProject(name: string, createdDate: string): (p: Project)
    ensures p.name == name && p.createdDate == createdDate && p.meetings == []
  {
    Project(name, createdDate, [])
  }

  // ---------------------------------------------------------------- listing order

  /** Each meeting's date is no earlier, as Python compares strings, than the dates after it. */
  predicate DateDescending(ms: seq<Meeting>) {
    forall i, j :: 0 <= i < j < |ms| ==> !Less(ms[i].date, ms[j].date)
  }

  /** "Not earlier than" is transitive. */
  lemma NotLessTransitive(a: string, b: string, c: string)
    requires !Less(a, b) && !Less(b, c)
    ensures !Less(a, c)
  {
    LessTotal(a, b);
    LessTotal(b, c);
    if a != b && b != c {
      LessTransitive(c, b, a);
      LessAsymmetric(c, a);
    }
  }

  /** Places `x` before the first meeting it is not earlier than. */
  function InsertByDate(ms: seq<Meeting>, x: Meeting): (r: seq<Meeting>)
    ensures multiset(r) == multiset(ms) + multiset{x}
  {
    if ms == [] || !Less(x.date, ms[0].date) then [x] + ms
    else
      assert ms == [ms[0]] + ms[1..];
      [ms[0]] + InsertByDate(ms[1..], x)
  }

  /** Inserting into a listing sorted newest first keeps it sorted. */
  lemma {:induction false} InsertKeepsOrder(ms: seq<Meeting>, x: Meeting)
    requires DateDescending(ms)
    ensures DateDescending(InsertByDate(ms, x))
  {
    if ms == [] || !Less(x.date, ms[0].date) {
      forall j | 0 <= j < |ms| ensures !Less(x.date, ms[j].date) {
        if j > 0 {
          NotLessTransitive(x.date, ms[0].date, ms[j].date);
        }
      }
    } else {
      LessAsymmetric(x.date, ms[0].date);
      var rest := InsertByDate(ms[1..], x);
      InsertKeepsOrder(ms[1..], x);
      forall y | y in rest ensures !Less(ms[0].date, y.date) {
        assert y in multiset(rest);
        if y != x {
          assert y in ms[1..];
        }
      }
    }
  }

  /** `list.sort(key=lambda x: x.get('date', ''), reverse=True)` */
  function SortByDate(ms: seq<Meeting>): (r: seq<Meeting>)
    ensures multiset(r) == multiset(ms)
    ensures DateDescending(r)
  {
    if ms == [] then []
    else
      assert ms == [ms[0]] + ms[1..];
      InsertKeepsOrder(SortByDate(ms[1..]), ms[0]);
      InsertByDate(SortByDate(ms[1..]), ms[0])
  }

  // ---------------------------------------------------------------- prior-meeting context

  const ContextLimit := 5

  /** `meetings[-5:]`: the last five entries of the list, or all of a shorter one. */
  function Window(ms: seq<Meeting>): (w: seq<Meeting>)
    ensures |w| <= ContextLimit
    ensures |ms| <= ContextLimit ==> w == ms
    ensures |ms| > ContextLimit ==> w == ms[|ms| - ContextLimit..]
  {
    if |ms| <= ContextLimit then ms else ms[|ms| - ContextLimit..]
  }

  /** `meeting.get('final_mom') or meeting.get('draft_mom')` is truthy. */
  predicate HasMinutes(m: Meeting) {
    m.finalMom != "" || m.draftMom != ""
  }

  /** The minutes a meeting contributes, the final version in preference to the draft. */
  function Minutes(m: Meeting): (r: string)
    ensures m.finalMom != "" ==> r == m.finalMom
    ensures m.finalMom == "" ==> r == m.draftMom
  {
    if m.finalMom != "" then m.finalMom else m.draftMom
  }

  const PartHead := "Previous meeting ("
  const PartMiddle := "):\n"

  /** `f"Previous meeting ({date}):\n{mom_content}\n"` */
  function Part(m: Meeting): (r: string)
    ensures StartsWith(r, PartHead)
    ensures r[|r| - 1] == '\n'
  {
    PartHead + m.date + PartMiddle + Minutes(m) + "\n"
  }

  /** The parts the loop appends for `ws`, in order, skipping meetings without minutes. */
  function ContextParts(ws: seq<Meeting>): (parts: seq<string>)
    ensures |parts| <= |ws|
  {
    if ws == [] then []
    else
      var last := ws[|ws| - 1];
      ContextParts(ws[..|ws| - 1]) + (if HasMinutes(last) then [Part(last)] else [])
  }

  /** `get_project_context` on the listing `ms`. */
  function Context(ms: seq<Meeting>): string {
    if ms == [] then "" else Join("\n", ContextParts(Window(ms)))
  }

  /** A part is in the list exactly when it is the part of a meeting there that has minutes. */
  lemma {:induction false} ContextPartsMembers(ws: seq<Meeting>, p: string)
    ensures p in ContextParts(ws) <==> exists m :: m in ws && HasMinutes(m) && p == Part(m)
  {
    if ws != [] {
      var init := ws[..|ws| - 1];
      ContextPartsMembers(init, p);
      assert ws == init + [ws[|ws| - 1]];
      if p in ContextParts(ws) && p !in ContextParts(init) {
        assert HasMinutes(ws[|ws| - 1]) && p == Part(ws[|ws| - 1]);
      }
      if exists m :: m in ws && HasMinutes(m) && p == Part(m) {
        var m :| m in ws && HasMinutes(m) && p == Part(m);
        if m !in init {
          assert m == ws[|ws| - 1];
        }
      }
    }
  }

  /** The context is empty exactly when no meeting in the window has minutes. */
  lemma ContextEmpty(ms: seq<Meeting>)
    ensures Context(ms) == "" <==> forall m :: m in Window(ms) ==> !HasMinutes(m)
  {
    var parts := ContextParts(Window(ms));
    forall k | 0 <= k < |parts| ensures parts[k] != "" {
      ContextPartsMembers(Window(ms), parts[k]);
      var m :| m in Window(ms) && HasMinutes(m) && parts[k] == Part(m);
      assert StartsWith(Part(m), PartHead);
    }
    JoinEmpty("\n", parts);
    if parts != [] {
      ContextPartsMembers(Window(ms), parts[0]);
    }
    if exists m :: m in Window(ms) && HasMinutes(m) {
      var m :| m in Window(ms) && HasMinutes(m);
      ContextPartsMembers(Window(ms), Part(m));
    }
  }

  /** Each meeting in the window with minutes has its part in the context. */
  lemma ContextShowsMinutes(ms: seq<Meeting>, m: Meeting)
    requires m in Window(ms) && HasMinutes(m)
    ensures Contains(Context(ms), Part(m))
  {
    var parts := ContextParts(Window(ms));
    ContextPartsMembers(Window(ms), Part(m));
    var k :| 0 <= k < |parts| && parts[k] == Part(m);
    JoinContainsParts("\n", parts, k);
  }

  /**
   * On a listing sorted newest first, the window holds the oldest meetings: no
   * meeting left out is earlier than a meeting in the window.
   */
  lemma WindowHoldsOldest(ms: seq<Meeting>, i: nat, j: nat)
    requires DateDescending(ms) && |ms| > ContextLimit
    requires i < |ms| - ContextLimit && j < ContextLimit
    ensures !Less(ms[i].date, Window(ms)[j].date)
  {
    assert Window(ms)[j] == ms[|ms| - ContextLimit + j];
  }

  // ---------------------------------------------------------------- the store

  /** The readable meeting files among `ids`. */
  ghost function ReadableIn(files: map<string, MeetingFile>, ids: set<string>): set<string> {
    set id | id in ids && id in files && files[id].Readable?
  }

  /** The records of the readable meeting files among `ids`. */
  ghost function RecordsIn(files: map<string, MeetingFile>, ids: set<string>): set<Meeting> {
    set id | id in ids && id in files && files[id].Readable? :: files[id].record
  }

  /** The ids among `ids` whose file holds exactly the record `x`. */
  ghost function CopiesIn(files: map<string, MeetingFile>, ids: set<string>, x: Meeting): set<string> {
    set id | id in ids && id in files && files[id] == Readable(x)
  }

  class DataManager {
    /** The data directory: project name to project directory. */
    var projects: map<string, ProjectDir>

    /** Every project directory holds its own name, and every readable file the id it is stored under. */
    ghost predicate Consistent()
      reads this
    {
      forall p :: p in projects ==>
        && projects[p].metadata.name == p
        && forall id :: id in projects[p].files && projects[p].files[id].Readable? ==>
             projects[p].files[id].record.id == id
    }

    /** `DataManager(base_dir)` over a data directory with contents `existing`. */
    constructor(existing: map<string, ProjectDir>)
      ensures projects == existing
    {
      projects := existing;
    }

    /** `get_meeting`: the record stored under `meetingId`, if that file exists and parses. */
    function GetMeeting(projectName: string, meetingId: string): (r: Option<Meeting>)
      reads this
      ensures r.Some? <==> projectName in projects && meetingId in projects[projectName].files
                           && projects[projectName].files[meetingId].Readable?
      ensures r.Some? ==> r.value == projects[projectName].files[meetingId].record
    {
      if projectName in projects && meetingId in projects[projectName].files then
        match projects[projectName].files[meetingId]
        case Readable(m) => Some(m)
        case Unreadable => None
      else None
    }

    /** What `get_project_meetings` promises about its result. */
    ghost predicate IsListing(projectName: string, ms: seq<Meeting>)
      reads this
    {
      if projectName !in projects then ms == []
      else
        var files := projects[projectName].files;
        && (forall x :: x in ms <==> x in RecordsIn(files, files.Keys))
        && (forall x :: multiset(ms)[x] == |CopiesIn(files, files.Keys, x)|)
        && |ms| == |ReadableIn(files, files.Keys)|
        && DateDescending(ms)
    }

    /** `get_projects`: every project name once, in directory order. */
    method GetProjects() returns (names: seq<string>)
      ensures forall p :: p in names <==> p in projects
      ensures forall i, j :: 0 <= i < j < |names| ==> names[i] != names[j]
    {
      names := [];
      var remaining := projects.Keys;
      while remaining != {}
        invariant remaining <= projects.Keys
        invariant forall p :: p in names <==> p in projects && p !in remaining
        invariant forall i, j :: 0 <= i < j < |names| ==> names[i] != names[j]
        decreases |remaining|
      {
        var p :| p in remaining;
        names := names + [p];
        remaining := remaining - {p};
      }
    }

    /** `create_project`: refuses an existing name, otherwise adds an empty project. */
    method CreateProject(projectName: string, createdDate: string) returns (ok: bool)
      modifies this
      ensures ok <==> projectName !in old(projects)
      ensures !ok ==> projects == old(projects)
      ensures ok ==> projects == old(projects)[projectName := ProjectDir(NewProject(projectName, createdDate), map[])]
      ensures old(Consistent()) ==> Consistent()
    {
      if projectName in projects {
        return false;
      }
      projects := projects[projectName := ProjectDir(NewProject(projectName, createdDate), map[])];
      ok := true;
    }

    /**
     * `get_project_meetings`: every readable record of the project, unreadable files
     * skipped, newest date first; nothing for a missing project.
     */
    method GetProjectMeetings(projectName: string) returns (meetings: seq<Meeting>)
      ensures IsListing(projectName, meetings)
    {
      if projectName !in projects {
        return [];
      }
      var collected := ReadRecords(projects[projectName].files);
      meetings := SortByDate(collected);
      assert forall x :: x in meetings <==> x in multiset(collected);
    }

    /**
     * `create_meeting`: a missing project is an error; otherwise a fresh record with
     * the given title, id and date is stored and its id returned.
     */
    method CreateMeeting(projectName: string, title: string, meetingId: string, date: string)
      returns (r: Result<string, string>)
      modifies this
      ensures projectName !in old(projects) ==>
                r == Failure("Project " + projectName + " does not exist") && projects == old(projects)
      ensures projectName in old(projects) ==>
                && r == Success(meetingId)
                && var dir := old(projects)[projectName];
                   projects == old(projects)[projectName := dir.(files := dir.files[meetingId := Readable(NewMeeting(meetingId, title, date))])]
      ensures old(Consistent()) ==> Consistent()
    {
      if projectName !in projects {
        return Failure("Project " + projectName + " does not exist");
      }
      var dir := projects[projectName];
      projects := projects[projectName := dir.(files := dir.files[meetingId := Readable(NewMeeting(meetingId, title, date))])];
      r := Success(meetingId);
    }

    /** `save_meeting`: writes the record under its own id; fails when the project directory is missing. */
    method SaveMeeting(projectName: string, meeting: Meeting) returns (ok: bool)
      modifies this
      ensures ok <==> projectName in old(projects)
      ensures !ok ==> projects == old(projects)
      ensures ok ==> var dir := old(projects)[projectName];
                     projects == old(projects)[projectName := dir.(files := dir.files[meeting.id := Readable(meeting)])]
      ensures ok ==> GetMeeting(projectName, meeting.id) == Some(meeting)
      ensures old(Consistent()) ==> Consistent()
    {
      if projectName !in projects {
        return false;
      }
      var dir := projects[projectName];
      projects := projects[projectName := dir.(files := dir.files[meeting.id := Readable(meeting)])];
      ok := true;
    }

    /** `get_project_context`: the minutes of the last five meetings of the listing. */
    method GetProjectContext(projectName: string) returns (context: string)
      ensures exists ms :: IsListing(projectName, ms) && context == Context(ms)
    {
      var meetings := GetProjectMeetings(projectName);
      context := ContextOf(meetings);
    }

    /** `delete_meeting`: true exactly when the file existed; it is gone afterwards, nothing else changes. */
    method DeleteMeeting(projectName: string, meetingId: string) returns (ok: bool)
      modifies this
      ensures ok <==> projectName in old(projects) && meetingId in old(projects)[projectName].files
      ensures !ok ==> projects == old(projects)
      ensures ok ==> var dir := old(projects)[projectName];
                     projects == old(projects)[projectName := dir.(files := dir.files - {meetingId})]
      ensures GetMeeting(projectName, meetingId) == None
      ensures old(Consistent()) ==> Consistent()
    {
      if projectName in projects && meetingId in projects[projectName].files {
        var dir := projects[projectName];
        projects := projects[projectName := dir.(files := dir.files - {meetingId})];
        return true;
      }
      ok := false;
    }

    /** `delete_project`: true exactly when the project existed; it is gone with its meetings. */
    method DeleteProject(projectName: string) returns (ok: bool)
      modifies this
      ensures ok <==> projectName in old(projects)
      ensures projects == old(projects) - {projectName}
      ensures old(Consistent()) ==> Consistent()
    {
      ok := projectName in projects;
      projects := projects - {projectName};
    }
  }

  /** `collected` is what reading the files of `seen` gives: their readable records, one entry per file. */
  ghost predicate ReadFrom(files: map<string, MeetingFile>, seen: set<string>, collected: seq<Meeting>) {
    && (forall x :: x in collected <==> x in RecordsIn(files, seen))
    && (forall x :: multiset(collected)[x] == |CopiesIn(files, seen, x)|)
    && |collected| == |ReadableIn(files, seen)|
  }

  /** Reading one more file appends its record when it is readable, and nothing otherwise. */
  lemma ReadStep(files: map<string, MeetingFile>, seen: set<string>, id: string, collected: seq<Meeting>, next: seq<Meeting>)
    requires id in files && id !in seen && ReadFrom(files, seen, collected)
    requires next == collected + (if files[id].Readable? then [files[id].record] else [])
    ensures ReadFrom(files, seen + {id}, next)
  {
    if files[id].Readable? {
      assert ReadableIn(files, seen + {id}) == ReadableIn(files, seen) + {id};
      assert RecordsIn(files, seen + {id}) == RecordsIn(files, seen) + {files[id].record};
    } else {
      assert ReadableIn(files, seen + {id}) == ReadableIn(files, seen);
      assert RecordsIn(files, seen + {id}) == RecordsIn(files, seen);
    }
    CopiesStep(files, seen, id);
  }

  /** Adding one id to the ids read adds one copy of its record, and of no other. */
  lemma CopiesStep(files: map<string, MeetingFile>, seen: set<string>, id: string)
    requires id in files && id !in seen
    ensures forall x :: |CopiesIn(files, seen + {id}, x)| == |CopiesIn(files, seen, x)| + (if files[id] == Readable(x) then 1 else 0)
  {
    forall x
      ensures |CopiesIn(files, seen + {id}, x)| == |CopiesIn(files, seen, x)| + (if files[id] == Readable(x) then 1 else 0)
    {
      if files[id] == Readable(x) {
        assert CopiesIn(files, seen + {id}, x) == CopiesIn(files, seen, x) + {id};
      } else {
        assert CopiesIn(files, seen + {id}, x) == CopiesIn(files, seen, x);
      }
    }
  }

  /** The loop over the project's meeting files: readable records are kept, the others skipped. */
  method ReadRecords(files: map<string, MeetingFile>) returns (collected: seq<Meeting>)
    ensures forall x :: x in collected <==> x in RecordsIn(files, files.Keys)
    ensures forall x :: multiset(collected)[x] == |CopiesIn(files, files.Keys, x)|
    ensures |collected| == |ReadableIn(files, files.Keys)|
  {
    collected := [];
    var remaining := files.Keys;
    ghost var seen: set<string> := {};
    while remaining != {}
      invariant remaining <= files.Keys && seen == files.Keys - remaining
      invariant ReadFrom(files, seen, collected)
      decreases |remaining|
    {
      var id :| id in remaining;
      ghost var before := collected;
      match files[id] {
        case Readable(m) => collected := collected + [m];
        case Unreadable =>
      }
      ReadStep(files, seen, id, before, collected);
      remaining := remaining - {id};
      seen := seen + {id};
    }
    assert seen == files.Keys;
  }

  /** The context loop of `get_project_context` over a listing. */
  method ContextOf(meetings: seq<Meeting>) returns (context: string)
    ensures context == Context(meetings)
  {
    if meetings == [] {
      return "";
    }
    var window := if |meetings| <= ContextLimit then meetings else meetings[|meetings| - ContextLimit..];
    var parts: seq<string> := [];
    var k := 0;
    while k < |window|
      invariant 0 <= k <= |window|
      invariant parts == ContextParts(window[..k])
    {
      var m := window[k];
      if m.finalMom != "" || m.draftMom != "" {
        var minutes := if m.finalMom != "" then m.finalMom else m.draftMom;
        parts := parts + [PartHead + m.date + PartMiddle + minutes + "\n"];
      }
      assert window[..k + 1][..k] == window[..k];
      k := k + 1;
    }
    assert window[..k] == window;
    context := Join("\n", parts);
  }
}
