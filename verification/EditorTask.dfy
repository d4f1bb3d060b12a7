/** The task editor: what it writes for a task, what it reads back, and the merge
    of the result onto the task. */
module EditorTask {
  import opened Prelude
  import opened Text
  import opened Trimming
  import opened EditorSections
  import opened EditorValues

  // ---------- the enums and their strings ----------

  datatype TaskStatus = Backlog | Running | Review | Done
  datatype TaskTag = Bug | Feature | Chore | PrReview | Research | Fix | Dependabot | ReleasePlease
  datatype WrapUpMode = WrapRebase | WrapPr | WrapDone
  datatype TaskModel = Haiku | Sonnet | Opus | Fable
  datatype UrlType = Pr | SecurityAlert | Issue | Other

  function StatusText(s: TaskStatus): string {
    match s
    case Backlog => "backlog"
    case Running => "running"
    case Review => "review"
    case Done => "done"
  }

  function ParseStatus(s: string): Option<TaskStatus> {
    if s == "backlog" || s == "ready" then Some(Backlog)
    else if s == "running" then Some(Running)
    else if s == "review" then Some(Review)
    else if s == "done" then Some(Done)
    else None
  }

  function TagText(t: TaskTag): string {
    match t
    case Bug => "bug"
    case Feature => "feature"
    case Chore => "chore"
    case PrReview => "pr-review"
    case Research => "research"
    case Fix => "fix"
    case Dependabot => "dependabot"
    case ReleasePlease => "release-please"
  }

  function ParseTag(s: string): Option<TaskTag> {
    if s == "bug" then Some(Bug)
    else if s == "feature" then Some(Feature)
    else if s == "chore" then Some(Chore)
    else if s == "pr-review" then Some(PrReview)
    else if s == "research" then Some(Research)
    else if s == "fix" then Some(Fix)
    else if s == "dependabot" then Some(Dependabot)
    else if s == "release-please" then Some(ReleasePlease)
    else None
  }

  function WrapText(m: WrapUpMode): string {
    match m
    case WrapRebase => "rebase"
    case WrapPr => "pr"
    case WrapDone => "done"
  }

  function ParseWrap(s: string): Option<WrapUpMode> {
    if s == "rebase" then Some(WrapRebase)
    else if s == "pr" then Some(WrapPr)
    else if s == "done" then Some(WrapDone)
    else None
  }

  function ModelText(m: TaskModel): string {
    match m
    case Haiku => "haiku"
    case Sonnet => "sonnet"
    case Opus => "opus"
    case Fable => "fable"
  }

  function ParseModel(s: string): Option<TaskModel> {
    if s == "haiku" then Some(Haiku)
    else if s == "sonnet" then Some(Sonnet)
    else if s == "opus" then Some(Opus)
    else if s == "fable" then Some(Fable)
    else None
  }

  function UrlTypeText(t: UrlType): string {
    match t
    case Pr => "pr"
    case SecurityAlert => "security_alert"
    case Issue => "issue"
    case Other => "other"
  }

  function ParseUrlType(s: string): Option<UrlType> {
    if s == "pr" then Some(Pr)
    else if s == "security_alert" then Some(SecurityAlert)
    else if s == "issue" then Some(Issue)
    else if s == "other" then Some(Other)
    else None
  }

  function AsciiLower(s: string): string {
    if s == "" then ""
    else [if 'A' <= s[0] <= 'Z' then s[0] + (32 as char) else s[0]] + AsciiLower(s[1..])
  }

  /** `parse_editor_bool`. */
  function ParseEditorBool(raw: string): Option<bool> {
    var s := AsciiLower(Trim(raw));
    if s == "true" || s == "yes" || s == "on" || s == "1" then Some(true)
    else if s == "false" || s == "no" || s == "off" || s == "0" then Some(false)
    else None
  }

  function BoolText(b: bool): string {
    if b then "true" else "false"
  }

  function BeforeQuery(url: string): string {
    if url == "" || url[0] == '?' || url[0] == '#' then "" else [url[0]] + BeforeQuery(url[1..])
  }

  /** `UrlType::infer`. */
  function InferUrlType(url: string): UrlType {
    var clean := BeforeQuery(url);
    if Contains(clean, "/pull/") then Pr else if Contains(clean, "/issues/") then Issue else Other
  }

  // ---------- the task and the fields read back ----------

  datatype TaskUrl = TaskUrl(url: string, urlType: UrlType)

  datatype Task = Task(
    title: string,
    description: string,
    repoPath: string,
    status: TaskStatus,
    planPath: Option<string>,
    tag: Option<TaskTag>,
    baseBranch: string,
    wrapUpMode: Option<WrapUpMode>,
    model: Option<TaskModel>,
    phoenix: bool,
    url: Option<TaskUrl>
  )

  datatype ParseError = ParseError(field: string, raw: string)

  datatype EditorFields = EditorFields(
    title: string,
    description: string,
    repoPath: string,
    status: Option<TaskStatus>,
    plan: string,
    tag: Option<TaskTag>,
    baseBranch: string,
    wrapUpMode: Option<WrapUpMode>,
    model: Option<TaskModel>,
    url: string,
    urlType: Option<UrlType>,
    phoenix: Option<bool>,
    errors: seq<ParseError>
  )

  const TASK_SECTIONS: seq<string> := [
    "TITLE", "DESCRIPTION", "REPO_PATH", "STATUS", "PLAN", "TAG",
    "BASE_BRANCH", "WRAP_UP_MODE", "MODEL", "PHOENIX", "URL", "URL_TYPE"
  ]

  function OrEmpty(value: Option<string>): string {
    if value.Some? then value.value else ""
  }

  function TagOrEmpty(tag: Option<TaskTag>): string {
    if tag.Some? then TagText(tag.value) else ""
  }

  function WrapOrEmpty(mode: Option<WrapUpMode>): string {
    if mode.Some? then WrapText(mode.value) else ""
  }

  function ModelOrEmpty(model: Option<TaskModel>): string {
    if model.Some? then ModelText(model.value) else ""
  }

  function UrlOrEmpty(url: Option<TaskUrl>): string {
    if url.Some? then url.value.url else ""
  }

  function UrlTypeOrEmpty(url: Option<TaskUrl>): string {
    if url.Some? then UrlTypeText(url.value.urlType) else ""
  }

  // ---------- writing ----------

  function Escaped(value: string): string {
    EscapeHeaders(value, TASK_SECTIONS)
  }

  /** The template's sections with the text each is given: free text is escaped,
      enum words are not. */
  function TaskTexts(task: Task): seq<Section> {
    [
      Section("TITLE", Escaped(task.title)),
      Section("DESCRIPTION", Escaped(task.description)),
      Section("REPO_PATH", Escaped(task.repoPath)),
      Section("STATUS", StatusText(task.status)),
      Section("PLAN", Escaped(OrEmpty(task.planPath))),
      Section("TAG", TagOrEmpty(task.tag)),
      Section("BASE_BRANCH", Escaped(task.baseBranch)),
      Section("WRAP_UP_MODE", WrapOrEmpty(task.wrapUpMode)),
      Section("MODEL", ModelOrEmpty(task.model)),
      Section("PHOENIX", BoolText(task.phoenix)),
      Section("URL", Escaped(UrlOrEmpty(task.url))),
      Section("URL_TYPE", UrlTypeOrEmpty(task.url))
    ]
  }

  function WriteBlocks(blocks: seq<Section>): string {
    if blocks == [] then ""
    else Header(blocks[0].name) + ['\n'] + blocks[0].value + ['\n'] + WriteBlocks(blocks[1..])
  }

  /** `format_editor_content`. */
  function FormatEditorContent(task: Task): string {
    WriteBlocks(TaskTexts(task))
  }

  // ---------- reading ----------

  function Lookup(sections: map<string, string>, name: string): string {
    if name in sections then sections[name] else ""
  }

  function SingleLine(sections: map<string, string>, name: string): string {
    Trim(Lookup(sections, name))
  }

  /** `parse_section`: an empty section is absent, a word that does not parse is
      reported. */
  function ErrorOf<T>(field: string, raw: string, parsed: Option<T>): seq<ParseError> {
    if raw != "" && parsed.None? then [ParseError(field, raw)] else []
  }

  function Unless<T>(raw: string, parsed: Option<T>): Option<T> {
    if raw == "" then None else parsed
  }

  /** `parse_editor_content`. */
  function FieldsOf(s: map<string, string>): EditorFields {
    var status := Lookup(s, "STATUS");
    var tag := Lookup(s, "TAG");
    var wrap := Lookup(s, "WRAP_UP_MODE");
    var model := Lookup(s, "MODEL");
    var urlType := Lookup(s, "URL_TYPE");
    var phoenix := Lookup(s, "PHOENIX");
    EditorFields(
      SingleLine(s, "TITLE"),
      Lookup(s, "DESCRIPTION"),
      SingleLine(s, "REPO_PATH"),
      Unless(status, ParseStatus(status)),
      SingleLine(s, "PLAN"),
      Unless(tag, ParseTag(tag)),
      SingleLine(s, "BASE_BRANCH"),
      Unless(wrap, ParseWrap(wrap)),
      Unless(model, ParseModel(model)),
      SingleLine(s, "URL"),
      Unless(urlType, ParseUrlType(urlType)),
      Unless(phoenix, ParseEditorBool(phoenix)),
      ErrorOf("STATUS", status, ParseStatus(status))
      + ErrorOf("TAG", tag, ParseTag(tag))
      + ErrorOf("WRAP_UP_MODE", wrap, ParseWrap(wrap))
      + ErrorOf("MODEL", model, ParseModel(model))
      + ErrorOf("URL_TYPE", urlType, ParseUrlType(urlType))
      + ErrorOf("PHOENIX", phoenix, ParseEditorBool(phoenix))
    )
  }

  function ParseEditorContent(input: string): EditorFields {
    FieldsOf(ParseSections(input, TASK_SECTIONS))
  }

  // ---------- merging back ----------

  datatype FieldUpdate = Set(value: string) | Clear
  datatype UrlUpdate = SetUrl(url: TaskUrl) | ClearUrl

  datatype Applied = Applied(
    title: string,
    description: string,
    repoPath: string,
    status: TaskStatus,
    planPath: FieldUpdate,
    resolvedPlanPath: Option<string>,
    tag: Option<TaskTag>,
    baseBranch: Option<string>,
    wrapUpMode: Option<WrapUpMode>,
    model: Option<TaskModel>,
    url: Option<UrlUpdate>,
    resolvedUrl: Option<TaskUrl>,
    phoenix: bool
  )

  function FieldUpdateFrom(s: string): FieldUpdate {
    if s == "" then Clear else Set(s)
  }

  /** `resolve_edited_url`. */
  function ResolveEditedUrl(raw: string, explicitType: Option<UrlType>, prior: Option<TaskUrl>): Option<TaskUrl> {
    if raw == "" then None
    else
      var urlType :=
        if explicitType.Some? then explicitType.value
        else if prior.Some? && prior.value.url == raw then prior.value.urlType
        else InferUrlType(raw);
      Some(TaskUrl(raw, urlType))
  }

  function KeepPriorIfEmpty(edited: string, prior: string): string {
    if edited == "" then prior else edited
  }

  /** `apply_task_editor_fields`. */
  function ApplyFields(task: Task, fields: EditorFields): Applied {
    var desiredUrl := ResolveEditedUrl(fields.url, fields.urlType, task.url);
    var planPath := FieldUpdateFrom(fields.plan);
    Applied(
      KeepPriorIfEmpty(fields.title, task.title),
      KeepPriorIfEmpty(fields.description, task.description),
      KeepPriorIfEmpty(fields.repoPath, task.repoPath),
      if fields.status.Some? then fields.status.value else task.status,
      planPath,
      match planPath { case Set(s) => Some(s) case Clear => None },
      fields.tag,
      if fields.baseBranch == "" then None else Some(fields.baseBranch),
      fields.wrapUpMode,
      fields.model,
      if desiredUrl == task.url then None
      else if desiredUrl.Some? then Some(SetUrl(desiredUrl.value))
      else Some(ClearUrl),
      desiredUrl,
      fields.phoenix.Some? && fields.phoenix.value
    )
  }

  // ---------- the round trip ----------

  function TaskValues(task: Task): seq<Section> {
    [
      Section("TITLE", task.title),
      Section("DESCRIPTION", task.description),
      Section("REPO_PATH", task.repoPath),
      Section("STATUS", StatusText(task.status)),
      Section("PLAN", OrEmpty(task.planPath)),
      Section("TAG", TagOrEmpty(task.tag)),
      Section("BASE_BRANCH", task.baseBranch),
      Section("WRAP_UP_MODE", WrapOrEmpty(task.wrapUpMode)),
      Section("MODEL", ModelOrEmpty(task.model)),
      Section("PHOENIX", BoolText(task.phoenix)),
      Section("URL", UrlOrEmpty(task.url)),
      Section("URL_TYPE", UrlTypeOrEmpty(task.url))
    ]
  }

  /** A word the template writes without escaping. */
  predicate IsWord(s: string) {
    && Lacks(s, '\n') && Lacks(s, '\r') && Trim(s) == s
    && (s != "" ==> s[0] != '-' && s[0] != '\\')
  }

  lemma WordNeedsNoEscape(s: string)
    requires IsWord(s)
    ensures Escaped(s) == s && ReadBack(s) == s
  {
    SplitOfPlain(s, '\n');
    assert EscapeLines([s], TASK_SECTIONS)[0] == s;
    assert Join(EscapeLines([s], TASK_SECTIONS), '\n') == s;
    ReadsBackCanonical(s);
    TrimmedIsCanonical(s);
  }

  lemma LetterWord(s: string)
    requires s == "" || (!IsWhite(s[0]) && !IsWhite(s[|s| - 1]) && s[0] != '-')
    requires forall c :: c in s ==> 'a' <= c <= 'z' || c == '_' || c == '-'
    ensures IsWord(s)
  {
    TrimOfTrimmed(s);
    assert s != "" ==> s[0] in s;
  }

  lemma StatusWord(v: TaskStatus)
    ensures IsWord(StatusText(v)) && StatusText(v) != "" && ParseStatus(StatusText(v)) == Some(v)
  {
    LetterWord(StatusText(v));
  }

  lemma TagWord(v: TaskTag)
    ensures IsWord(TagText(v)) && TagText(v) != "" && ParseTag(TagText(v)) == Some(v)
  {
    LetterWord(TagText(v));
  }

  lemma WrapWord(v: WrapUpMode)
    ensures IsWord(WrapText(v)) && WrapText(v) != "" && ParseWrap(WrapText(v)) == Some(v)
  {
    LetterWord(WrapText(v));
  }

  lemma ModelWord(v: TaskModel)
    ensures IsWord(ModelText(v)) && ModelText(v) != "" && ParseModel(ModelText(v)) == Some(v)
  {
    LetterWord(ModelText(v));
  }

  lemma UrlTypeWord(v: UrlType)
    ensures IsWord(UrlTypeText(v)) && UrlTypeText(v) != "" && ParseUrlType(UrlTypeText(v)) == Some(v)
  {
    LetterWord(UrlTypeText(v));
  }

  lemma {:induction false} LowerIsLower(s: string)
    requires forall c :: c in s ==> 'a' <= c <= 'z'
    ensures AsciiLower(s) == s
  {
    if s != "" {
      assert s[0] in s && forall c :: c in s[1..] ==> c in s;
      LowerIsLower(s[1..]);
    }
  }

  lemma BoolWord(v: bool)
    ensures IsWord(BoolText(v)) && BoolText(v) != "" && ParseEditorBool(BoolText(v)) == Some(v)
  {
    LetterWord(BoolText(v));
    LowerIsLower(BoolText(v));
  }

  lemma EmptyWord()
    ensures IsWord("")
  {
  }

  predicate WordSection(i: nat) {
    i == 3 || i == 5 || i == 7 || i == 8 || i == 9 || i == 11
  }

  lemma WordSections(task: Task, i: nat)
    requires WordSection(i)
    ensures IsWord(TaskValues(task)[i].value)
  {
    EmptyWord();
    if i == 3 {
      StatusWord(task.status);
    } else if i == 9 {
      BoolWord(task.phoenix);
    } else if i == 5 && task.tag.Some? {
      TagWord(task.tag.value);
    } else if i == 7 && task.wrapUpMode.Some? {
      WrapWord(task.wrapUpMode.value);
    } else if i == 8 && task.model.Some? {
      ModelWord(task.model.value);
    } else if i == 11 && task.url.Some? {
      UrlTypeWord(task.url.value.urlType);
    }
  }

  lemma TextOfValue(task: Task, i: nat)
    requires i < 12
    ensures TaskTexts(task)[i].name == TaskValues(task)[i].name == TASK_SECTIONS[i]
    ensures TaskTexts(task)[i].value ==
            if WordSection(i) then TaskValues(task)[i].value else Escaped(TaskValues(task)[i].value)
  {
  }

  /** A word section's text is what escaping its value would give. */
  lemma WordsEscapeToThemselves(task: Task, i: nat)
    requires i < 12
    ensures TaskTexts(task)[i].name == TaskValues(task)[i].name == TASK_SECTIONS[i]
    ensures TaskTexts(task)[i].value == Escaped(TaskValues(task)[i].value)
  {
    TextOfValue(task, i);
    if WordSection(i) {
      WordSections(task, i);
      WordNeedsNoEscape(TaskValues(task)[i].value);
    }
  }

  lemma {:induction false} BlocksAreSections(blocks: seq<Section>, sections: seq<Section>)
    requires |blocks| == |sections|
    requires forall i :: 0 <= i < |blocks| ==>
               blocks[i].name == sections[i].name && blocks[i].value == Escaped(sections[i].value)
    ensures WriteBlocks(blocks) == FormatSections(sections, TASK_SECTIONS)
  {
    if blocks != [] {
      BlocksAreSections(blocks[1..], sections[1..]);
    }
  }

  lemma NameShapes()
    ensures |TASK_SECTIONS| == 12
    ensures |TASK_SECTIONS[0]| == 5 && TASK_SECTIONS[0][0] == 'T'
    ensures |TASK_SECTIONS[1]| == 11 && TASK_SECTIONS[1][0] == 'D'
    ensures |TASK_SECTIONS[2]| == 9 && |TASK_SECTIONS[3]| == 6 && |TASK_SECTIONS[4]| == 4
    ensures |TASK_SECTIONS[5]| == 3 && TASK_SECTIONS[5][0] == 'T'
    ensures |TASK_SECTIONS[6]| == 11 && TASK_SECTIONS[6][0] == 'B'
    ensures |TASK_SECTIONS[7]| == 12
    ensures |TASK_SECTIONS[8]| == 5 && TASK_SECTIONS[8][0] == 'M'
    ensures |TASK_SECTIONS[9]| == 7
    ensures |TASK_SECTIONS[10]| == 3 && TASK_SECTIONS[10][0] == 'U'
    ensures |TASK_SECTIONS[11]| == 8
  {
  }

  lemma NamesDistinct(j: nat, k: nat)
    requires j < k < 12
    ensures |TASK_SECTIONS| == 12 && TASK_SECTIONS[j] != TASK_SECTIONS[k]
  {
    NameShapes();
  }

  lemma NamesPlain(i: nat)
    requires i < 12
    ensures Lacks(TASK_SECTIONS[i], '\n')
  {
  }

  /** Every section of a written task reads back on its own. */
  lemma WrittenTaskReadsBack(task: Task, i: nat)
    requires i < 12
    ensures Lookup(ParseSections(FormatEditorContent(task), TASK_SECTIONS), TASK_SECTIONS[i]) ==
            ReadBack(TaskValues(task)[i].value)
  {
    var values := TaskValues(task);
    forall k | 0 <= k < 12
      ensures values[k].name == TASK_SECTIONS[k] && TaskTexts(task)[k].name == values[k].name
      ensures TaskTexts(task)[k].value == Escaped(values[k].value)
    {
      WordsEscapeToThemselves(task, k);
    }
    BlocksAreSections(TaskTexts(task), values);
    forall s | s in values
      ensures s.name in TASK_SECTIONS && Lacks(s.name, '\n')
    {
      var k :| 0 <= k < 12 && values[k] == s;
      NamesPlain(k);
    }
    forall j, k | 0 <= j < k < 12
      ensures values[j].name != values[k].name
    {
      NamesDistinct(j, k);
    }
    WrittenSectionsReadBack(values, TASK_SECTIONS, i);
  }

  lemma WordReadsBack(task: Task, i: nat)
    requires WordSection(i)
    ensures ReadBack(TaskValues(task)[i].value) == TaskValues(task)[i].value
  {
    WordSections(task, i);
    WordNeedsNoEscape(TaskValues(task)[i].value);
  }

  /** Writing a task and reading the file back gives every enum field and flag as
      it was, reports no error, and each free text as its own lines allow,
      whatever header-looking or backslashed lines the texts hold. */
  lemma FormatThenParse(task: Task)
    ensures ParseEditorContent(FormatEditorContent(task)) ==
            EditorFields(
              Trim(ReadBack(task.title)),
              ReadBack(task.description),
              Trim(ReadBack(task.repoPath)),
              Some(task.status),
              Trim(ReadBack(OrEmpty(task.planPath))),
              task.tag,
              Trim(ReadBack(task.baseBranch)),
              task.wrapUpMode,
              task.model,
              Trim(ReadBack(UrlOrEmpty(task.url))),
              if task.url.Some? then Some(task.url.value.urlType) else None,
              Some(task.phoenix),
              [])
  {
    var s := ParseSections(FormatEditorContent(task), TASK_SECTIONS);
    forall i | 0 <= i < 12
      ensures Lookup(s, TASK_SECTIONS[i]) == ReadBack(TaskValues(task)[i].value)
    {
      WrittenTaskReadsBack(task, i);
    }
    TextsParse(task, s);
    WordsParse(task, s);
    StatusField(task.status);
    TagField(task.tag);
    WrapField(task.wrapUpMode);
    ModelField(task.model);
    UrlTypeField(task.url);
    BoolField(task.phoenix);
  }

  /** No free text of the task holds a carriage return. */
  ghost predicate NoCarriageReturns(task: Task) {
    && Lacks(task.title, '\r') && Lacks(task.description, '\r') && Lacks(task.repoPath, '\r')
    && Lacks(OrEmpty(task.planPath), '\r') && Lacks(task.baseBranch, '\r') && Lacks(UrlOrEmpty(task.url), '\r')
  }

  lemma PlainFieldReadsBack(value: string)
    requires Lacks(value, '\r')
    ensures Trim(ReadBack(value)) == Trim(value)
  {
    ReadsBackCanonical(value);
    TrimOfCanonical(value);
  }

  /** Without carriage returns the round trip is the identity but for trimming:
      single-line fields trimmed, the description without leading blank lines and
      trailing white space. */
  lemma PlainTaskReadsBack(task: Task)
    requires NoCarriageReturns(task)
    ensures ParseEditorContent(FormatEditorContent(task)) ==
            EditorFields(
              Trim(task.title),
              Canonical(task.description),
              Trim(task.repoPath),
              Some(task.status),
              Trim(OrEmpty(task.planPath)),
              task.tag,
              Trim(task.baseBranch),
              task.wrapUpMode,
              task.model,
              Trim(UrlOrEmpty(task.url)),
              if task.url.Some? then Some(task.url.value.urlType) else None,
              Some(task.phoenix),
              [])
  {
    FormatThenParse(task);
    PlainFieldReadsBack(task.title);
    ReadsBackCanonical(task.description);
    PlainFieldReadsBack(task.repoPath);
    PlainFieldReadsBack(OrEmpty(task.planPath));
    PlainFieldReadsBack(task.baseBranch);
    PlainFieldReadsBack(UrlOrEmpty(task.url));
  }

  // ---------- the description on its own ----------

  /** `format_description_for_editor`. */
  function FormatDescription(existing: string, name: string): string {
    Header(name) + ['\n'] + EscapeHeaders(existing, [name]) + ['\n']
  }

  /** `parse_description_editor_output`. */
  function ParseDescription(input: string, name: string): string {
    Lookup(ParseSections(input, [name]), name)
  }

  /** The description editor gives back the description in its canonical form,
      exactly when that form has no carriage return before a newline. Its one
      section is called DESCRIPTION; any name on one line does. */
  lemma DescriptionReadsBackIff(description: string, name: string)
    requires Lacks(name, '\n')
    ensures ParseDescription(FormatDescription(description, name), name) == Canonical(description)
            <==> NoCRBeforeNewline(Canonical(description))
  {
    var sections := [Section(name, description)];
    assert sections[1..] == [];
    var file := FormatDescription(description, name);
    assert file + [] == file;
    assert FormatSections(sections[1..], [name]) == [];
    assert FormatSections(sections, [name]) == file;
    WrittenSectionsReadBack(sections, [name], 0);
    ReadsBackCanonicalIff(description);
  }

  lemma StatusField(v: TaskStatus)
    ensures Unless(StatusText(v), ParseStatus(StatusText(v))) == Some(v)
    ensures ErrorOf("STATUS", StatusText(v), ParseStatus(StatusText(v))) == []
  {
    StatusWord(v);
  }

  lemma TagField(v: Option<TaskTag>)
    ensures Unless(TagOrEmpty(v), ParseTag(TagOrEmpty(v))) == v
    ensures ErrorOf("TAG", TagOrEmpty(v), ParseTag(TagOrEmpty(v))) == []
  {
    if v.Some? {
      TagWord(v.value);
    }
  }

  lemma WrapField(v: Option<WrapUpMode>)
    ensures Unless(WrapOrEmpty(v), ParseWrap(WrapOrEmpty(v))) == v
    ensures ErrorOf("WRAP_UP_MODE", WrapOrEmpty(v), ParseWrap(WrapOrEmpty(v))) == []
  {
    if v.Some? {
      WrapWord(v.value);
    }
  }

  lemma ModelField(v: Option<TaskModel>)
    ensures Unless(ModelOrEmpty(v), ParseModel(ModelOrEmpty(v))) == v
    ensures ErrorOf("MODEL", ModelOrEmpty(v), ParseModel(ModelOrEmpty(v))) == []
  {
    if v.Some? {
      ModelWord(v.value);
    }
  }

  lemma UrlTypeField(v: Option<TaskUrl>)
    ensures Unless(UrlTypeOrEmpty(v), ParseUrlType(UrlTypeOrEmpty(v))) ==
            if v.Some? then Some(v.value.urlType) else None
    ensures ErrorOf("URL_TYPE", UrlTypeOrEmpty(v), ParseUrlType(UrlTypeOrEmpty(v))) == []
  {
    if v.Some? {
      UrlTypeWord(v.value.urlType);
    }
  }

  lemma BoolField(v: bool)
    ensures Unless(BoolText(v), ParseEditorBool(BoolText(v))) == Some(v)
    ensures ErrorOf("PHOENIX", BoolText(v), ParseEditorBool(BoolText(v))) == []
  {
    BoolWord(v);
  }

  lemma SectionNames()
    ensures TASK_SECTIONS[0] == "TITLE" && TASK_SECTIONS[1] == "DESCRIPTION" && TASK_SECTIONS[2] == "REPO_PATH"
    ensures TASK_SECTIONS[4] == "PLAN" && TASK_SECTIONS[6] == "BASE_BRANCH" && TASK_SECTIONS[10] == "URL"
  {
  }

  lemma TextsParse(task: Task, s: map<string, string>)
    requires forall i :: 0 <= i < 12 ==> Lookup(s, TASK_SECTIONS[i]) == ReadBack(TaskValues(task)[i].value)
    ensures Lookup(s, "TITLE") == ReadBack(task.title)
    ensures Lookup(s, "DESCRIPTION") == ReadBack(task.description)
    ensures Lookup(s, "REPO_PATH") == ReadBack(task.repoPath)
    ensures Lookup(s, "PLAN") == ReadBack(OrEmpty(task.planPath))
    ensures Lookup(s, "BASE_BRANCH") == ReadBack(task.baseBranch)
    ensures Lookup(s, "URL") == ReadBack(UrlOrEmpty(task.url))
  {
    SectionNames();
    assert Lookup(s, "TITLE") == Lookup(s, TASK_SECTIONS[0]);
    assert Lookup(s, "DESCRIPTION") == Lookup(s, TASK_SECTIONS[1]);
    assert Lookup(s, "REPO_PATH") == Lookup(s, TASK_SECTIONS[2]);
    assert Lookup(s, "PLAN") == Lookup(s, TASK_SECTIONS[4]);
    assert Lookup(s, "BASE_BRANCH") == Lookup(s, TASK_SECTIONS[6]);
    assert Lookup(s, "URL") == Lookup(s, TASK_SECTIONS[10]);
  }

  lemma WordsParse(task: Task, s: map<string, string>)
    requires forall i :: 0 <= i < 12 ==> Lookup(s, TASK_SECTIONS[i]) == ReadBack(TaskValues(task)[i].value)
    ensures Lookup(s, "STATUS") == StatusText(task.status)
    ensures Lookup(s, "TAG") == TagOrEmpty(task.tag)
    ensures Lookup(s, "WRAP_UP_MODE") == WrapOrEmpty(task.wrapUpMode)
    ensures Lookup(s, "MODEL") == ModelOrEmpty(task.model)
    ensures Lookup(s, "PHOENIX") == BoolText(task.phoenix)
    ensures Lookup(s, "URL_TYPE") == UrlTypeOrEmpty(task.url)
  {
    WordReadsBack(task, 3);
    WordReadsBack(task, 5);
    WordReadsBack(task, 7);
    WordReadsBack(task, 8);
    WordReadsBack(task, 9);
    WordReadsBack(task, 11);
    assert Lookup(s, "STATUS") == Lookup(s, TASK_SECTIONS[3]);
    assert Lookup(s, "TAG") == Lookup(s, TASK_SECTIONS[5]);
    assert Lookup(s, "WRAP_UP_MODE") == Lookup(s, TASK_SECTIONS[7]);
    assert Lookup(s, "MODEL") == Lookup(s, TASK_SECTIONS[8]);
    assert Lookup(s, "PHOENIX") == Lookup(s, TASK_SECTIONS[9]);
    assert Lookup(s, "URL_TYPE") == Lookup(s, TASK_SECTIONS[11]);
  }

  // ---------- an unedited save ----------

  /** A keep-prior field an unedited save leaves alone. */
  ghost predicate SettledLine(value: string) {
    Trim(value) == "" || (Trim(value) == value && NoCRBeforeNewline(value))
  }

  /** A clearable field an unedited save leaves alone. */
  ghost predicate SettledOption(value: string) {
    value != "" && Trim(value) == value && NoCRBeforeNewline(value)
  }

  ghost predicate SettledText(value: string) {
    Canonical(value) == "" || (Canonical(value) == value && NoCRBeforeNewline(value))
  }

  ghost predicate Settled(task: Task) {
    && SettledLine(task.title) && SettledText(task.description) && SettledLine(task.repoPath)
    && SettledLine(task.baseBranch)
    && (task.planPath.Some? ==> SettledOption(task.planPath.value))
    && (task.url.Some? ==> SettledOption(task.url.value.url))
  }

  /** Applying the edit would leave every field of the task at its value, and
      asks for no url write. */
  ghost predicate ChangesNothing(task: Task, a: Applied) {
    && a.title == task.title && a.description == task.description && a.repoPath == task.repoPath
    && a.status == task.status && a.resolvedPlanPath == task.planPath && a.tag == task.tag
    && (a.baseBranch == None || a.baseBranch == Some(task.baseBranch))
    && a.wrapUpMode == task.wrapUpMode && a.model == task.model
    && a.url == None && a.resolvedUrl == task.url && a.phoenix == task.phoenix
  }

  lemma KeptLine(value: string)
    ensures KeepPriorIfEmpty(Trim(ReadBack(value)), value) == value <==> SettledLine(value)
  {
    TrimsBackIff(value);
    TrimmedFieldReadsBackIff(value);
  }

  lemma KeptText(value: string)
    ensures KeepPriorIfEmpty(ReadBack(value), value) == value <==> SettledText(value)
  {
    CanonicalIdempotent(value);
    EmptyBackIff(value);
  }

  ghost predicate PlanKept(plan: Option<string>, text: string) {
    (match FieldUpdateFrom(text) { case Set(s) => Some(s) case Clear => None }) == plan
  }

  ghost predicate UrlKept(url: Option<TaskUrl>, text: string) {
    ResolveEditedUrl(text, if url.Some? then Some(url.value.urlType) else None, url) == url
  }

  lemma KeptBranch(value: string)
    ensures (Trim(ReadBack(value)) == "" || Trim(ReadBack(value)) == value) <==> SettledLine(value)
  {
    TrimsBackIff(value);
    TrimmedFieldReadsBackIff(value);
  }

  lemma ReadBackOfEmpty()
    ensures Trim(ReadBack("")) == ""
  {
    TrimsBackIff("");
  }

  lemma KeptPlan(plan: Option<string>)
    ensures PlanKept(plan, Trim(ReadBack(OrEmpty(plan)))) <==> (plan.Some? ==> SettledOption(plan.value))
  {
    ReadBackOfEmpty();
    TrimmedFieldReadsBackIff(OrEmpty(plan));
  }

  lemma KeptUrl(url: Option<TaskUrl>)
    ensures UrlKept(url, Trim(ReadBack(UrlOrEmpty(url)))) <==> (url.Some? ==> SettledOption(url.value.url))
  {
    ReadBackOfEmpty();
    TrimmedFieldReadsBackIff(UrlOrEmpty(url));
  }

  /** The merge, field by field, when only the free texts can have moved. */
  lemma AppliedUnedited(task: Task, title: string, description: string, repoPath: string,
                        plan: string, branch: string, url: string)
    ensures var urlType := if task.url.Some? then Some(task.url.value.urlType) else None;
            var fields := EditorFields(title, description, repoPath, Some(task.status), plan, task.tag, branch,
                                       task.wrapUpMode, task.model, url, urlType, Some(task.phoenix), []);
            ChangesNothing(task, ApplyFields(task, fields)) <==>
            && KeepPriorIfEmpty(title, task.title) == task.title
            && KeepPriorIfEmpty(description, task.description) == task.description
            && KeepPriorIfEmpty(repoPath, task.repoPath) == task.repoPath
            && PlanKept(task.planPath, plan)
            && (branch == "" || branch == task.baseBranch)
            && UrlKept(task.url, url)
  {
  }

  /** Saving the file as it was opened changes nothing exactly when each free text
      of the task is blank or already in the form the file keeps: trimmed (the
      description: without leading blank lines or trailing white space) and
      without a carriage return before a newline; a set plan or url not blank. */
  lemma UneditedSaveChangesNothingIff(task: Task)
    ensures ChangesNothing(task, ApplyFields(task, ParseEditorContent(FormatEditorContent(task)))) <==> Settled(task)
  {
    FormatThenParse(task);
    AppliedUnedited(task, Trim(ReadBack(task.title)), ReadBack(task.description), Trim(ReadBack(task.repoPath)),
                    Trim(ReadBack(OrEmpty(task.planPath))), Trim(ReadBack(task.baseBranch)),
                    Trim(ReadBack(UrlOrEmpty(task.url))));
    KeptLine(task.title);
    KeptText(task.description);
    KeptLine(task.repoPath);
    KeptBranch(task.baseBranch);
    KeptPlan(task.planPath);
    KeptUrl(task.url);
  }
}
