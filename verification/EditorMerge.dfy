/** What saving an edited file does to a task: whose value each field gets, what an
    empty or unknown word means, and when the url is written. */
module EditorMerge {
  import opened Prelude
  import opened Text
  import opened Trimming
  import opened EditorSections
  import opened EditorValues
  import opened EditorTask

  // ---------- one task's file applied to another task ----------

  /** Applying the edit onto a task leaves what the other task has, a blank text
      aside: that keeps what was there. */
  ghost predicate Becomes(t: Task, u: Task, a: Applied) {
    && a.title == (if Trim(u.title) == "" then t.title else u.title)
    && a.description == (if Canonical(u.description) == "" then t.description else u.description)
    && a.repoPath == (if Trim(u.repoPath) == "" then t.repoPath else u.repoPath)
    && a.baseBranch == (if Trim(u.baseBranch) == "" then None else Some(u.baseBranch))
    && a.status == u.status && a.tag == u.tag && a.wrapUpMode == u.wrapUpMode && a.model == u.model
    && a.phoenix == u.phoenix
    && a.planPath == (if u.planPath.Some? then Set(u.planPath.value) else Clear)
    && a.resolvedPlanPath == u.planPath && a.resolvedUrl == u.url
  }

  lemma LineBack(value: string)
    requires SettledLine(value)
    ensures Trim(ReadBack(value)) == if Trim(value) == "" then "" else value
  {
    TrimsBackIff(value);
    TrimmedFieldReadsBackIff(value);
  }

  lemma TextBack(value: string)
    requires SettledText(value)
    ensures ReadBack(value) == if Canonical(value) == "" then "" else value
  {
    CanonicalIdempotent(value);
    EmptyBackIff(value);
    KeptText(value);
  }

  lemma OptionBack(value: Option<string>)
    requires value.Some? ==> SettledOption(value.value)
    ensures Trim(ReadBack(OrEmpty(value))) == OrEmpty(value)
  {
    ReadBackOfEmpty();
    TrimmedFieldReadsBackIff(OrEmpty(value));
  }

  /** The file written for one task, saved onto another, makes that task the first:
      every field, and a url write exactly when the urls differ. */
  lemma EditedSave(t: Task, u: Task)
    requires Settled(u)
    ensures var a := ApplyFields(t, ParseEditorContent(FormatEditorContent(u)));
            && Becomes(t, u, a)
            && (a.url == None <==> u.url == t.url)
            && (forall v :: a.url == Some(SetUrl(v)) <==> u.url == Some(v) != t.url)
            && (a.url == Some(ClearUrl) <==> u.url == None != t.url)
  {
    FormatThenParse(u);
    LineBack(u.title);
    TextBack(u.description);
    LineBack(u.repoPath);
    LineBack(u.baseBranch);
    OptionBack(u.planPath);
    OptionBack(if u.url.Some? then Some(u.url.value.url) else None);
  }

  // ---------- what words mean ----------

  /** The same letters, one of them possibly upper case. */
  ghost predicate SameButForCase(s: string, word: string) {
    && |s| == |word|
    && forall i :: 0 <= i < |s| ==>
         s[i] == word[i] || ('A' <= s[i] <= 'Z' && s[i] as int + 32 == word[i] as int)
  }

  ghost predicate SaysYes(raw: string) {
    exists w | w in {"true", "yes", "on", "1"} :: SameButForCase(Trim(raw), w)
  }

  ghost predicate SaysNo(raw: string) {
    exists w | w in {"false", "no", "off", "0"} :: SameButForCase(Trim(raw), w)
  }

  lemma {:induction false} LowerIff(s: string, word: string)
    requires forall c :: c in word ==> !('A' <= c <= 'Z')
    ensures AsciiLower(s) == word <==> SameButForCase(s, word)
  {
    if s != "" && word != "" {
      assert word[0] in word && forall c :: c in word[1..] ==> c in word;
      LowerIff(s[1..], word[1..]);
      assert AsciiLower(s)[1..] == AsciiLower(s[1..]);
      assert forall i :: 0 < i < |s| ==> s[i] == s[1..][i - 1];
      assert forall i :: 0 < i < |word| ==> word[i] == word[1..][i - 1];
      assert word == [word[0]] + word[1..];
    }
  }

  lemma BoolMeaning(raw: string)
    ensures ParseEditorBool(raw) == Some(true) <==> SaysYes(raw)
    ensures ParseEditorBool(raw) == Some(false) <==> SaysNo(raw)
  {
    var s := Trim(raw);
    LowerIff(s, "true");
    LowerIff(s, "yes");
    LowerIff(s, "on");
    LowerIff(s, "1");
    LowerIff(s, "false");
    LowerIff(s, "no");
    LowerIff(s, "off");
    LowerIff(s, "0");
  }

  /** The status section names the value; `ready` is an older word for the backlog. */
  ghost predicate NamesStatus(raw: string, v: TaskStatus) {
    raw == StatusText(v) || (v == Backlog && raw == "ready")
  }

  /** A word names a value exactly when it is the word written for it, or for a status
      the older one. */
  lemma StatusMeaning(raw: string)
    ensures forall v :: ParseStatus(raw) == Some(v) <==> NamesStatus(raw, v)
    ensures (forall v :: !NamesStatus(raw, v)) <==> ParseStatus(raw).None?
  {
    forall v
      ensures ParseStatus(raw) == Some(v) <==> NamesStatus(raw, v)
    {
      StatusWord(v);
    }
    if ParseStatus(raw).Some? {
      var named := ParseStatus(raw).value;
      assert ParseStatus(raw) == Some(named);
    }
  }

  lemma TagMeaning(raw: string)
    ensures forall v :: ParseTag(raw) == Some(v) <==> raw == TagText(v)
    ensures (forall v :: raw != TagText(v)) <==> ParseTag(raw).None?
  {
    forall v
      ensures ParseTag(raw) == Some(v) <==> raw == TagText(v)
    {
      TagWord(v);
    }
    if ParseTag(raw).Some? {
      var named := ParseTag(raw).value;
      assert ParseTag(raw) == Some(named);
    }
  }

  lemma WrapMeaning(raw: string)
    ensures forall v :: ParseWrap(raw) == Some(v) <==> raw == WrapText(v)
    ensures (forall v :: raw != WrapText(v)) <==> ParseWrap(raw).None?
  {
    forall v
      ensures ParseWrap(raw) == Some(v) <==> raw == WrapText(v)
    {
      WrapWord(v);
    }
    if ParseWrap(raw).Some? {
      var named := ParseWrap(raw).value;
      assert ParseWrap(raw) == Some(named);
    }
  }

  lemma ModelMeaning(raw: string)
    ensures forall v :: ParseModel(raw) == Some(v) <==> raw == ModelText(v)
    ensures (forall v :: raw != ModelText(v)) <==> ParseModel(raw).None?
  {
    forall v
      ensures ParseModel(raw) == Some(v) <==> raw == ModelText(v)
    {
      ModelWord(v);
    }
    if ParseModel(raw).Some? {
      var named := ParseModel(raw).value;
      assert ParseModel(raw) == Some(named);
    }
  }

  lemma UrlTypeMeaning(raw: string)
    ensures forall v :: ParseUrlType(raw) == Some(v) <==> raw == UrlTypeText(v)
    ensures (forall v :: raw != UrlTypeText(v)) <==> ParseUrlType(raw).None?
  {
    forall v
      ensures ParseUrlType(raw) == Some(v) <==> raw == UrlTypeText(v)
    {
      UrlTypeWord(v);
    }
    if ParseUrlType(raw).Some? {
      var named := ParseUrlType(raw).value;
      assert ParseUrlType(raw) == Some(named);
    }
  }

  // ---------- any edited file ----------

  lemma WordsNotEmpty()
    ensures forall v :: StatusText(v) != ""
    ensures forall v :: TagText(v) != ""
    ensures forall v :: WrapText(v) != ""
    ensures forall v :: ModelText(v) != ""
    ensures forall v :: UrlTypeText(v) != ""
    ensures !SaysYes("") && !SaysNo("")
  {
  }

  /** Whatever the sections hold, an empty text keeps what was there, clears a plan and
      leaves the base branch alone. */
  lemma MergedTexts(task: Task, s: map<string, string>)
    ensures var a := ApplyFields(task, FieldsOf(s));
            var title, repoPath := Trim(Lookup(s, "TITLE")), Trim(Lookup(s, "REPO_PATH"));
            var plan, branch := Trim(Lookup(s, "PLAN")), Trim(Lookup(s, "BASE_BRANCH"));
            && a.title == (if title == "" then task.title else title)
            && a.description == (if Lookup(s, "DESCRIPTION") == "" then task.description else Lookup(s, "DESCRIPTION"))
            && a.repoPath == (if repoPath == "" then task.repoPath else repoPath)
            && a.planPath == (if plan == "" then Clear else Set(plan))
            && a.resolvedPlanPath == (if plan == "" then None else Some(plan))
            && a.baseBranch == (if branch == "" then None else Some(branch))
  {
  }

  /** A word that names no value keeps the status, clears tag, wrap-up mode and model,
      and takes phoenix away. */
  lemma MergedWords(task: Task, s: map<string, string>)
    ensures var a := ApplyFields(task, FieldsOf(s));
            && (forall v :: NamesStatus(Lookup(s, "STATUS"), v) ==> a.status == v)
            && ((forall v :: !NamesStatus(Lookup(s, "STATUS"), v)) ==> a.status == task.status)
            && (forall v :: a.tag == Some(v) <==> Lookup(s, "TAG") == TagText(v))
            && (forall v :: a.wrapUpMode == Some(v) <==> Lookup(s, "WRAP_UP_MODE") == WrapText(v))
            && (forall v :: a.model == Some(v) <==> Lookup(s, "MODEL") == ModelText(v))
            && (a.phoenix <==> SaysYes(Lookup(s, "PHOENIX")))
  {
    StatusMeaning(Lookup(s, "STATUS"));
    TagMeaning(Lookup(s, "TAG"));
    WrapMeaning(Lookup(s, "WRAP_UP_MODE"));
    ModelMeaning(Lookup(s, "MODEL"));
    BoolMeaning(Lookup(s, "PHOENIX"));
    WordsNotEmpty();
  }

  /** The word is there and names no value of its section. */
  ghost predicate Unknown(field: string, raw: string) {
    raw != "" &&
    (|| (field == "STATUS" && forall v :: !NamesStatus(raw, v))
     || (field == "TAG" && forall v :: raw != TagText(v))
     || (field == "WRAP_UP_MODE" && forall v :: raw != WrapText(v))
     || (field == "MODEL" && forall v :: raw != ModelText(v))
     || (field == "URL_TYPE" && forall v :: raw != UrlTypeText(v))
     || (field == "PHOENIX" && !SaysYes(raw) && !SaysNo(raw)))
  }

  lemma ErrorOfIff<T>(field: string, raw: string, parsed: Option<T>, e: ParseError)
    ensures e in ErrorOf(field, raw, parsed) <==> e == ParseError(field, raw) && raw != "" && parsed.None?
  {
  }

  /** Each section has its own words. */
  ghost predicate NoWord(field: string, raw: string) {
    || (field == "STATUS" && ParseStatus(raw).None?)
    || (field == "TAG" && ParseTag(raw).None?)
    || (field == "WRAP_UP_MODE" && ParseWrap(raw).None?)
    || (field == "MODEL" && ParseModel(raw).None?)
    || (field == "URL_TYPE" && ParseUrlType(raw).None?)
    || (field == "PHOENIX" && ParseEditorBool(raw).None?)
  }

  lemma UnknownWords(field: string, raw: string)
    ensures Unknown(field, raw) <==> raw != "" && NoWord(field, raw)
  {
    StatusMeaning(raw);
    TagMeaning(raw);
    WrapMeaning(raw);
    ModelMeaning(raw);
    UrlTypeMeaning(raw);
    BoolMeaning(raw);
  }

  /** The errors are the words that are there and name nothing, under their section's
      name. */
  lemma ErrorsIff(s: map<string, string>, e: ParseError)
    ensures e in FieldsOf(s).errors <==> e.raw == Lookup(s, e.field) && Unknown(e.field, e.raw)
  {
    var raw := e.raw;
    ErrorOfIff("STATUS", Lookup(s, "STATUS"), ParseStatus(Lookup(s, "STATUS")), e);
    ErrorOfIff("TAG", Lookup(s, "TAG"), ParseTag(Lookup(s, "TAG")), e);
    ErrorOfIff("WRAP_UP_MODE", Lookup(s, "WRAP_UP_MODE"), ParseWrap(Lookup(s, "WRAP_UP_MODE")), e);
    ErrorOfIff("MODEL", Lookup(s, "MODEL"), ParseModel(Lookup(s, "MODEL")), e);
    ErrorOfIff("URL_TYPE", Lookup(s, "URL_TYPE"), ParseUrlType(Lookup(s, "URL_TYPE")), e);
    ErrorOfIff("PHOENIX", Lookup(s, "PHOENIX"), ParseEditorBool(Lookup(s, "PHOENIX")), e);
    UnknownWords(e.field, raw);
  }

  // ---------- the type of an edited url ----------

  /** The part stands in the url at `i`, before any query or fragment. */
  ghost predicate InPathAt(part: string, url: string, i: nat) {
    StandsAt(part, url, i) && Lacks(url[..i + |part|], '?') && Lacks(url[..i + |part|], '#')
  }

  ghost predicate InPath(part: string, url: string) {
    exists i :: InPathAt(part, url, i)
  }

  lemma {:induction false} BeforeQueryShape(url: string)
    ensures var clean := BeforeQuery(url);
            && clean <= url && Lacks(clean, '?') && Lacks(clean, '#')
            && (|clean| < |url| ==> url[|clean|] == '?' || url[|clean|] == '#')
  {
    if url != "" && url[0] != '?' && url[0] != '#' {
      BeforeQueryShape(url[1..]);
    }
  }

  lemma InPathIff(part: string, url: string)
    requires part != ""
    ensures Contains(BeforeQuery(url), part) <==> InPath(part, url)
  {
    var clean := BeforeQuery(url);
    BeforeQueryShape(url);
    ContainsIff(clean, part);
    if i: nat :| StandsAt(part, clean, i) {
      assert url[i..i + |part|] == part && url[..i + |part|] == clean[..i + |part|];
      assert InPathAt(part, url, i);
    }
    if i: nat :| InPathAt(part, url, i) {
      assert |clean| < |url| ==> url[|clean|] !in url[..i + |part|];
      assert clean[i..i + |part|] == part;
      assert StandsAt(part, clean, i);
    }
  }

  /** What an edited url comes to: its text is trimmed, empty clears it, and its type is
      the one the type section names, else the one an unchanged url had, else read off
      the url's path. It is written exactly when it differs from what was there. */
  lemma EditedUrl(task: Task, s: map<string, string>)
    ensures var a, raw := ApplyFields(task, FieldsOf(s)), Trim(Lookup(s, "URL"));
            && (a.resolvedUrl == None <==> raw == "")
            && (raw != "" ==> a.resolvedUrl.value.url == raw)
            && (raw != "" ==> forall v :: Lookup(s, "URL_TYPE") == UrlTypeText(v) ==> a.resolvedUrl.value.urlType == v)
            && (raw != "" && (forall v :: Lookup(s, "URL_TYPE") != UrlTypeText(v)) ==>
                  a.resolvedUrl.value.urlType ==
                  if task.url.Some? && task.url.value.url == raw then task.url.value.urlType
                  else if InPath("/pull/", raw) then Pr
                  else if InPath("/issues/", raw) then Issue
                  else Other)
            && (a.url == None <==> a.resolvedUrl == task.url)
            && (forall v :: a.url == Some(SetUrl(v)) <==> a.resolvedUrl == Some(v) != task.url)
            && (a.url == Some(ClearUrl) <==> a.resolvedUrl == None != task.url)
  {
    var raw := Trim(Lookup(s, "URL"));
    UrlTypeMeaning(Lookup(s, "URL_TYPE"));
    WordsNotEmpty();
    InPathIff("/pull/", raw);
    InPathIff("/issues/", raw);
  }
}
