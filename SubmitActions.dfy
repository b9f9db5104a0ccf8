/** Submission intake: the form is read with defaults from the session,
    checked against the submission schema and its evidence rule, and on
    success stored as one PENDING submission row. The URL and e-mail format
    checks of the validation library are parameters. */
module SubmitActions {
  import opened Common
  import opened Forms
  import opened Store
  import opened Auth

  /** `rawData`: the form fields after defaulting, as validated and as
      echoed back on a validation failure. */
  datatype RawSubmission = RawSubmission(
    benchmarkId: string,
    repoUrl: string,
    baseModel: string,
    codingTool: string,
    plugins: string,
    authorName: string,
    authorEmail: string,
    chatLogUrl: string,
    chatLogText: string,
    chatLogFiles: seq<string>)

  /** Reads the form. Author fields fall back to the session user:
      `authorName || session.user.name || 'Anonymous'` and
      `authorEmail || session.user.email || ''`. */
  function RawData(form: FormData, user: SessionUser): (r: RawSubmission)
    ensures r.authorName != ""
    ensures Truthy(Get(form, "authorName")) ==> r.authorName == Get(form, "authorName").value
    ensures !Truthy(Get(form, "authorName")) ==> r.authorName == (if user.name != "" then user.name else "Anonymous")
    ensures Truthy(Get(form, "authorEmail")) ==> r.authorEmail == Get(form, "authorEmail").value
    ensures !Truthy(Get(form, "authorEmail")) ==> r.authorEmail == user.email
    ensures r.chatLogFiles == GetAll(form, "chatLogFiles")
  {
    RawSubmission(
      Field(form, "benchmarkId"),
      Field(form, "repoUrl"),
      Field(form, "baseModel"),
      Field(form, "codingTool"),
      Field(form, "plugins"),
      Or(Get(form, "authorName"), if user.name != "" then user.name else "Anonymous"),
      Or(Get(form, "authorEmail"), user.email),
      Field(form, "chatLogUrl"),
      Field(form, "chatLogText"),
      GetAll(form, "chatLogFiles"))
  }

  /** Every other field of the record is the submitted string, or the
      empty string when the form has none (`Forms.Field`). */
  lemma RawDataReadsForm(form: FormData, user: SessionUser)
    ensures var r := RawData(form, user);
      && r.benchmarkId == Field(form, "benchmarkId")
      && r.repoUrl == Field(form, "repoUrl")
      && r.baseModel == Field(form, "baseModel")
      && r.codingTool == Field(form, "codingTool")
      && r.plugins == Field(form, "plugins")
      && r.chatLogUrl == Field(form, "chatLogUrl")
      && r.chatLogText == Field(form, "chatLogText")
  {
  }

  // ---------------------------------------------------------------------
  // Validation

  /** The fields of the submission schema, which are also the keys of the
      per-field error record. */
  datatype FieldName =
    | BenchmarkIdField | RepoUrlField | BaseModelField | CodingToolField | PluginsField
    | AuthorNameField | AuthorEmailField | ChatLogUrlField | ChatLogTextField | ChatLogFilesField

  const AllFields: set<FieldName> :=
    {BenchmarkIdField, RepoUrlField, BaseModelField, CodingToolField, PluginsField,
     AuthorNameField, AuthorEmailField, ChatLogUrlField, ChatLogTextField, ChatLogFilesField}

  lemma AllFieldsListed()
    ensures forall f: FieldName :: f in AllFields
  {
    forall f: FieldName ensures f in AllFields {
      match f
      case BenchmarkIdField =>
      case RepoUrlField =>
      case BaseModelField =>
      case CodingToolField =>
      case PluginsField =>
      case AuthorNameField =>
      case AuthorEmailField =>
      case ChatLogUrlField =>
      case ChatLogTextField =>
      case ChatLogFilesField =>
    }
  }

  const RepoUrlMessage := "Please enter a valid URL"
  const BaseModelMessage := "Base model is required"
  const CodingToolMessage := "Coding tool is required"
  const PluginsMessage := "Plugins are required (enter 'None' if applicable)"
  const EmailMessage := "Invalid email"
  const ChatLogUrlMessage := "Invalid URL"
  const FileUrlMessage := "Invalid url"
  const EvidenceMessage := "At least one chat log (URL, Text, or File) is required"

  /** The `.refine` rule: a chat-log URL, chat-log text or at least one file. */
  predicate HasEvidence(raw: RawSubmission) {
    raw.chatLogUrl != "" || raw.chatLogText != "" || |raw.chatLogFiles| > 0
  }

  /** What the schema accepts, as one condition over all fields. */
  predicate Acceptable(raw: RawSubmission, isUrl: string -> bool, isEmail: string -> bool) {
    && isUrl(raw.repoUrl)
    && raw.baseModel != ""
    && raw.codingTool != ""
    && raw.plugins != ""
    && (raw.authorEmail == "" || isEmail(raw.authorEmail))
    && (raw.chatLogUrl == "" || isUrl(raw.chatLogUrl))
    && (forall i :: 0 <= i < |raw.chatLogFiles| ==> isUrl(raw.chatLogFiles[i]))
    && HasEvidence(raw)
  }

  function Check(ok: bool, message: string): seq<string> {
    if ok then [] else [message]
  }

  /** `z.array(z.string().url())`: one message per entry that is not a URL. */
  function FileMessages(files: seq<string>, isUrl: string -> bool): (r: seq<string>)
    ensures r == [] <==> forall i :: 0 <= i < |files| ==> isUrl(files[i])
    ensures forall i :: 0 <= i < |r| ==> r[i] == FileUrlMessage
  {
    if files == [] then []
    else Check(isUrl(files[0]), FileUrlMessage) + FileMessages(files[1..], isUrl)
  }

  /** The messages the schema reports on one field, in the order its checks
      run. A failed field check does not abort the parse, so the evidence
      rule is checked as well, and its message follows the URL check on
      `chatLogUrl`. `benchmarkId`, `authorName` and `chatLogText` accept any
      string. */
  function Messages(raw: RawSubmission, f: FieldName, isUrl: string -> bool, isEmail: string -> bool): seq<string>
  {
    match f
    case RepoUrlField => Check(isUrl(raw.repoUrl), RepoUrlMessage)
    case BaseModelField => Check(|raw.baseModel| >= 1, BaseModelMessage)
    case CodingToolField => Check(|raw.codingTool| >= 1, CodingToolMessage)
    case PluginsField => Check(|raw.plugins| >= 1, PluginsMessage)
    case AuthorEmailField => Check(raw.authorEmail == "" || isEmail(raw.authorEmail), EmailMessage)
    case ChatLogUrlField =>
      Check(raw.chatLogUrl == "" || isUrl(raw.chatLogUrl), ChatLogUrlMessage)
      + Check(HasEvidence(raw), EvidenceMessage)
    case ChatLogFilesField => FileMessages(raw.chatLogFiles, isUrl)
    case _ => []
  }

  /** `validatedFields.error.flatten().fieldErrors`: the fields that failed,
      each with its messages. It is empty exactly when the input is
      acceptable, i.e. when `safeParse` succeeds. */
  function FieldErrors(raw: RawSubmission, isUrl: string -> bool, isEmail: string -> bool): (r: map<FieldName, seq<string>>)
    ensures forall f :: f in r <==> Messages(raw, f, isUrl, isEmail) != []
    ensures forall f | f in r :: r[f] == Messages(raw, f, isUrl, isEmail)
    ensures r == map[] <==> Acceptable(raw, isUrl, isEmail)
  {
    var r := map f | f in AllFields && Messages(raw, f, isUrl, isEmail) != [] :: Messages(raw, f, isUrl, isEmail);
    AllFieldsListed();
    if Acceptable(raw, isUrl, isEmail) then
      assert forall f: FieldName :: Messages(raw, f, isUrl, isEmail) == [];
      r
    else
      assert !isUrl(raw.repoUrl) ==> RepoUrlField in r;
      assert raw.baseModel == "" ==> BaseModelField in r;
      assert raw.codingTool == "" ==> CodingToolField in r;
      assert raw.plugins == "" ==> PluginsField in r;
      assert !(raw.authorEmail == "" || isEmail(raw.authorEmail)) ==> AuthorEmailField in r;
      assert !(raw.chatLogUrl == "" || isUrl(raw.chatLogUrl)) || !HasEvidence(raw) ==> ChatLogUrlField in r;
      assert !(forall i :: 0 <= i < |raw.chatLogFiles| ==> isUrl(raw.chatLogFiles[i])) ==> ChatLogFilesField in r;
      r
  }

  /** With no chat-log URL, no text and no files, validation fails with
      exactly the evidence message under `chatLogUrl`, whatever the other
      fields are. */
  lemma NoEvidenceRejected(raw: RawSubmission, isUrl: string -> bool, isEmail: string -> bool)
    requires raw.chatLogUrl == "" && raw.chatLogText == "" && raw.chatLogFiles == []
    ensures var errors := FieldErrors(raw, isUrl, isEmail);
      ChatLogUrlField in errors && errors[ChatLogUrlField] == [EvidenceMessage]
  {
  }

  /** One evidence item of any of the three kinds satisfies the rule, so the
      evidence message is never reported. */
  lemma AnyEvidenceSuffices(raw: RawSubmission, isUrl: string -> bool, isEmail: string -> bool)
    requires raw.chatLogUrl != "" || raw.chatLogText != "" || raw.chatLogFiles != []
    ensures forall f :: EvidenceMessage !in Messages(raw, f, isUrl, isEmail)
  {
    forall f ensures EvidenceMessage !in Messages(raw, f, isUrl, isEmail) {
      if f == ChatLogFilesField {
        assert forall m | m in FileMessages(raw.chatLogFiles, isUrl) :: m == FileUrlMessage;
      }
    }
  }

  /** A repository URL that is not a URL, or an empty base model, coding
      tool or plugin string, is reported on that field. */
  lemma RequiredFieldsReported(raw: RawSubmission, isUrl: string -> bool, isEmail: string -> bool)
    ensures var errors := FieldErrors(raw, isUrl, isEmail);
      && (!isUrl(raw.repoUrl) ==> errors[RepoUrlField] == [RepoUrlMessage])
      && (raw.baseModel == "" ==> errors[BaseModelField] == [BaseModelMessage])
      && (raw.codingTool == "" ==> errors[CodingToolField] == [CodingToolMessage])
      && (raw.plugins == "" ==> errors[PluginsField] == [PluginsMessage])
  {
  }

  // ---------------------------------------------------------------------
  // Plugins

  /** `plugins.split(',').map((p) => p.trim()).filter(Boolean)`. */
  function ParsePlugins(s: string): seq<string>
  {
    NonEmpty(TrimAll(Split(s, ',')))
  }

  /** Every stored plugin is non-empty, already trimmed and free of commas.
      Which entries appear, in which order and how often is stated by
      `ParsePluginsField` and `ParsePluginsAppend` below. */
  lemma ParsedPluginsAreClean(s: string)
    ensures var r := ParsePlugins(s);
      forall i :: 0 <= i < |r| ==> r[i] != "" && ',' !in r[i] && Trim(r[i]) == r[i]
  {
    var pieces := Split(s, ',');
    var trimmed := TrimAll(pieces);
    var r := NonEmpty(trimmed);
    forall i | 0 <= i < |r| ensures ',' !in r[i] && Trim(r[i]) == r[i] {
      assert r[i] in trimmed;
      var j :| 0 <= j < |trimmed| && trimmed[j] == r[i];
      TrimIdempotent(pieces[j]);
      TrimChars(pieces[j]);
    }
  }

  /** A single comma-free field yields its trimmed text, or nothing when it
      is blank. */
  lemma ParsePluginsField(x: string)
    requires ',' !in x
    ensures ParsePlugins(x) == if Trim(x) == "" then [] else [Trim(x)]
  {
    SplitNoSep(x, ',');
    assert TrimAll([x]) == [Trim(x)];
    NonEmptyOne(Trim(x));
  }

  /** The input splits at every comma: the plugins of `x + "," + y` are the
      plugins of `x` followed by the plugins of `y`, so entries keep their
      input order and repeated names are kept. */
  lemma ParsePluginsAppend(x: string, y: string)
    ensures ParsePlugins(x + "," + y) == ParsePlugins(x) + ParsePlugins(y)
  {
    var px, py := Split(x, ','), Split(y, ',');
    SplitAppend(x, y, ',');
    TrimAllAppend(px, py);
    NonEmptyAppend(TrimAll(px), TrimAll(py));
  }

  /** The worked example: `"pandas, matplotlib, "` is stored as
      `["pandas", "matplotlib"]`. */
  lemma ParsePluginsExample()
    ensures ParsePlugins("pandas, matplotlib, ") == ["pandas", "matplotlib"]
  {
    var pieces := Split("pandas, matplotlib, ", ',');
    assert pieces == ["pandas", " matplotlib", " "] by {
      ExampleSplit();
    }
    var trimmed := TrimAll(pieces);
    assert trimmed == ["pandas", "matplotlib", ""] by {
      TrimAllOfThree("pandas", " matplotlib", " ");
      TrimPandas();
      ExampleTrimMatplotlib();
      TrimBlank();
    }
    NonEmptyOfThree("pandas", "matplotlib");
  }

  lemma TrimPandas()
    ensures Trim("pandas") == "pandas"
  {
    TrimTrimmed("pandas");
  }

  lemma TrimBlank()
    ensures Trim(" ") == ""
  {
    assert AllSpace(" ");
  }

  lemma ExampleTrimMatplotlib()
    ensures Trim(" matplotlib") == "matplotlib"
  {
    var m := "matplotlib";
    assert (" " + m)[1..] == m;
    assert !IsSpace(m[0]);
    assert TrimStart(m) == m;
    assert TrimStart(" " + m) == m;
    TrimTrimmed(m);
  }

  lemma ExampleSplit()
    ensures Split("pandas, matplotlib, ", ',') == ["pandas", " matplotlib", " "]
  {
    var pieces := ["pandas", " matplotlib", " "];
    assert Join(pieces, ',') == "pandas, matplotlib, ";
    SplitJoin(pieces, ',');
  }

  lemma TrimAllOfThree(x: string, y: string, z: string)
    ensures TrimAll([x, y, z]) == [Trim(x), Trim(y), Trim(z)]
  {
    assert [x, y, z][1..] == [y, z];
    assert [y, z][1..] == [z];
    assert TrimAll([z]) == [Trim(z)];
  }

  lemma NonEmptyOfThree(x: string, y: string)
    requires x != "" && y != ""
    ensures NonEmpty([x, y, ""]) == [x, y]
  {
    assert [x, y, ""][1..] == [y, ""];
    assert [y, ""][1..] == [""];
    assert [""][1..] == [];
    assert NonEmpty([""]) == [];
    assert NonEmpty([y, ""]) == [y];
  }

  /** The schema only asks for a non-empty plugin STRING: a plugin field of
      a comma and a blank passes validation and is stored as an empty list. */
  lemma BlankPluginsAccepted(raw: RawSubmission, isUrl: string -> bool, isEmail: string -> bool)
    requires raw.plugins == ", "
    ensures PluginsField !in FieldErrors(raw, isUrl, isEmail)
    ensures ParsePlugins(raw.plugins) == []
  {
    assert ", " == "" + "," + " ";
    ParsePluginsAppend("", " ");
    ParsePluginsField("");
    ParsePluginsField(" ");
    assert Trim("") == "";
    TrimBlank();
  }

  // ---------------------------------------------------------------------
  // The stored record

  /** The row `prisma.submission.create` inserts: status PENDING, owned by the
      session user, plugins parsed, blank optional strings stored as null;
      `likeCount` starts at zero. */
  function NewSubmission(raw: RawSubmission, userId: Id, id: Id, now: int): (r: Submission)
    ensures r.id == id && r.benchmarkId == raw.benchmarkId && r.userId == userId
    ensures r.status == PENDING && r.likeCount == 0 && r.createdAt == now
    ensures r.repoUrl == raw.repoUrl && r.baseModel == raw.baseModel && r.codingTool == raw.codingTool
    ensures r.plugins == ParsePlugins(raw.plugins)
    ensures r.authorName == NullIfEmpty(raw.authorName)
    ensures r.authorEmail == NullIfEmpty(raw.authorEmail)
    ensures r.chatLogUrl == NullIfEmpty(raw.chatLogUrl)
    ensures r.chatLogText == NullIfEmpty(raw.chatLogText)
    ensures r.chatLogFiles == raw.chatLogFiles
  {
    Submission(
      id, raw.benchmarkId, userId, PENDING,
      raw.repoUrl, raw.baseModel, raw.codingTool,
      ParsePlugins(raw.plugins),
      NullIfEmpty(raw.authorName), NullIfEmpty(raw.authorEmail),
      NullIfEmpty(raw.chatLogUrl), NullIfEmpty(raw.chatLogText),
      raw.chatLogFiles,
      0, now)
  }

  /** Because the author name defaults to the session name and then to
      `'Anonymous'`, a stored submission always has an author name, while its
      author e-mail is null when neither the form nor the session has one. */
  lemma StoredAuthor(form: FormData, user: SessionUser, userId: Id, id: Id, now: int)
    ensures NewSubmission(RawData(form, user), userId, id, now).authorName.Some?
    ensures NewSubmission(RawData(form, user), userId, id, now).authorEmail.None?
            <==> !Truthy(Get(form, "authorEmail")) && user.email == ""
  {
    var raw := RawData(form, user);
    assert raw.authorName != "";
    assert raw.authorEmail == "" <==> !Truthy(Get(form, "authorEmail")) && user.email == "" by {
      if Truthy(Get(form, "authorEmail")) {
        assert raw.authorEmail == Get(form, "authorEmail").value;
      } else {
        assert raw.authorEmail == user.email;
      }
    }
    StoredAuthorOf(raw, userId, id, now);
  }

  lemma StoredAuthorOf(raw: RawSubmission, userId: Id, id: Id, now: int)
    ensures NewSubmission(raw, userId, id, now).authorName.Some? <==> raw.authorName != ""
    ensures NewSubmission(raw, userId, id, now).authorEmail.None? <==> raw.authorEmail == ""
  {
  }

  // ---------------------------------------------------------------------
  // The action

  const LoginMessage := "You must be logged in to submit a solution."
  const ValidationMessage := "Validation Failed. Please check your inputs."
  const DatabaseMessage := "Database Error: Failed to Create Submission."

  datatype SubmitResult =
    | LoginRequired(message: string, fields: map<string, string>)
    | ValidationFailed(errors: map<FieldName, seq<string>>, message: string, echoed: RawSubmission)
    | DatabaseError(message: string)
    | Submitted(benchmarkId: Id)   // revalidates the benchmark page and redirects to the success page

  /** Whether the insert can succeed: no store fault, a fresh id, and a
      benchmark that exists (the foreign key). */
  predicate Insertable(t: Tables, raw: RawSubmission, id: Id, fault: bool) {
    !fault && id !in t.submissions && raw.benchmarkId in t.benchmarks
  }

  /** Storing a new row under a fresh id, for an existing benchmark and
      with a zero counter, keeps the store well formed. */
  lemma InsertPreservesWellFormed(t: Tables, row: Submission)
    requires WellFormed(t)
    requires row.id !in t.submissions && row.benchmarkId in t.benchmarks && row.likeCount == 0
    ensures WellFormed(t.(submissions := t.submissions[row.id := row]))
  {
    assert Likers(t.likes, row.id) == {} by {
      assert forall k | k in t.likes :: k.0 in t.submissions;
    }
  }

  /** `submitSolution(prevState, formData)` on the tables. The id the store
      would generate is `newId`, the clock reads `now`, and `fault` stands
      for a failure of the store. The store changes only on success, and
      then by exactly one new PENDING row. */
  function Submit(t: Tables, session: Option<Session>, form: FormData,
                  isUrl: string -> bool, isEmail: string -> bool,
                  newId: Id, now: int, fault: bool): (r: (Tables, SubmitResult))
    ensures r.1.LoginRequired? <==> session.None?
    ensures r.1.LoginRequired? ==> r.1 == LoginRequired(LoginMessage, FromEntries(form))
    ensures r.1.ValidationFailed? <==>
      session.Some? && !Acceptable(RawData(form, session.value.user), isUrl, isEmail)
    ensures r.1.ValidationFailed? ==>
      var raw := RawData(form, session.value.user);
      r.1 == ValidationFailed(FieldErrors(raw, isUrl, isEmail), ValidationMessage, raw)
    ensures r.1.DatabaseError? ==> r.1.message == DatabaseMessage
    ensures r.1.Submitted? <==>
      && session.Some?
      && Acceptable(RawData(form, session.value.user), isUrl, isEmail)
      && Insertable(t, RawData(form, session.value.user), newId, fault)
    ensures !r.1.Submitted? ==> r.0 == t
    ensures r.1.Submitted? ==>
      var raw := RawData(form, session.value.user);
      && r.1.benchmarkId == raw.benchmarkId
      && r.0.benchmarks == t.benchmarks && r.0.likes == t.likes
      && newId !in t.submissions
      && r.0.submissions.Keys == t.submissions.Keys + {newId}
      && (forall s | s in t.submissions :: r.0.submissions[s] == t.submissions[s])
      && r.0.submissions[newId] == NewSubmission(raw, session.value.user.id, newId, now)
  {
    if session.None? then (t, LoginRequired(LoginMessage, FromEntries(form)))
    else
      var raw := RawData(form, session.value.user);
      var errors := FieldErrors(raw, isUrl, isEmail);
      if errors != map[] then (t, ValidationFailed(errors, ValidationMessage, raw))
      else if !Insertable(t, raw, newId, fault) then (t, DatabaseError(DatabaseMessage))
      else
        var row := NewSubmission(raw, session.value.user.id, newId, now);
        (t.(submissions := t.submissions[newId := row]), Submitted(raw.benchmarkId))
  }

  /** A submission keeps the store well formed: the new row refers to an
      existing benchmark and has no likes yet. */
  lemma SubmitPreservesWellFormed(t: Tables, session: Option<Session>, form: FormData,
                                  isUrl: string -> bool, isEmail: string -> bool,
                                  newId: Id, now: int, fault: bool)
    requires WellFormed(t)
    ensures WellFormed(Submit(t, session, form, isUrl, isEmail, newId, now, fault).0)
  {
    if Submit(t, session, form, isUrl, isEmail, newId, now, fault).1.Submitted? {
      var raw := RawData(form, session.value.user);
      InsertPreservesWellFormed(t, NewSubmission(raw, session.value.user.id, newId, now));
    }
  }

  /** The action on the store. */
  method SubmitSolution(db: Db, session: Option<Session>, form: FormData,
                        isUrl: string -> bool, isEmail: string -> bool,
                        newId: Id, now: int, fault: bool) returns (r: SubmitResult)
    requires db.Valid()
    modifies db
    ensures db.Valid()
    ensures (db.State(), r) == Submit(old(db.State()), session, form, isUrl, isEmail, newId, now, fault)
  {
    ghost var expected := Submit(db.State(), session, form, isUrl, isEmail, newId, now, fault);
    SubmitPreservesWellFormed(db.State(), session, form, isUrl, isEmail, newId, now, fault);
    if session.None? {
      r := LoginRequired(LoginMessage, FromEntries(form));
      assert expected == (db.State(), r);
      return;
    }
    var user := session.value.user;
    var raw := RawData(form, user);
    var errors := FieldErrors(raw, isUrl, isEmail);
    if errors != map[] {
      r := ValidationFailed(errors, ValidationMessage, raw);
      assert expected == (db.State(), r);
      return;
    }
    if !Insertable(db.State(), raw, newId, fault) {
      r := DatabaseError(DatabaseMessage);
      assert expected == (db.State(), r);
      return;
    }
    var row := NewSubmission(raw, user.id, newId, now);
    db.submissions := db.submissions[newId := row];
    r := Submitted(raw.benchmarkId);
    assert expected == (db.State(), r);
  }
}
