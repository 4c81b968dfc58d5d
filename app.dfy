// The application component's state and handlers (App.tsx): file admission
// against the 3 MB ceiling, the evaluation run with its mandatory-document
// check and history prepend, deletion by id, starting over, login and
// logout, and the billing projection. Ids, timestamps, the current date, the
// credential and the model are inputs of the handlers.
module AppState {
  import opened Types
  import opened Request
  import opened GeminiService
  import opened Billing

  datatype ViewMode = Uploader | DashboardView | ReportView

  /** The three upload slots. */
  datatype Role = QuestionPaper | AnswerKey | StudentSheets

  const MaxFileSizeMB: nat := 3
  const MaxFileSizeBytes: nat := MaxFileSizeMB * 1024 * 1024

  const InputErrorMessage: string :=
    "Input Error: Mandatory documentation (QP & Student Sheets) required."
  const ConfigErrorMessage: string :=
    "System Error: API Configuration missing. Please use the Setup tool."
  const FallbackErrorMessage: string :=
    "A clinical evaluation error occurred. Please retry."

  /** The message naming a file over the ceiling. */
  function OversizeMessage(name: string): string {
    "\"" + name + "\" exceeds 3MB."
  }

  /** A file is admitted unless it is larger than the ceiling. */
  predicate Fits(f: FileInfo) {
    f.size <= MaxFileSizeBytes
  }

  /** The files that fit, in their original order. */
  function Admitted(files: seq<FileInfo>): seq<FileInfo> {
    if |files| == 0 then []
    else Admitted(files[..|files| - 1]) + (if Fits(files[|files| - 1]) then [files[|files| - 1]] else [])
  }

  /** The name of the last file over the ceiling, if any. */
  function LastOversized(files: seq<FileInfo>): Option<string> {
    if |files| == 0 then None
    else if !Fits(files[|files| - 1]) then Some(files[|files| - 1].name)
    else LastOversized(files[..|files| - 1])
  }

  /** The error a selection leaves: the message for its last oversized file. */
  function SelectionError(files: seq<FileInfo>): Option<string> {
    match LastOversized(files)
    case None => None
    case Some(name) => Some(OversizeMessage(name))
  }

  /** The size filter of `handleFileSelection`: keeps the files that fit and
      sets the error once per oversized file, so the last one's message
      remains. */
  method FilterBySize(files: seq<FileInfo>) returns (valid: seq<FileInfo>, error: Option<string>)
    ensures valid == Admitted(files)
    ensures error == SelectionError(files)
  {
    valid, error := [], None;
    var i := 0;
    while i < |files|
      invariant 0 <= i <= |files|
      invariant valid == Admitted(files[..i])
      invariant error == SelectionError(files[..i])
    {
      assert files[..i + 1][..i] == files[..i];
      if files[i].size > MaxFileSizeBytes {
        error := Some(OversizeMessage(files[i].name));
      } else {
        valid := valid + [files[i]];
      }
      i := i + 1;
    }
    assert files[..i] == files;
  }

  /** Exactly the files that fit are admitted. */
  lemma {:induction false} AdmittedMembers(files: seq<FileInfo>)
    ensures forall f :: f in Admitted(files) <==> f in files && Fits(f)
  {
    if |files| > 0 {
      var front := files[..|files| - 1];
      AdmittedMembers(front);
      assert files == front + [files[|files| - 1]];
    }
  }

  /** Admission keeps relative order: it distributes over concatenation. */
  lemma {:induction false} AdmittedAppend(a: seq<FileInfo>, b: seq<FileInfo>)
    ensures Admitted(a + b) == Admitted(a) + Admitted(b)
  {
    if |b| > 0 {
      var b' := b[..|b| - 1];
      AdmittedAppend(a, b');
      assert (a + b)[..|a + b| - 1] == a + b';
      assert (a + b)[|a + b| - 1] == b[|b| - 1];
    } else {
      assert a + b == a;
    }
  }

  /** There is an error exactly when some file is over the ceiling, and then
      it names an oversized file after which every file fits. */
  lemma {:induction false} LastOversizedSpec(files: seq<FileInfo>)
    ensures LastOversized(files).None? <==> forall k :: 0 <= k < |files| ==> Fits(files[k])
    ensures LastOversized(files).Some? ==>
      exists k :: 0 <= k < |files| && !Fits(files[k]) &&
        files[k].name == LastOversized(files).value &&
        forall j :: k < j < |files| ==> Fits(files[j])
  {
    if |files| > 0 {
      var front := files[..|files| - 1];
      LastOversizedSpec(front);
      assert forall k :: 0 <= k < |front| ==> front[k] == files[k];
    }
  }

  /** A file of exactly 3 MB is admitted; one byte more is rejected and the
      error names it. */
  lemma ThreeMegabyteBoundary(name: string, dataUrl: string)
    ensures Admitted([FileInfo(name, 3 * 1024 * 1024, dataUrl)]) == [FileInfo(name, 3 * 1024 * 1024, dataUrl)]
    ensures SelectionError([FileInfo(name, 3 * 1024 * 1024, dataUrl)]) == None
    ensures Admitted([FileInfo(name, 3 * 1024 * 1024 + 1, dataUrl)]) == []
    ensures SelectionError([FileInfo(name, 3 * 1024 * 1024 + 1, dataUrl)]) == Some(OversizeMessage(name))
  {
    var ok := [FileInfo(name, 3 * 1024 * 1024, dataUrl)];
    var big := [FileInfo(name, 3 * 1024 * 1024 + 1, dataUrl)];
    assert ok[..0] == [] && big[..0] == [];
    assert LastOversized(ok) == LastOversized([]);
  }

  /** A newly selected file as the uploader first shows it. */
  function ToUpload(f: FileInfo): UploadedFile {
    UploadedFile(f, f.dataUrl, 0, Uploading)
  }

  function Uploads(files: seq<FileInfo>): seq<UploadedFile> {
    seq(|files|, k requires 0 <= k < |files| => ToUpload(files[k]))
  }

  /** The data URLs handed to the grading service, `files.map(f => f.preview)`. */
  function Previews(files: seq<UploadedFile>): seq<string> {
    seq(|files|, k requires 0 <= k < |files| => files[k].preview)
  }

  /** `history.filter(item => item.id !== id)`. */
  function RemoveById(history: seq<HistoryItem>, id: string): seq<HistoryItem> {
    if |history| == 0 then []
    else (if history[0].id == id then [] else [history[0]]) + RemoveById(history[1..], id)
  }

  /** Deletion removes exactly the records with that id. */
  lemma {:induction false} RemoveByIdMembers(history: seq<HistoryItem>, id: string)
    ensures forall x :: x in RemoveById(history, id) <==> x in history && x.id != id
  {
    if |history| > 0 {
      RemoveByIdMembers(history[1..], id);
      assert history == [history[0]] + history[1..];
    }
  }

  /** Deleting an id no record has changes nothing. */
  lemma {:induction false} RemoveAbsentId(history: seq<HistoryItem>, id: string)
    requires forall k :: 0 <= k < |history| ==> history[k].id != id
    ensures RemoveById(history, id) == history
  {
    if |history| > 0 {
      RemoveAbsentId(history[1..], id);
      assert history == [history[0]] + history[1..];
    }
  }

  /** Deletion keeps the order of the rest: it distributes over
      concatenation. */
  lemma {:induction false} RemoveByIdAppend(a: seq<HistoryItem>, b: seq<HistoryItem>, id: string)
    ensures RemoveById(a + b, id) == RemoveById(a, id) + RemoveById(b, id)
  {
    if |a| > 0 {
      RemoveByIdAppend(a[1..], b, id);
      assert (a + b)[1..] == a[1..] + b;
      assert (a + b)[0] == a[0];
    } else {
      assert a + b == b;
    }
  }

  /** The message shown for a failed evaluation. */
  function ErrorText(e: EvalError): string {
    if Message(e) == ApiKeyMissingMessage then ConfigErrorMessage
    else if Message(e) != "" then Message(e)
    else FallbackErrorMessage
  }

  /** An error whose message is `API_KEY_MISSING`, the missing key among
      them, shows the configuration message; any other error shows its own
      message, or the fallback when that message is empty. */
  lemma ErrorTextSpec(e: EvalError)
    ensures Message(e) == ApiKeyMissingMessage ==> ErrorText(e) == ConfigErrorMessage
    ensures e == ApiKeyMissing ==> ErrorText(e) == ConfigErrorMessage
    ensures Message(e) != ApiKeyMissingMessage ==>
      ErrorText(e) == if Message(e) == "" then FallbackErrorMessage else Message(e)
    ensures e == EmptyResponse ==> ErrorText(e) == EmptyResponseMessage
  {
  }

  class App {
    var currentUser: Option<User>
    var viewMode: ViewMode
    var qpFiles: seq<UploadedFile>
    var keyFiles: seq<UploadedFile>
    var studentFiles: seq<UploadedFile>
    var isLoading: bool
    var currentReport: Option<EvaluationReport>
    var error: Option<string>
    var history: seq<HistoryItem>

    /** Between handlers nothing is loading; the report view always has a
        report; without a user there is no history; and every record belongs
        to the signed-in user. */
    ghost predicate Valid()
      reads this
    {
      && !isLoading
      && (viewMode == ReportView ==> currentReport.Some?)
      && (currentUser.None? ==> history == [])
      && (currentUser.Some? ==>
            forall k :: 0 <= k < |history| ==> history[k].userId == currentUser.value.id)
    }

    constructor ()
      ensures Valid()
      ensures currentUser == None && viewMode == Uploader
      ensures qpFiles == [] && keyFiles == [] && studentFiles == []
      ensures !isLoading && currentReport == None && error == None && history == []
    {
      currentUser := None;
      viewMode := Uploader;
      qpFiles, keyFiles, studentFiles := [], [], [];
      isLoading := false;
      currentReport := None;
      error := None;
      history := [];
    }

    /** `handleLogin`, with the new user (id, timestamp) given. The sign-in
        form is only shown while nobody is signed in. */
    method HandleLogin(user: User)
      requires Valid() && currentUser.None?
      modifies this
      ensures Valid()
      ensures currentUser == Some(user)
      ensures viewMode == old(viewMode) && history == old(history) && error == old(error)
      ensures qpFiles == old(qpFiles) && keyFiles == old(keyFiles) && studentFiles == old(studentFiles)
      ensures currentReport == old(currentReport) && isLoading == old(isLoading)
    {
      currentUser := Some(user);
    }

    /** `handleLogout`: no user, no history, back to the uploader. */
    method HandleLogout()
      requires Valid()
      modifies this
      ensures Valid()
      ensures currentUser == None && history == [] && viewMode == Uploader
      ensures qpFiles == old(qpFiles) && keyFiles == old(keyFiles) && studentFiles == old(studentFiles)
      ensures currentReport == old(currentReport) && error == old(error) && isLoading == old(isLoading)
    {
      currentUser := None;
      history := [];
      viewMode := Uploader;
    }

    /** `handleFileSelection(role)(files)`: the error is cleared, then set for
        each oversized file; the files that fit are appended, in order, to
        the selected role's list only. */
    method HandleFileSelection(role: Role, files: seq<FileInfo>)
      requires Valid()
      modifies this
      ensures Valid()
      ensures error == SelectionError(files)
      ensures qpFiles == old(qpFiles) + (if role == QuestionPaper then Uploads(Admitted(files)) else [])
      ensures keyFiles == old(keyFiles) + (if role == AnswerKey then Uploads(Admitted(files)) else [])
      ensures studentFiles == old(studentFiles) + (if role == StudentSheets then Uploads(Admitted(files)) else [])
      ensures currentUser == old(currentUser) && viewMode == old(viewMode) && history == old(history)
      ensures currentReport == old(currentReport) && isLoading == old(isLoading)
    {
      error := None;
      var valid, oversize := FilterBySize(files);
      if oversize.Some? {
        error := oversize;
      }
      var newFiles := Uploads(valid);
      match role {
        case QuestionPaper => qpFiles := qpFiles + newFiles;
        case AnswerKey => keyFiles := keyFiles + newFiles;
        case StudentSheets => studentFiles := studentFiles + newFiles;
      }
    }

    /** `runEvaluation`, with the credential, the model, the decoder, the new
        record's id and the current time given. `evaluated` says whether the
        grading service was called; `request` is what it sent to the model. */
    method RunEvaluation(
      apiKey: Option<string>,
      generate: seq<Part> -> ModelReply,
      decode: string -> Result<EvaluationReport, string>,
      newId: string, now: int)
      returns (evaluated: bool, request: Option<seq<Part>>)
      requires Valid()
      modifies this
      ensures Valid()
      ensures currentUser == old(currentUser)
      ensures qpFiles == old(qpFiles) && keyFiles == old(keyFiles) && studentFiles == old(studentFiles)
      ensures evaluated <==> currentUser.Some? && qpFiles != [] && studentFiles != []
      ensures !evaluated ==> request.None? && history == old(history)
      ensures !evaluated ==> currentReport == old(currentReport) && viewMode == old(viewMode)
      ensures currentUser.None? ==> error == old(error)
      ensures currentUser.Some? && !evaluated ==> error == Some(InputErrorMessage)
      ensures evaluated ==>
        var outcome := EvaluationOutcome(apiKey, Previews(qpFiles), Previews(keyFiles),
                                         Previews(studentFiles), generate, decode);
        && (request.None? <==> !KeyUsable(apiKey))
        && (request.Some? ==>
              request.value == RequestParts(Previews(qpFiles), Previews(keyFiles), Previews(studentFiles)))
        && (outcome.Success? ==>
              && history == [HistoryItem(newId, currentUser.value.id, now, outcome.value,
                                         Some(|studentFiles|))] + old(history)
              && currentReport == Some(outcome.value)
              && viewMode == ReportView
              && error == None)
        && (outcome.Failure? ==>
              && history == old(history)
              && currentReport == old(currentReport)
              && viewMode == old(viewMode)
              && error == Some(ErrorText(outcome.error)))
    {
      if currentUser.None? {
        return false, None;
      }
      if |qpFiles| == 0 || |studentFiles| == 0 {
        error := Some(InputErrorMessage);
        return false, None;
      }
      isLoading := true;
      error := None;
      var outcome;
      outcome, request := EvaluateAnswerSheet(
        apiKey, Previews(qpFiles), Previews(keyFiles), Previews(studentFiles), generate, decode);
      evaluated := true;
      isLoading := false;
      ApplyOutcome(outcome, newId, now);
    }

    /** The grading service's outcome for the signed-in user: a report is
        stored as a new record at the front of the history and shown; an
        error leaves history and view alone and sets its message. */
    method ApplyOutcome(outcome: Result<EvaluationReport, EvalError>, newId: string, now: int)
      requires Valid() && currentUser.Some?
      modifies this
      ensures Valid()
      ensures currentUser == old(currentUser) && isLoading == old(isLoading)
      ensures qpFiles == old(qpFiles) && keyFiles == old(keyFiles) && studentFiles == old(studentFiles)
      ensures outcome.Success? ==>
        && history == [HistoryItem(newId, currentUser.value.id, now, outcome.value,
                                   Some(|studentFiles|))] + old(history)
        && currentReport == Some(outcome.value)
        && viewMode == ReportView
        && error == old(error)
      ensures outcome.Failure? ==>
        && history == old(history)
        && currentReport == old(currentReport)
        && viewMode == old(viewMode)
        && error == Some(ErrorText(outcome.error))
    {
      match outcome {
        case Success(report) =>
          var item := HistoryItem(newId, currentUser.value.id, now, report, Some(|studentFiles|));
          history := [item] + history;
          currentReport := Some(report);
          viewMode := ReportView;
        case Failure(e) =>
          error := Some(ErrorText(e));
      }
    }

    /** The dashboard's delete action: the records with that id go, the rest
        keep their order. */
    method DeleteReport(id: string)
      requires Valid()
      modifies this
      ensures Valid()
      ensures history == RemoveById(old(history), id)
      ensures currentUser == old(currentUser) && viewMode == old(viewMode) && error == old(error)
      ensures qpFiles == old(qpFiles) && keyFiles == old(keyFiles) && studentFiles == old(studentFiles)
      ensures currentReport == old(currentReport) && isLoading == old(isLoading)
    {
      RemoveByIdMembers(history, id);
      history := RemoveById(history, id);
    }

    /** The dashboard's view action: show a stored report. */
    method ViewReport(item: HistoryItem)
      requires Valid()
      modifies this
      ensures Valid()
      ensures currentReport == Some(item.report) && viewMode == ReportView
      ensures currentUser == old(currentUser) && history == old(history) && error == old(error)
      ensures qpFiles == old(qpFiles) && keyFiles == old(keyFiles) && studentFiles == old(studentFiles)
      ensures isLoading == old(isLoading)
    {
      currentReport := Some(item.report);
      viewMode := ReportView;
    }

    /** The navigation tabs: the audit tab shows the uploader, the hub tab the
        dashboard. */
    method SelectTab(dashboard: bool)
      requires Valid()
      modifies this
      ensures Valid()
      ensures viewMode == if dashboard then DashboardView else Uploader
      ensures currentUser == old(currentUser) && history == old(history) && error == old(error)
      ensures qpFiles == old(qpFiles) && keyFiles == old(keyFiles) && studentFiles == old(studentFiles)
      ensures currentReport == old(currentReport) && isLoading == old(isLoading)
    {
      viewMode := if dashboard then DashboardView else Uploader;
    }

    /** `startNew`: empty upload slots, no report, no error, the uploader;
        the history and the user stay. */
    method StartNew()
      requires Valid()
      modifies this
      ensures Valid()
      ensures qpFiles == [] && keyFiles == [] && studentFiles == []
      ensures currentReport == None && error == None && viewMode == Uploader
      ensures currentUser == old(currentUser) && history == old(history) && isLoading == old(isLoading)
    {
      qpFiles, keyFiles, studentFiles := [], [], [];
      currentReport := None;
      viewMode := Uploader;
      error := None;
    }
  }
}
