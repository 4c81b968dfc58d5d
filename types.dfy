// The records passed between the grading service, the application
// state and the dashboard (types.ts), plus the two wrapper datatypes the model
// uses for JavaScript's null/undefined and for thrown errors.
module Types {

  datatype Option<+T> = None | Some(value: T)

  datatype Result<+T, +E> = Success(value: T) | Failure(error: E)

  /** A number field of a decoded report: absent (undefined or null) or a
      finite value. `JSON.parse` never yields NaN; `NotANumber` is there so
      that `|| 0` is modelled for every falsy number, 0, NaN and absent
      alike. */
  datatype JsNumber = Absent | NotANumber | Finite(value: real)

  /** JavaScript's `n || 0` on a number: every falsy number (absent, NaN, 0)
      reads as 0. */
  function NumberOrZero(n: JsNumber): real {
    if n.Finite? then n.value else 0.0
  }

  /** JavaScript's `n || 0` on a count that a stored record may lack. */
  function CountOrZero(n: Option<nat>): nat {
    if n.Some? then n.value else 0
  }

  datatype StudentInfo = StudentInfo(
    name: string,
    rollNumber: string,
    subject: string,
    className: string,
    examName: string,
    date: string)

  datatype QuestionGrade = QuestionGrade(
    questionNumber: string,
    studentAnswer: string,
    correctAnswer: string,
    marksObtained: JsNumber,
    totalMarks: real,
    feedback: string)

  datatype EvaluationReport = EvaluationReport(
    studentInfo: StudentInfo,
    grades: seq<QuestionGrade>,
    totalScore: real,
    maxScore: real,
    percentage: real,
    generalFeedback: string)

  /** One stored evaluation. `sheetsCount` is optional because records read
      back from storage are not checked. */
  datatype HistoryItem = HistoryItem(
    id: string,
    userId: string,
    timestamp: int,
    report: EvaluationReport,
    sheetsCount: Option<nat>)

  datatype User = User(
    id: string,
    email: string,
    name: string,
    organization: string,
    createdAt: int)

  /** A calendar day; `month` runs from 1 (January) to 12 (December). */
  datatype CalendarDate = CalendarDate(year: int, month: int, day: int)

  /** The billing projection; the charge is in cents. */
  datatype BillingInfo = BillingInfo(
    pendingCents: nat,
    dueDate: CalendarDate,
    isPaid: bool,
    sheetsEvaluatedThisMonth: nat)

  /** A file the user picked: its name, its size in bytes and the data URL the
      browser's reader produces for it. */
  datatype FileInfo = FileInfo(name: string, size: nat, dataUrl: string)

  datatype UploadStatus = Uploading | Complete | Error

  datatype UploadedFile = UploadedFile(
    file: FileInfo,
    preview: string,
    progress: nat,
    status: UploadStatus)
}
